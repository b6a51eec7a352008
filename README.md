# IEM-UEM Progress: a verified model of the server core

IEM-UEM Progress is an Express/Mongoose back end for university progress reporting. There are three kinds of accounts:

- **Super-admins** manage the system.
- **Moderators** review the departments of their colleges.
- **Departments** (the `User` model) submit records.

Records go into tables that a super-admin defines at run time. The `createSchema` handler compiles such a table into a Mongoose model; `createDocument` appends records to it. A department's submissions are tallied per review status. A timeline sets the submission window. Uploads go through Excel/CSV and PDF filters. Super-admin routes are guarded by a bearer token. A `/logs` route serves the tail of the access log.

This project models the following in Dafny:

- **Dynamic table registry.** `mongoose.models` and the collections behind it are the fields of the `DynamicSchema.Database` class.
- **Department tally.** A loop over the listed tables and their records, proved equal to a fold (`DepartmentTally`).
- **Account schemas.** Their validators, defaults and save hook (`UserModel`, `ModeratorModel`, `SuperAdminModel`, `FieldValidators`).
- **Account stores.** Three classes holding maps from document id to record, kept under the unique-email invariant: `UserAccounts.UserStore`, `ModeratorAccounts.ModeratorStore` and `SuperAdminAccounts.SuperAdminStore`. They carry the handlers that create, log in, change passwords, update, delete and run the OTP exchange.
- **Credentials.** The two-branch password check and the shared OTP collection (`Credentials`).
- **Timeline.** The date pattern, the end-after-start rule, the single stored window and the inclusive date check (`Timeline`).
- **Small string operations.** The upload filters with Node's POSIX `path.extname` (`UploadFilters`), bearer-token extraction and the super-admin guard (`Auth`), and the log tail (`LogTail`).

JavaScript and Mongoose behaviour is modelled explicitly where it matters:

- **Truthiness.** `Field = Option<string>`: `!x` holds for a missing value and for "".
- **Trimming.** `String.prototype.trim` trims white space, and the `trim: true` setters apply it to values that are stored and to values used in queries.
- **Validation order.** Validators run before a pre-save hook, and `runValidators` on an update checks only the updated paths.
- **Strict mode.** Paths that a schema does not declare are dropped.
- **Indexes.** A missing value counts as null for a unique index.
- **`replace` with a string pattern.** Only the first occurrence is replaced.

These are parameters of the model:

- bcrypt's `compare` is the function `matches`, and a hash it produces is the string `hashed`.
- jwt's `sign` is the function `sign`, and its `verify` is the function `verify`.
- Random passwords and OTP codes are given values.
- Whether a mail was delivered is `mailSent`.
- The result of reading the log file is `read`.
- Today's date is `today`.

Every handler answers with an `Outcome`: `Ok(value)` or `Fail(kind, message)`. `kind` is the HTTP status class the handler sends. `message` is its literal text. Where the message comes from a thrown library error, only the kind is meant.

## Model

| member | source | states |
|---|---|---|
| Common.Trim | server/models/user.model.js:8-23 | The result has no leading or trailing white space, and it is a contiguous slice of the input with only white space cut from each end. |
| Common.Lower | server/controllers/user.controller.js:30-33 | Lower-casing keeps the length, and every character is the ASCII lower-case of the one at the same position. |
| DynamicSchema.Sanitize | server/controllers/dynamicSchema.controller.js:19 | The sanitised name contains no white space and is no longer than the input. |
| DynamicSchema.SanitizeFixesSpaceFree | server/controllers/dynamicSchema.controller.js:19 | A name without white space is unchanged, so letter case is never altered. |
| DynamicSchema.SanitizeIdempotent | server/controllers/dynamicSchema.controller.js:19 | Sanitising twice gives the same result as sanitising once. |
| DynamicSchema.SanitizeCollapsesRun | server/controllers/dynamicSchema.controller.js:19 | A word followed by a maximal white-space run and then the rest becomes the word, one `_`, and the sanitised rest. |
| DynamicSchema.StorageFor | server/controllers/dynamicSchema.controller.js:27-38 | The storage type is Number exactly when the field type is "Number". Text, Email, File and unknown types map to String. |
| DynamicSchema.LastDescriptorWins | server/controllers/dynamicSchema.controller.js:36-42 | For a field name given several times, the last descriptor decides the type. `required` and `unique` are true exactly when that descriptor's flag is the string "True". |
| DynamicSchema.FieldsOfNames | server/controllers/dynamicSchema.controller.js:36-42 | A name is a schema path exactly when some descriptor carries it. |
| DynamicSchema.BuildSchemaDefinition | server/controllers/dynamicSchema.controller.js:34-42 | The `forEach` loop builds exactly the field map `FieldsOf(data)`, and every key is a descriptor's name. |
| DynamicSchema.Stored | server/controllers/document.controller.js:27 | Of the fields in `data`, strict mode keeps exactly those the model declares, with their values unchanged. This holds for dynamic and application models alike. The fields Mongoose generates are not modelled (see "## Left out"). |
| DynamicSchema.StoredOnlyDeclared | server/controllers/document.controller.js:27 | A path the schema does not declare is never stored, so no submitter or department field is injected. |
| DynamicSchema.ProbeAcceptance | server/controllers/dynamicSchema.controller.js:53-58 | The probe record is accepted by an empty table exactly when every required field is one of Name, Email, Age and Pdf. |
| DynamicSchema.Database.Insert | server/controllers/document.controller.js:27 | An accepted record is appended to that table's collection and nothing else changes. A refused record changes nothing. |
| DynamicSchema.Database.DeleteLast | server/controllers/dynamicSchema.controller.js:61 | The record inserted last is removed from that table only. |
| DynamicSchema.Database.CreateSchema | server/controllers/dynamicSchema.controller.js:10-72 | A missing name, or data that is not a non-empty array, gives "Invalid request Data". A registered sanitised name gives "Model already exists". Both leave the registry and collections unchanged. Otherwise exactly the sanitised name is registered with `FieldsOf(data)` and an empty collection. The name is returned, unless the probe is refused, which gives a server error. |
| DynamicSchema.Database.CreateDocument | server/controllers/document.controller.js:10-33 | A missing name or data gives "Invalid request Data". An unregistered sanitised name gives "Model not found". A record refused by the model's `required` validators or unique indexes gives a server error. There are no other failures, and none of them changes the collections. On success, exactly the stored form of `data` is appended to that one table. This applies to an application model (User, Moderator, SuperAdmin, Timeline, TableSchema) as much as to a dynamic table. |
| DynamicSchema.Database.constructor | server/models/superAdmin.model.js:72 | At start-up the registry holds the five application models whose schemas are part of this model, each with its declared paths and an empty collection. The source's OTP model is the exception (see "## Left out"). The five are User, Moderator, SuperAdmin, Timeline and TableSchema, registered at user.model.js:63, moderator.model.js:91, superAdmin.model.js:72, timelime.model.js:11 and tableSchema.model.js:33. |
| DynamicSchema.EmptyUserRefused | server/models/user.model.js:6-17 | An application model applies its own `required` validators: an empty record is never accepted into `User`. |
| DynamicSchema.AppModelWritable | server/controllers/document.controller.js:21-27 | As written, a record passing an application model's validators is stored in that model's collection. Nothing in the handler refuses an application model's name. |
| DynamicSchema.ForgedAdminAccepted | server/models/superAdmin.model.js:6-46 | A concrete record with name, email, phone and a ten-character password is kept whole by strict mode and passes the super-admin `required` validators. |
| DynamicSchema.DepartmentCreatesSuperAdmin | server/routes/document.routes.js:27 | As written, on a freshly started server, `createDocument` stores any record that passes the super-admin validators into the `SuperAdmin` collection. The route needs only a department's token. |
| DynamicSchema.Database.CreateTableDocument | server/controllers/document.controller.js:10-33 | This is the corrected handler. It behaves like `createDocument`, except that an application model's name is answered with "Model not found". Collections of application models never change, and a success always writes to a table compiled by `createSchema`. |
| DynamicSchema.SuperAdminOutOfReach | server/controllers/document.controller.js:21-25 | With the corrected handler, the same forged request is refused and the `SuperAdmin` collection stays empty. |
| DynamicSchema.FailedProbeLeavesNameRegistered | server/controllers/dynamicSchema.controller.js:50-53 | A schema requiring a field the probe lacks gives a server error, yet its name stays registered, and the same request again gets a Conflict. |
| DepartmentTally.CountTable | server/controllers/user.controller.js:36-47 | The loop over one table's records computes `TallyRecords` of those records. |
| DepartmentTally.CountListedTable | server/controllers/user.controller.js:30-35 | A listed table contributes its tally when its lower-cased, sanitised name is registered, and zero otherwise. |
| DepartmentTally.CountDocuments | server/controllers/user.controller.js:21-59 | The loop over all listed tables computes the fold `Tally` of their contributions. |
| DepartmentTally.CountOneMeaning | server/controllers/user.controller.js:38-47 | A counted record adds one to the total. It adds one to accepted exactly when approved, one to rejected exactly when rejected, and one to pending exactly when the status is pending, requestedForApproval or requestedForRejection. It adds at most one to the three status counters together, and exactly one when its status is one of the five known values. |
| DepartmentTally.TallyRecordsMeaning | server/controllers/user.controller.js:36-47 | Per table, the total is the number of records the user submitted. Accepted counts exactly the approved ones, rejected exactly the rejected ones, and pending exactly those still under review (pending, requestedForApproval, requestedForRejection). Accepted + rejected + pending is at most the total. |
| DepartmentTally.TallyRecordsComplete | server/controllers/user.controller.js:40-47 | Per table, when every submitted record has one of the five known statuses (approved, rejected, pending, requestedForApproval, requestedForRejection), the three status counters add up to the total. |
| DepartmentTally.TallyBound | server/controllers/user.controller.js:38-47 | Over all tables, accepted + rejected + pending never exceeds the total. |
| DepartmentTally.TallyComplete | server/controllers/user.controller.js:38-47 | Over all tables, when every submitted record has a known status, accepted + rejected + pending equals the total. |
| DepartmentTally.UnregisteredContributesNothing | server/controllers/user.controller.js:30-33 | A listed name whose lookup key is not registered leaves all four counters unchanged. |
| DepartmentTally.MixedCaseTableSkipped | server/controllers/user.controller.js:30-33 | A table registered under a name containing an upper-case letter is never found, so even its approved, submitted records are not counted. |
| DepartmentTally.LowerDiffers | server/controllers/user.controller.js:31 | A name containing an upper-case ASCII letter differs from its lower-cased lookup key. |
| FieldValidators.EmailScanMatchesPattern | server/models/user.model.js:13-16 | The email scan accepts exactly the strings that `^\S+@\S+\.\S+$` matches: no white space, and an `@` and a later `.` with at least one character before, between and after them. |
| FieldValidators.ValidEmailShape | server/models/user.model.js:8-17 | A valid email is non-empty, has at least five characters, contains no white space and is its own trimmed form. |
| UserModel.NewUserValidation | server/models/user.model.js:6-43 | A new user passes the schema exactly when the trimmed email matches the pattern, the trimmed phone is ten digits and the trimmed department is non-empty. No name, college or status path exists. |
| ModeratorModel.TrimAll | server/models/moderator.model.js:39-44 | Each college entry is trimmed by the `trim` setter of the element type, keeping the order and the length. |
| ModeratorModel.NewModeratorValidation | server/models/moderator.model.js:6-71 | A new moderator (status "pending", counters 0) passes exactly when the trimmed name is non-empty, the email and phone match, and every trimmed college is IEMN, IEMS or UEMJ. The corrected status enum agrees on it. |
| ModeratorModel.VerifiedNotInSchema | server/models/moderator.model.js:64-68 | The declared status enum refuses "verified". |
| SuperAdminModel.PreSave | server/models/superAdmin.model.js:49-55 | The hook changes at most the password. When the password path was modified, the new password is exactly the hash. Otherwise the record is returned unchanged. |
| SuperAdminModel.ResaveDoesNotRehash | server/models/superAdmin.model.js:49-55 | Saving a hashed record again without changing the password keeps the same hash. |
| SuperAdminModel.ShortPasswordRefused | server/models/superAdmin.model.js:37 | A trimmed password shorter than 8 characters fails validation. |
| Credentials.CheckPassword | server/controllers/user.controller.js:127-153 | When `tempPassword` is exactly "", the check succeeds exactly when the permanent password matches, and it asks for no change. Otherwise it succeeds exactly when the temporary one matches, and it asks for a change. A mismatch gives "Invalid credentials" or "Invalid temporary password" respectively. |
| Credentials.CheckAfterUpdate | server/controllers/user.controller.js:165-169 | After a password update, a login succeeds without asking for a change exactly when the new password matches. Otherwise it is "Invalid credentials". |
| Credentials.OtpStore.Replace | server/controllers/user.controller.js:194-200 | The email's code becomes the new one, replacing any earlier code, and other emails keep theirs. |
| Credentials.OtpStore.Consume | server/controllers/user.controller.js:256 | Only the email's code is removed. |
| UserAccounts.WithoutPasswords | server/controllers/user.controller.js:284 | Both passwords are hidden and every other field is kept. |
| UserAccounts.ApplyDetails | server/controllers/user.controller.js:360-368 | Each given email, phone and department is stored trimmed, and the other fields are untouched. |
| UserAccounts.UserStore.FindByEmail | server/controllers/user.controller.js:75 | Finds the account whose email equals the trimmed query, or reports that none exists. |
| UserAccounts.UserStore.CreateUser | server/controllers/user.controller.js:61-109 | A falsy field gives "Please fill all the fields". A taken email gives "User already exists". Both create nothing. A record the schema refuses gives a server error. Otherwise the trimmed record with the hashed temporary password is added under a fresh id. |
| UserAccounts.UserStore.Login | server/controllers/user.controller.js:111-158 | Gives "Please fill all the fields" when a field is falsy, and "User not found" for an unknown email. Otherwise the answer is `CheckPassword` on the account, with the signed token. The store is only read. |
| UserAccounts.UserStore.UpdatePassword | server/controllers/user.controller.js:160-175 | The new hash replaces the password and `tempPassword` becomes "". Nothing else changes. If the record no longer validates, nothing is saved. |
| UserAccounts.UserStore.GenerateOtp | server/controllers/user.controller.js:177-218 | A missing email or an unknown account gives an error and leaves the codes unchanged. Otherwise the email holds exactly the new code. |
| UserAccounts.UserStore.VerifyOtp | server/controllers/user.controller.js:220-263 | Missing input, no stored code, a mismatch or an unknown account give an error and leave the codes unchanged. A match consumes the code and returns a signed token. |
| UserAccounts.UserStore.GetDepartment | server/controllers/user.controller.js:278-308 | An unknown id gives a server error. A department outside the moderator's scope gives "You are not authorized to view this user". Otherwise the answer is the record without passwords, with its tally. |
| UserAccounts.UserStore.UpdateDetails | server/controllers/user.controller.js:352-380 | An unknown id is a success with no record. An email taken by another account is a duplicate-key error. Otherwise only the given fields change. |
| UserAccounts.UserStore.Delete | server/controllers/user.controller.js:382-393 | Exactly that id is removed, if present. |
| UserAccounts.LoginAfterPasswordUpdate | server/controllers/user.controller.js:123-169 | After `updatePassword`, logging in with the new password succeeds with `updatePassword` false. |
| UserAccounts.OtpRoundTrip | server/controllers/user.controller.js:177-263 | A code just generated is accepted once, and afterwards that email has no code. |
| ModeratorAccounts.ApplyUpdate | server/controllers/moderator.controller.js:217-221 | Only name, email, phone, department and college change. Name, email, phone and each college are trimmed when given. `department` is stored as given, because its array path has no trim setter. Passwords, counters and status are untouched. |
| ModeratorAccounts.UpdateValidMeansRecordValid | server/controllers/moderator.controller.js:217-221 | On a valid moderator, the validators of the updated paths pass exactly when the whole updated record is valid. |
| ModeratorAccounts.PasswordUpdated | server/controllers/moderator.controller.js:143-147 | The saved record has the new hash, `tempPassword` "" and status "verified", and is otherwise unchanged. |
| ModeratorAccounts.PasswordUpdateAlwaysRefused | server/controllers/moderator.controller.js:146 | The schema as declared refuses every record that `updatePassword` saves. |
| ModeratorAccounts.PasswordUpdateAcceptedCorrected | server/models/moderator.model.js:64-68 | With "verified" in the enum, the saved record is valid whenever the stored one was. |
| ModeratorAccounts.ModeratorStore.FindByEmail | server/controllers/moderator.controller.js:46 | Finds the moderator whose email equals the trimmed query, or reports that none exists. |
| ModeratorAccounts.ModeratorStore.CreateModerator | server/controllers/moderator.controller.js:19-80 | A falsy field gives "Please fill all the fields". A department or college that is not a non-empty array gives the array error. A taken email gives a Conflict. All three create nothing. A record the schema refuses gives a server error. Otherwise the trimmed record is added with status "pending" and zero counters. |
| ModeratorAccounts.ModeratorStore.Login | server/controllers/moderator.controller.js:82-136 | Follows the same rules as a department login: the two-branch check and "Moderator not found". The store is only read. |
| ModeratorAccounts.ModeratorStore.UpdatePasswordAsWritten | server/controllers/moderator.controller.js:138-153 | As written, every password update ends in a server error. |
| ModeratorAccounts.ModeratorStore.UpdatePassword | server/controllers/moderator.controller.js:138-153 | With the corrected enum, the moderator becomes `PasswordUpdated` and nothing else changes. |
| ModeratorAccounts.ModeratorStore.Delete | server/controllers/moderator.controller.js:176-197 | An unknown id gives "Moderator not found" and changes nothing. Otherwise exactly that moderator is removed. |
| ModeratorAccounts.ModeratorStore.Update | server/controllers/moderator.controller.js:199-232 | An unknown id gives "Moderator not found". An updated path failing its validator gives a server error, and so does an email taken by another moderator. All three change nothing. Otherwise the moderator becomes `ApplyUpdate` of it. |
| ModeratorAccounts.ModeratorStore.GenerateOtp | server/controllers/moderator.controller.js:247-290 | Follows the same replace rule on the shared codes as for departments. |
| ModeratorAccounts.ModeratorStore.VerifyOtp | server/controllers/moderator.controller.js:292-335 | Follows the same consume-only-on-match rule as for departments. |
| ModeratorAccounts.LoginAfterPasswordUpdate | server/controllers/moderator.controller.js:98-147 | After the corrected password update, logging in with the new password succeeds with `updatePassword` false. |
| SuperAdminAccounts.SuperAdminStore.FindByEmail | server/controllers/superAdmin.controller.js:15-16 | Finds the super-admin whose email equals the trimmed query, or reports that none exists. |
| SuperAdminAccounts.SuperAdminStore.Create | server/controllers/superAdmin.controller.js:7-32 | A falsy field (address included) gives "Please fill all the fields". A taken email gives "SuperAdmin already exists". Both create nothing. A refused record gives a server error. Otherwise the record is stored with its password replaced by the hash. |
| SuperAdminAccounts.SuperAdminStore.Login | server/controllers/superAdmin.controller.js:34-57 | An unknown email gives "SuperAdmin not found" and a mismatch gives "Invalid credentials". Otherwise the answer is the signed token. The store is never modified. |
| SuperAdminAccounts.LoginAfterCreate | server/models/superAdmin.model.js:49-55 | A super-admin just created logs in exactly with an attempt that bcrypt matches against the stored hash. If bcrypt matches that hash only with the trimmed password, then only the trimmed password logs in. A password created with surrounding white space and typed the same way again is refused, because it is hashed trimmed (line 36) but compared untrimmed (line 59). |
| Auth.RemoveFirst | server/middlewares/auth.middleware.js:9 | Only the first occurrence of the pattern is removed, and a header without it is unchanged. |
| Auth.BearerHeaderGivesToken | server/middlewares/auth.middleware.js:9 | "Bearer " followed by t gives t. |
| Auth.RemovalNotAnchored | server/middlewares/auth.middleware.js:9 | The first "Bearer " is removed wherever it appears, not only at the start. |
| Auth.Request.VerifySuperAdmin | server/middlewares/auth.middleware.js:7-27 | No header or an empty token gives "Access denied. No token provided". A failed verification is a server error. A missing or unknown id gives "Invalid token". Only on success does the request gain the profile, with `next` called exactly once. |
| Auth.BareBearerRefused | server/middlewares/auth.middleware.js:9-13 | The header "Bearer " alone is refused before any verification. |
| Timeline.Parse | server/models/timelime.model.js:4 | A matching date denotes a four-digit year, a month from 1 to 12 and a day from 1 to 31. |
| Timeline.FormatParses | server/models/timelime.model.js:4 | Every such triple is spelled in a matching string that parses back to it. |
| Timeline.ParseFormats | server/models/timelime.model.js:4 | A matching string is exactly the spelling of the triple it parses to. |
| Timeline.DayThirtyOneInEveryMonth | server/models/timelime.model.js:4 | "2024-02-31" and "2024-04-31" match the pattern. |
| Timeline.SlashesRefused | server/models/timelime.model.js:3-4 | A slash-separated date does not match. |
| Timeline.BeforeIsStrictTotal | server/controllers/timeline.controller.js:32-38 | The order on dates is irreflexive, transitive and total. |
| Timeline.TimelineStore.Create | server/controllers/timeline.controller.js:11-62 | A missing date, a non-matching date, or an end not strictly after the start each give their validation error and change nothing. The answer is Ok exactly when both dates are given, both match and the end is after the start. The single timeline then holds exactly the given dates. |
| Timeline.TimelineStore.Get | server/controllers/timeline.controller.js:65-82 | No timeline gives "Timeline not found". Otherwise the answer is the stored window. |
| Timeline.TimelineStore.CheckDate | server/controllers/timeline.controller.js:84-105 | Applies to any stored window whose dates match the pattern, including one whose end precedes its start. Today is in the window exactly when start ≤ today ≤ end. Otherwise the answer reports before or after, and nothing changes. |
| Timeline.ReversedWindowRefusesEveryDay | server/controllers/timeline.controller.js:94-102 | A stored window whose end precedes its start refuses every day with a validation error. |
| Timeline.BothEndsInWindow | server/controllers/timeline.controller.js:94-102 | Both the start and the end day are inside the window. |
| UploadFilters.Extname | server/middlewares/multer.middleware.js:26 | The extension is either "" or a dot followed by characters containing no dot and no slash. |
| UploadFilters.ExtnameSuffix | server/middlewares/multer.middleware.js:26 | The extension is a suffix of the last path component. |
| UploadFilters.ExtnameOfName | server/middlewares/multer.middleware.js:26 | For "stem.ext" the extension is ".ext". |
| UploadFilters.LeadingDotOnly | server/middlewares/multer.middleware.js:26 | A name whose only dot is its first character, such as ".csv", has no extension. |
| UploadFilters.NoDotNoExtension | server/middlewares/multer.middleware.js:26 | A name without a dot has no extension. |
| UploadFilters.ExcelFilter | server/middlewares/multer.middleware.js:24-42 | The filter either accepts or refuses with the Excel message. |
| UploadFilters.PdfFilter | server/middlewares/multer.middleware.js:44-59 | The filter either accepts or refuses with the PDF message. |
| UploadFilters.ExcelFilterOnName | server/middlewares/multer.middleware.js:26-41 | The Excel filter accepts exactly when the lower-cased extension is .xlsx, .xls or .csv and the MIME type is one of the four listed. |
| UploadFilters.PdfFilterOnName | server/middlewares/multer.middleware.js:44-58 | The PDF filter accepts exactly when the lower-cased extension is .pdf and the MIME type is exactly application/pdf. |
| UploadFilters.ExtensionCaseIgnored | server/middlewares/multer.middleware.js:26 | Extensions differing only in letter case get the same decision from both filters. |
| UploadFilters.MimeTypeCaseSensitive | server/middlewares/multer.middleware.js:37 | The MIME type is compared exactly, so "TEXT/CSV" is refused. |
| UploadFilters.DotFileRefused | server/middlewares/multer.middleware.js:26 | A dot file such as ".csv" is refused by both filters, whatever its MIME type. |
| UploadFilters.NoDotRefused | server/middlewares/multer.middleware.js:26 | A name without a dot is refused by both filters. |
| LogTail.Split | app.js:57 | Splitting gives at least one piece, and no piece contains a newline. |
| LogTail.JoinSplit | app.js:57-58 | Joining the pieces of a split with "\n" gives back the original string. |
| LogTail.SplitJoin | app.js:57-58 | Splitting newline-free lines joined with "\n" gives back the lines. |
| LogTail.LastLines | app.js:58 | The result is the last 100 lines, or all of them when there are fewer. |
| LogTail.Tail | app.js:57-58 | The tail has at most 100 lines, and they are the last lines of the trimmed log. The tail is a suffix of the trimmed log, and equals it when the log has at most 100 lines. |
| LogTail.LogsRoute | app.js:48-63 | A read failure gives "Error reading log file" (status 500). Otherwise the answer is exactly `Tail` of the text read, which has at most 100 lines. |

## Left out

- HTTP routing and response shaping are not modelled: the route files, the response helpers and Express set-up. Only the error kind and the message are kept. The response helpers are not part of this model, so the text of server errors that come from exceptions is not modelled.
- bcrypt, jwt, random password and OTP generation, mail delivery and S3 are I/O or foreign libraries. They appear as parameters, as listed above. The shape and expiry of the OTP document are not modelled, because the OTP model is not part of this model.
- The database connection, log files, morgan, multer disk storage, the upload directory and the clock are not modelled. Today's date is a parameter.
- Values in requests are strings or missing. Non-string JSON values, and the TypeError paths they would open (a number given for `tableName`, say), are not modelled.
- DynamicSchema.ProbeAcceptance and DynamicSchema.Database.CreateSchema: Mongoose type casting of dynamic fields is not modelled, such as a Number path given a non-numeric string. A dynamic record is refused only by `required` and `unique`. So a table that declares `Name` as Number refuses the probe's `Name: "Kunal"` in the source (dynamicSchema.controller.js:53-58), but the model accepts it.
- DynamicSchema.Database.CreateSchema and DynamicSchema.Database.CreateDocument: names that collide with `Object.prototype` keys are not modelled. This covers both field names and table names. In the source, `mongoose.models["constructor"]` is truthy. So `createSchema` answers "Model already exists" for a table named "constructor", and `createDocument` calls `create` on whatever that key holds. The model treats such a name as unregistered.
- DynamicSchema.Database.CreateDocument: `data` is one record or missing. In the source, `Model.create` given an array inserts every element, and given `[]` it succeeds with nothing inserted. Array `data` is not modelled.
- UserAccounts.UserStore, ModeratorAccounts.ModeratorStore, SuperAdminAccounts.SuperAdminStore and Timeline.TimelineStore: each store's state is separate from `DynamicSchema.Database.collections`. In the source, each store is the same collection as the application model of that name. A write by the as-written `createDocument` into "User", "Moderator", "SuperAdmin" or "Timeline" is therefore not seen by the stores here. For `Timeline`, such a write can store a window whose end precedes its start, which every later `checkDateInTimeline` refuses (`Timeline.ReversedWindowRefusesEveryDay`). It can also add a second timeline beside the one `createTimeline` keeps, and `findOne()` then answers with whichever the database returns first. For `SuperAdmin`, the login of a forged record is likewise not connected to its insert.
- DynamicSchema.Database.constructor: the source also registers the OTP model in `mongoose.models`, through the import of server/models/otp.model.js in the user and moderator controllers. That file is not part of this model, so the registry here lacks it and `createDocument` answers "Model not found" for "OTP". In the source, a department could insert OTP records the same way it inserts into `SuperAdmin`. A forged code for an account's email would then let `verifyOTP` issue that account's token.
- Asynchronous index builds are not modelled. The unique index is treated as in force from the first insert.
- Collection-name pluralisation is not modelled: a table's records are kept under its model name.
- Mongoose 7 or later is assumed. Under it, an absent field is left out of an update, and `strictQuery` is false by default, so the tally's filter on `submittedBy`, `submitted` and `status` is applied to dynamic tables that do not declare those paths. Under Mongoose 6, such a filter would be stripped. An explicit `null` in an update body is not modelled.
- DynamicSchema.Stored and DynamicSchema.Database.CreateDocument: the fields Mongoose generates are not part of the stored record. These are `_id`, `__v`, and the `createdAt`/`updatedAt` timestamps that `timestamps: true` adds (dynamicSchema.controller.js:45-47 and the application schemas). Schema defaults such as `profileImage` and `status` are not filled in either.
- DynamicSchema.Database.CreateDocument: for an application model, only strict mode, `required` and the unique indexes are applied. The `match`, `minlength` and `enum` validators, the `trim` setters and the super-admin pre-save hash are not applied to a record inserted this way. The model therefore accepts some records that the source refuses, such as a super-admin with a badly formed phone number.
- `Promise.all` interleavings in the tally are not modelled. Each table only adds to the counters, so the loop visits the tables in order.
- DepartmentTally.CountDocuments: the list of table names is a parameter. The schema-metadata collection it is read from is not part of this model.
- The "ID is required" branches of getDepartmentById, updateUserDetails, deleteUser, deleteModerator and updateModerator are not modelled. A route parameter is always present, so they cannot be reached.
- The read-only listings getUserProfile, getAllDepartments, getAllDepartmentsByModerator, getAllModerators, profile and getSuperAdminProfile are not modelled. Each is a lookup with no decision.
- The review workflow handlers that the routes import are not modelled, because they are not defined in the controllers: verifyDocumentByModerator, verifyDocumentBySuperAdmin, bulkUpload, editDocument, finalSubmission, verifyUser, verifyModerator and verifyLogin.
- Multer invocation is not modelled. The filters are handed to multer under the keys `excelFileFilter` and `pdfFileFilter` rather than `fileFilter`, so multer never calls them. They are modelled as predicates, as written.
- Common.Lower and DepartmentTally.LookupKey: `toLowerCase` is modelled on ASCII only. For the upload filters this does not matter, because membership in the extension lists is the same under full Unicode lower-casing. DepartmentTally.LookupKey does depend on it. Take a table registered under a name with a non-ASCII upper-case letter, such as "É" or "Σ". The model finds it under its own name and counts it, while the source's lower-cased key misses it.
- Timeline.TimelineStore.Create and Timeline.TimelineStore.CheckDate: JavaScript `Date` parsing is not modelled. Dates are compared as (year, month, day) triples, so an impossible date such as 2024-02-31 is kept as written and not rolled over into March. With start "2024-02-31" and end "2024-03-01", the source refuses, because the start becomes 2 March. The model accepts.
- UserAccounts.UserStore.CreateUser and ModeratorAccounts.ModeratorStore.CreateModerator: a failed mail is reported as a server error after the account has been stored, as in the handlers. The message of that error is a placeholder.
- A Mongoose array path that is `required` accepts an empty array. The non-empty check on department and college is the handler's own.
- The `name`, `college` and `status` values that the department handlers pass have no path in the user schema. The model drops them, as strict mode does.

## Findings

| source | as written | input that shows it | evidently intended | confidence | as-written member | corrected member |
|---|---|---|---|---|---|---|
| server/controllers/moderator.controller.js:146 | `updatePassword` sets the moderator status to "verified", but the status enum at server/models/moderator.model.js:66 lists only "pending" and "approved", so the save fails validation and the password is never changed | any existing moderator and any new password | "verified" is an allowed status, and the update stores the new hash with `tempPassword` "" | not executed | ModeratorAccounts.ModeratorStore.UpdatePasswordAsWritten | ModeratorAccounts.ModeratorStore.UpdatePassword |
| server/controllers/document.controller.js:21-27 | `createDocument` looks the name up in `mongoose.models`, which also holds the application's own models. Its route (server/routes/document.routes.js:27) needs only a department's token. A department can therefore insert a record into `SuperAdmin`; the pre-save hook hashes its password, and that record can then log in as a super-admin | a department token and the body `{tableName: "SuperAdmin", data: {name: "Eve", email: "eve@example.com", phone: "0123456789", password: "longpassword"}}` (`ForgedAdmin`) | only tables compiled by `createSchema` accept records through this handler | not executed; the login step relies on the super-admin model's hook and handler, which this insert path does not model | DynamicSchema.DepartmentCreatesSuperAdmin | DynamicSchema.Database.CreateTableDocument |
