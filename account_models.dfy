/**
 * The three account schemas (server/models/user.model.js,
 * server/models/moderator.model.js, server/models/superAdmin.model.js): the
 * record each stores, what a new record holds once the `trim` setters and the
 * defaults have run, and the validators a save checks.
 */
module UserModel {
  import opened Common
  import opened FieldValidators

  /**
   * A stored department account. The schema declares no `name`, `college` or
   * `status` path, so the values the handlers pass for them are dropped.
   */
  datatype UserRecord = UserRecord(
    email: string,
    phone: string,
    password: Option<string>,
    profileImage: string,
    department: string,
    tempPassword: Option<string>)

  /** The record `User.create` builds from the request values: trimmed, with the default image. */
  function NewUser(email: string, phone: string, department: string, tempPassword: string): UserRecord {
    UserRecord(Trim(email), Trim(phone), None, DefaultProfileImage, Trim(department), Some(tempPassword))
  }

  /** The user schema's validators: email and phone required and matching, department required. */
  predicate UserValid(u: UserRecord) {
    RequiredString(u.email) && IsEmail(u.email)
    && RequiredString(u.phone) && IsPhone(u.phone)
    && RequiredString(u.department)
  }

  /**
   * A new user passes validation exactly when the trimmed email matches the
   * email pattern, the trimmed phone is ten digits and the trimmed department
   * is not empty.
   */
  lemma NewUserValidation(email: string, phone: string, department: string, tempPassword: string)
    ensures UserValid(NewUser(email, phone, department, tempPassword))
        <==> EmailPattern(Trim(email)) && IsPhone(Trim(phone)) && Trim(department) != ""
  {
    EmailScanMatchesPattern(Trim(email));
    if IsEmail(Trim(email)) {
      ValidEmailShape(Trim(email));
    }
  }
}

module ModeratorModel {
  import opened Common
  import opened FieldValidators

  datatype ModeratorRecord = ModeratorRecord(
    name: string,
    email: string,
    phone: string,
    profileImage: string,
    department: seq<string>,
    college: seq<string>,
    password: Option<string>,
    tempPassword: Option<string>,
    pendingRequestCount: int,
    acceptedRequestCount: int,
    rejectedRequestCount: int,
    status: string)

  /** The `enum` of every `college` entry. */
  predicate IsCollege(c: string) {
    c == "IEMN" || c == "IEMS" || c == "UEMJ"
  }

  /** Every entry of a `college` list is in the enum. */
  predicate AllColleges(cs: seq<string>) {
    forall i :: 0 <= i < |cs| ==> IsCollege(cs[i])
  }

  /** The `enum` of `status` as the schema declares it. */
  predicate StatusInSchema(s: string) {
    s == "pending" || s == "approved"
  }

  /** The status enum with the value `updatePassword` writes, which the schema evidently meant to allow. */
  predicate StatusCorrected(s: string) {
    StatusInSchema(s) || s == "verified"
  }

  function TrimAll(xs: seq<string>): (r: seq<string>)
    ensures |r| == |xs| && forall i :: 0 <= i < |xs| ==> r[i] == Trim(xs[i])
  {
    if xs == [] then [] else [Trim(xs[0])] + TrimAll(xs[1..])
  }

  /**
   * The record `Moderator.create` builds: trimmed values, zero counters,
   * status "pending", the default image. `department` is kept as given: its
   * `trim` option sits on the array path, and an array path has no trim
   * setter, whereas `college` declares `trim` on its element type.
   */
  function NewModerator(name: string, email: string, phone: string, department: seq<string>,
                        college: seq<string>, tempPassword: string): ModeratorRecord
  {
    ModeratorRecord(Trim(name), Trim(email), Trim(phone), DefaultProfileImage, department,
                    TrimAll(college), None, Some(tempPassword), 0, 0, 0, "pending")
  }

  /** Every path validator except the status enum. */
  predicate PathsValid(m: ModeratorRecord) {
    RequiredString(m.name)
    && RequiredString(m.email) && IsEmail(m.email)
    && RequiredString(m.phone) && IsPhone(m.phone)
    && AllColleges(m.college)
  }

  /** The moderator schema's validators as declared. */
  predicate ModeratorValid(m: ModeratorRecord) {
    PathsValid(m) && StatusInSchema(m.status)
  }

  /** The validators with the corrected status enum, which the stores keep. */
  predicate ModeratorValidCorrected(m: ModeratorRecord) {
    PathsValid(m) && StatusCorrected(m.status)
  }

  /**
   * A new moderator passes validation exactly when the trimmed name is not
   * empty, the email and phone match and every trimmed college is IEMN, IEMS
   * or UEMJ; since it starts "pending", the corrected enum changes nothing for it.
   */
  lemma NewModeratorValidation(name: string, email: string, phone: string, department: seq<string>,
                               college: seq<string>, tempPassword: string)
    ensures var m := NewModerator(name, email, phone, department, college, tempPassword);
      && (ModeratorValid(m) <==> ModeratorValidCorrected(m))
      && (ModeratorValid(m) <==>
            Trim(name) != "" && EmailPattern(Trim(email)) && IsPhone(Trim(phone))
            && AllColleges(TrimAll(college)))
  {
    var m := NewModerator(name, email, phone, department, college, tempPassword);
    PathsValidMeaning(m);
  }

  /** The path validators in terms of the email pattern itself. */
  lemma PathsValidMeaning(m: ModeratorRecord)
    ensures PathsValid(m) <==>
      m.name != "" && EmailPattern(m.email) && IsPhone(m.phone)
      && AllColleges(m.college)
  {
    EmailScanMatchesPattern(m.email);
    if IsEmail(m.email) {
      ValidEmailShape(m.email);
    }
  }

  /** The schema's own enum refuses "verified". */
  lemma VerifiedNotInSchema()
    ensures !StatusInSchema("verified") && StatusCorrected("verified")
  {
  }
}

module SuperAdminModel {
  import opened Common
  import opened FieldValidators

  datatype SuperAdminRecord = SuperAdminRecord(
    name: string,
    email: string,
    address: string,
    phone: string,
    password: string,
    profileImage: string)

  const MinPasswordLength := 8

  /** The record `SuperAdmin.create` builds before its save hook runs: trimmed, with the default image. */
  function NewSuperAdmin(name: string, email: string, address: string, phone: string, password: string): SuperAdminRecord {
    SuperAdminRecord(Trim(name), Trim(email), Trim(address), Trim(phone), Trim(password), DefaultProfileImage)
  }

  /** The super-admin validators: name, email, phone and password required; password at least 8 characters. */
  predicate SuperAdminValid(a: SuperAdminRecord) {
    RequiredString(a.name)
    && RequiredString(a.email) && IsEmail(a.email)
    && RequiredString(a.phone) && IsPhone(a.phone)
    && RequiredString(a.password) && |a.password| >= MinPasswordLength
  }

  /**
   * The pre-save hook: replaces the password by its hash only when the
   * password path was modified; `hashed` is what bcrypt returns for it.
   */
  function PreSave(a: SuperAdminRecord, passwordModified: bool, hashed: string): (r: SuperAdminRecord)
    ensures r.(password := a.password) == a
    ensures r.password == a.password <==> !passwordModified || hashed == a.password
    ensures passwordModified ==> r.password == hashed
    ensures !passwordModified ==> r == a
  {
    if passwordModified then a.(password := hashed) else a
  }

  /** Saving an unchanged record again leaves it as it is: the stored hash is never hashed a second time. */
  lemma ResaveDoesNotRehash(a: SuperAdminRecord, hashed: string, hashedAgain: string)
    ensures PreSave(PreSave(a, true, hashed), false, hashedAgain) == PreSave(a, true, hashed)
    ensures PreSave(PreSave(a, true, hashed), false, hashedAgain).password == hashed
  {
  }

  /** A password whose trimmed form is shorter than eight characters is refused. */
  lemma ShortPasswordRefused(name: string, email: string, address: string, phone: string, password: string)
    requires |Trim(password)| < MinPasswordLength
    ensures !SuperAdminValid(NewSuperAdmin(name, email, address, phone, password))
  {
  }
}
