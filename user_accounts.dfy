/**
 * The department accounts and the handlers of server/controllers/user.controller.js
 * that read or change them. The `User` collection is a map from document id
 * to record; its unique index on `email` is the store invariant.
 *
 * Lookups by email go through the `trim` setter of the email path, so the
 * request's email is trimmed before it is compared with stored emails.
 * The hash bcrypt computes, the OTP code, the signed token and the success of
 * the mail delivery are parameters.
 */
module UserAccounts {
  import opened Common
  import opened FieldValidators
  import opened UserModel
  import opened Credentials
  import opened DynamicSchema
  import opened DepartmentTally

  /** The unique index on `email`: no two accounts share one. */
  predicate UniqueEmails(m: map<nat, UserRecord>) {
    forall a, b :: a in m && b in m && m[a].email == m[b].email ==> a == b
  }

  /** Replacing one account by a record whose email no other account holds keeps the index unique. */
  lemma ReplaceKeepsUnique(m: map<nat, UserRecord>, id: nat, u: UserRecord)
    requires UniqueEmails(m) && id in m
    requires !exists other :: other in m && other != id && m[other].email == u.email
    ensures UniqueEmails(m[id := u])
  {
  }

  predicate HasEmail(m: map<nat, UserRecord>, email: string) {
    exists id :: id in m && m[id].email == email
  }

  /** What `getDepartmentById` answers with: the record without its passwords, and its counters. */
  datatype DepartmentView = DepartmentView(user: UserRecord, counts: Counts)

  /** The record as `.select("-password -tempPassword")` returns it. */
  function WithoutPasswords(u: UserRecord): (r: UserRecord)
    ensures r.password.None? && r.tempPassword.None?
    ensures r.(password := u.password, tempPassword := u.tempPassword) == u
  {
    u.(password := None, tempPassword := None)
  }

  /** The record after `findByIdAndUpdate`: each given field trimmed; `name` and `college` have no path. */
  function ApplyDetails(u: UserRecord, email: Field, phone: Field, department: Field): (r: UserRecord)
    ensures r.password == u.password && r.tempPassword == u.tempPassword && r.profileImage == u.profileImage
    ensures r.email == (if email.Some? then Trim(email.value) else u.email)
    ensures r.phone == (if phone.Some? then Trim(phone.value) else u.phone)
    ensures r.department == (if department.Some? then Trim(department.value) else u.department)
  {
    UserRecord(
      if email.Some? then Trim(email.value) else u.email,
      if phone.Some? then Trim(phone.value) else u.phone,
      u.password, u.profileImage,
      if department.Some? then Trim(department.value) else u.department,
      u.tempPassword)
  }

  class UserStore {
    var users: map<nat, UserRecord>
    var nextId: nat

    predicate Valid()
      reads this
    {
      (forall id :: id in users ==> id < nextId) && UniqueEmails(users)
    }

    constructor ()
      ensures Valid() && users == map[]
    {
      users := map[];
      nextId := 0;
    }

    /** `User.findOne({ email })`: the account whose stored email is the trimmed query, if any. */
    method FindByEmail(email: string) returns (found: Option<nat>)
      requires Valid()
      ensures found.None? <==> !HasEmail(users, Trim(email))
      ensures found.Some? ==> found.value in users && users[found.value].email == Trim(email)
    {
      var key := Trim(email);
      if HasEmail(users, key) {
        var id :| id in users && users[id].email == key;
        return Some(id);
      }
      return None;
    }

    /**
     * `createUser`: all five fields must be truthy, the email must be free,
     * the new record must pass the schema validators. The account is stored
     * before the credentials are mailed, so a failed delivery reports a
     * server error with the account already created.
     */
    method CreateUser(name: Field, email: Field, phone: Field, department: Field, college: Field,
                      hashedTempPassword: string, mailSent: bool) returns (r: Outcome<UserRecord>)
      requires Valid()
      modifies this
      ensures Valid()
      ensures !(Truthy(name) && Truthy(email) && Truthy(phone) && Truthy(department) && Truthy(college))
              ==> r == Fail(ValidationError, "Please fill all the fields") && users == old(users)
      ensures Truthy(name) && Truthy(email) && Truthy(phone) && Truthy(department) && Truthy(college) ==>
        if HasEmail(old(users), Trim(email.value)) then
          r == Fail(Conflict, "User already exists") && users == old(users)
        else
          var u := NewUser(email.value, phone.value, department.value, hashedTempPassword);
          if !UserValid(u) then r == Fail(ServerError, SaveRejected) && users == old(users)
          else
            && users == old(users)[old(nextId) := u] && old(nextId) !in old(users)
            && r == (if mailSent then Ok(u) else Fail(ServerError, MailFailed))
    {
      if !(Truthy(name) && Truthy(email) && Truthy(phone) && Truthy(department) && Truthy(college)) {
        return Fail(ValidationError, "Please fill all the fields");
      }
      var existing := FindByEmail(email.value);
      if existing.Some? {
        return Fail(Conflict, "User already exists");
      }
      var u := NewUser(email.value, phone.value, department.value, hashedTempPassword);
      if !UserValid(u) {
        return Fail(ServerError, SaveRejected);
      }
      Add(u);
      if !mailSent {
        return Fail(ServerError, MailFailed);
      }
      return Ok(u);
    }

    /** `User.create` of a record whose email is free: it is stored under a new id. */
    method Add(u: UserRecord)
      requires Valid() && !HasEmail(users, u.email)
      modifies this
      ensures Valid()
      ensures users == old(users)[old(nextId) := u] && old(nextId) !in old(users)
    {
      users := users[nextId := u];
      nextId := nextId + 1;
    }

    /**
     * `loginUser`: both fields must be truthy and the email known; then the
     * password check of the account decides, and a success carries the token
     * signed for the account.
     */
    method Login(email: Field, password: Field, matches: (string, string) -> bool,
                 sign: (nat, string) -> string) returns (r: Outcome<LoginGrant>)
      requires Valid()
      ensures !Truthy(email) || !Truthy(password) <==> r == Fail(ValidationError, "Please fill all the fields")
      ensures Truthy(email) && Truthy(password) && !HasEmail(users, Trim(email.value))
              ==> r == Fail(ValidationError, "User not found")
      ensures forall id :: Truthy(email) && Truthy(password) && id in users && users[id].email == Trim(email.value) ==>
        r == match CheckPassword(users[id].password, users[id].tempPassword, password.value, matches)
               case Ok(change) => Ok(LoginGrant(sign(id, users[id].email), change))
               case Fail(k, m) => Fail(k, m)
    {
      if !Truthy(email) || !Truthy(password) {
        return Fail(ValidationError, "Please fill all the fields");
      }
      var found := FindByEmail(email.value);
      if found.None? {
        return Fail(ValidationError, "User not found");
      }
      var id := found.value;
      var u := users[id];
      var check := CheckPassword(u.password, u.tempPassword, password.value, matches);
      if check.Fail? {
        return Fail(check.kind, check.message);
      }
      return Ok(LoginGrant(sign(id, u.email), check.value));
    }

    /**
     * `updatePassword` on the signed-in account: the new hash replaces the
     * password and `tempPassword` becomes "". The user schema has no `status`
     * path, so the status the handler sets is not stored. The save validates
     * the whole record, so an account whose details were updated into an
     * invalid state cannot change its password.
     */
    method UpdatePassword(id: nat, password: Field, hashed: string) returns (r: Outcome<()>)
      requires Valid() && id in users
      modifies this
      ensures Valid()
      ensures password.None? ==> r == Fail(ServerError, BcryptMissingHash) && users == old(users)
      ensures password.Some? && !UserValid(old(users)[id]) ==> r == Fail(ServerError, SaveRejected) && users == old(users)
      ensures password.Some? && UserValid(old(users)[id]) ==>
        r == Ok(()) && users == old(users)[id := old(users)[id].(password := Some(Trim(hashed)), tempPassword := Some(""))]
    {
      if password.None? {
        return Fail(ServerError, BcryptMissingHash);
      }
      var u := users[id];
      if !UserValid(u) {
        return Fail(ServerError, SaveRejected);
      }
      users := users[id := u.(password := Some(Trim(hashed)), tempPassword := Some(""))];
      return Ok(());
    }

    /**
     * `generateOTP`: for a known email, any earlier code of that email is
     * replaced by the new one, which is mailed after it is stored.
     */
    method GenerateOtp(email: Field, otp: string, mailSent: bool, otps: OtpStore) returns (r: Outcome<OtpDoc>)
      requires Valid()
      modifies otps
      ensures !Truthy(email) ==> r == Fail(ValidationError, "Email is required") && otps.codes == old(otps.codes)
      ensures Truthy(email) && !HasEmail(users, Trim(email.value)) ==>
        r == Fail(ValidationError, "Department not found with this email") && otps.codes == old(otps.codes)
      ensures Truthy(email) && HasEmail(users, Trim(email.value)) ==>
        && otps.codes == old(otps.codes)[email.value := otp]
        && r == (if mailSent then Ok(OtpDoc(email.value, otp)) else Fail(ServerError, MailFailed))
    {
      if !Truthy(email) {
        return Fail(ValidationError, "Email is required");
      }
      var found := FindByEmail(email.value);
      if found.None? {
        return Fail(ValidationError, "Department not found with this email");
      }
      otps.Replace(email.value, otp);
      if !mailSent {
        return Fail(ServerError, MailFailed);
      }
      return Ok(OtpDoc(email.value, otp));
    }

    /**
     * `verifyOTP`: the stored code of the email must equal the given one and
     * the email must belong to an account; only then is the code deleted and
     * a token returned. Every refusal leaves the codes as they were.
     */
    method VerifyOtp(email: Field, otp: Field, sign: (nat, string) -> string, otps: OtpStore) returns (r: Outcome<string>)
      requires Valid()
      modifies otps
      ensures r.Fail? ==> otps.codes == old(otps.codes)
      ensures !Truthy(email) || !Truthy(otp) <==> r == Fail(ValidationError, "Email and OTP are required")
      ensures Truthy(email) && Truthy(otp) && email.value !in old(otps.codes) ==>
        r == Fail(Unauthorized, "Your OTP has expired. Please request a new one")
      ensures Truthy(email) && Truthy(otp) && email.value in old(otps.codes) && old(otps.codes)[email.value] != otp.value ==>
        r == Fail(Unauthorized, "Invalid OTP")
      ensures Truthy(email) && Truthy(otp) && email.value in old(otps.codes) && old(otps.codes)[email.value] == otp.value ==>
        if !HasEmail(users, Trim(email.value)) then r == Fail(ValidationError, "Department not found with this email")
        else
          && otps.codes == old(otps.codes) - {email.value}
          && forall id :: id in users && users[id].email == Trim(email.value) ==> r == Ok(sign(id, users[id].email))
    {
      if !Truthy(email) || !Truthy(otp) {
        return Fail(ValidationError, "Email and OTP are required");
      }
      var codes := otps.codes;
      if email.value !in codes {
        return Fail(Unauthorized, "Your OTP has expired. Please request a new one");
      }
      if codes[email.value] != otp.value {
        return Fail(Unauthorized, "Invalid OTP");
      }
      var found := FindByEmail(email.value);
      if found.None? {
        return Fail(ValidationError, "Department not found with this email");
      }
      var token := sign(found.value, users[found.value].email);
      otps.Consume(email.value);
      return Ok(token);
    }

    /**
     * `getDepartmentById`: an unknown id ends in a server error (the handler
     * reads fields of the missing record); a moderator may only see the
     * departments it is assigned to; otherwise the record, without its
     * passwords, comes with its tally over the listed tables.
     */
    method GetDepartment(id: nat, moderatorDepartments: Option<seq<string>>, db: Database,
                         tableNames: seq<string>) returns (r: Outcome<DepartmentView>)
      requires Valid() && db.Valid()
      ensures id !in users ==> r.Fail? && r.kind == ServerError
      ensures id in users && moderatorDepartments.Some? && users[id].department !in moderatorDepartments.value ==>
        r == Fail(Unauthorized, "You are not authorized to view this user")
      ensures id in users && (moderatorDepartments.None? || users[id].department in moderatorDepartments.value) ==>
        r == Ok(DepartmentView(WithoutPasswords(users[id]), Tally(db.tables, db.collections, tableNames, id)))
    {
      if id !in users {
        return Fail(ServerError, "Cannot read properties of null");
      }
      var u := WithoutPasswords(users[id]);
      if moderatorDepartments.Some? && u.department !in moderatorDepartments.value {
        return Fail(Unauthorized, "You are not authorized to view this user");
      }
      var c := CountDocuments(db, id, tableNames);
      return Ok(DepartmentView(u, c));
    }

    /**
     * `updateUserDetails`: the update runs no schema validator (the option it
     * passes is not a query option), so only the unique index can refuse it.
     * An unknown id is not an error: the answer is a success with no record.
     */
    method UpdateDetails(id: nat, name: Field, email: Field, phone: Field, department: Field, college: Field)
      returns (r: Outcome<Option<UserRecord>>)
      requires Valid()
      modifies this
      ensures Valid()
      ensures id !in old(users) ==> r == Ok(None) && users == old(users)
      ensures id in old(users) ==>
        var u := ApplyDetails(old(users)[id], email, phone, department);
        if exists other :: other in old(users) && other != id && old(users)[other].email == u.email then
          r == Fail(ServerError, DuplicateKey) && users == old(users)
        else
          r == Ok(Some(u)) && users == old(users)[id := u]
    {
      if id !in users {
        return Ok(None);
      }
      var u := ApplyDetails(users[id], email, phone, department);
      if exists other :: other in users && other != id && users[other].email == u.email {
        return Fail(ServerError, DuplicateKey);
      }
      ReplaceKeepsUnique(users, id, u);
      users := users[id := u];
      return Ok(Some(u));
    }

    /** `deleteUser`: removes the account if there is one; the answer is a success either way. */
    method Delete(id: nat)
      requires Valid()
      modifies this
      ensures Valid()
      ensures users == old(users) - {id} && nextId == old(nextId)
    {
      users := users - {id};
    }
  }

  /** After `updatePassword`, a login with the new password takes the permanent branch and asks for no change. */
  method LoginAfterPasswordUpdate(store: UserStore, id: nat, newPassword: string, hashed: string,
                                  matches: (string, string) -> bool, sign: (nat, string) -> string)
    returns (update: Outcome<()>, login: Outcome<LoginGrant>)
    requires store.Valid() && id in store.users && UserValid(store.users[id])
    requires newPassword != "" && matches(newPassword, Trim(hashed))
    modifies store
    ensures update == Ok(())
    ensures login == Ok(LoginGrant(sign(id, old(store.users[id].email)), false))
  {
    update := store.UpdatePassword(id, Some(newPassword), hashed);
    var email := store.users[id].email;
    ValidEmailShape(email);
    login := store.Login(Some(email), Some(newPassword), matches, sign);
  }

  /** A code just generated for an account is accepted once and then gone. */
  method OtpRoundTrip(store: UserStore, otps: OtpStore, email: string, otp: string,
                      sign: (nat, string) -> string) returns (generated: Outcome<OtpDoc>, verified: Outcome<string>)
    requires store.Valid() && email != "" && otp != "" && HasEmail(store.users, Trim(email))
    modifies otps
    ensures generated == Ok(OtpDoc(email, otp))
    ensures verified.Ok? && email !in otps.codes
    ensures otps.codes == old(otps.codes) - {email}
  {
    generated := store.GenerateOtp(Some(email), otp, true, otps);
    verified := store.VerifyOtp(Some(email), Some(otp), sign, otps);
  }
}
