/**
 * The moderator accounts and the handlers of
 * server/controllers/moderator.controller.js. The `Moderator` collection is a
 * map from document id to record. Its unique index on `email`, and the schema
 * validators every stored record passed, are the store invariant.
 *
 * `updatePassword` writes the status "verified", which the status enum of the
 * schema does not list. `UpdatePasswordAsWritten` shows the consequence; the
 * store itself keeps the enum widened by that value (`ModeratorValidCorrected`),
 * which is what `UpdatePassword` relies on.
 */
module ModeratorAccounts {
  import opened Common
  import opened FieldValidators
  import opened ModeratorModel
  import opened Credentials

  /**
   * A request-body field that should hold an array: absent or falsy, a truthy
   * value that is not an array, or an array (always truthy, even when empty).
   */
  datatype ListField = Absent | Scalar | List(items: seq<string>)

  /** The unique index on `email`: no two moderators share one. */
  predicate UniqueEmails(m: map<nat, ModeratorRecord>) {
    forall a, b :: a in m && b in m && m[a].email == m[b].email ==> a == b
  }

  predicate HasEmail(m: map<nat, ModeratorRecord>, email: string) {
    exists id :: id in m && m[id].email == email
  }

  /**
   * The record after `findByIdAndUpdate` of the five editable paths. Each
   * given value is trimmed by its setter, except `department`, whose array
   * path has no trim setter.
   */
  function ApplyUpdate(m: ModeratorRecord, name: Field, email: Field, phone: Field,
                       department: Option<seq<string>>, college: Option<seq<string>>): (r: ModeratorRecord)
    ensures r.(name := m.name, email := m.email, phone := m.phone, department := m.department, college := m.college) == m
    ensures r.name == (if name.Some? then Trim(name.value) else m.name)
    ensures r.email == (if email.Some? then Trim(email.value) else m.email)
    ensures r.phone == (if phone.Some? then Trim(phone.value) else m.phone)
    ensures r.department == (if department.Some? then department.value else m.department)
    ensures r.college == (if college.Some? then TrimAll(college.value) else m.college)
  {
    m.(name := if name.Some? then Trim(name.value) else m.name,
       email := if email.Some? then Trim(email.value) else m.email,
       phone := if phone.Some? then Trim(phone.value) else m.phone,
       department := if department.Some? then department.value else m.department,
       college := if college.Some? then TrimAll(college.value) else m.college)
  }

  /**
   * `runValidators` on an update checks the validators of the updated paths
   * only: the required name, the email and phone patterns and the college enum.
   */
  predicate UpdateValid(name: Field, email: Field, phone: Field, college: Option<seq<string>>) {
    && (name.Some? ==> RequiredString(Trim(name.value)))
    && (email.Some? ==> RequiredString(Trim(email.value)) && IsEmail(Trim(email.value)))
    && (phone.Some? ==> RequiredString(Trim(phone.value)) && IsPhone(Trim(phone.value)))
    && (college.Some? ==> AllColleges(TrimAll(college.value)))
  }

  /**
   * On a valid record, validating only the updated paths is the same as
   * validating the whole updated record, so updates keep every stored
   * moderator valid.
   */
  lemma UpdateValidMeansRecordValid(m: ModeratorRecord, name: Field, email: Field, phone: Field,
                                    department: Option<seq<string>>, college: Option<seq<string>>)
    requires ModeratorValidCorrected(m)
    ensures UpdateValid(name, email, phone, college)
        <==> ModeratorValidCorrected(ApplyUpdate(m, name, email, phone, department, college))
  {
    var r := ApplyUpdate(m, name, email, phone, department, college);
    assert RequiredString(r.name) <==> (name.Some? ==> RequiredString(Trim(name.value)));
    assert RequiredString(r.email) && IsEmail(r.email)
       <==> (email.Some? ==> RequiredString(Trim(email.value)) && IsEmail(Trim(email.value)));
    assert RequiredString(r.phone) && IsPhone(r.phone)
       <==> (phone.Some? ==> RequiredString(Trim(phone.value)) && IsPhone(Trim(phone.value)));
    assert StatusCorrected(r.status);
  }

  /** The record `updatePassword` saves: new hash, `tempPassword` "", status "verified". */
  function PasswordUpdated(m: ModeratorRecord, hashed: string): (r: ModeratorRecord)
    ensures r.password == Some(Trim(hashed)) && r.tempPassword == Some("") && r.status == "verified"
    ensures r.(password := m.password, tempPassword := m.tempPassword, status := m.status) == m
  {
    m.(password := Some(Trim(hashed)), tempPassword := Some(""), status := "verified")
  }

  /** Whatever the record, the schema as declared refuses the one `updatePassword` saves. */
  lemma PasswordUpdateAlwaysRefused(m: ModeratorRecord, hashed: string)
    ensures !ModeratorValid(PasswordUpdated(m, hashed))
  {
    VerifiedNotInSchema();
  }

  /** With the widened enum, the saved record is valid whenever the stored one was. */
  lemma PasswordUpdateAcceptedCorrected(m: ModeratorRecord, hashed: string)
    requires ModeratorValidCorrected(m)
    ensures ModeratorValidCorrected(PasswordUpdated(m, hashed))
  {
  }

  class ModeratorStore {
    var moderators: map<nat, ModeratorRecord>
    var nextId: nat

    predicate Valid()
      reads this
    {
      && (forall id :: id in moderators ==> id < nextId)
      && UniqueEmails(moderators)
      && (forall id :: id in moderators ==> ModeratorValidCorrected(moderators[id]))
    }

    constructor ()
      ensures Valid() && moderators == map[]
    {
      moderators := map[];
      nextId := 0;
    }

    /** `Moderator.findOne({ email })`: the moderator whose stored email is the trimmed query, if any. */
    method FindByEmail(email: string) returns (found: Option<nat>)
      requires Valid()
      ensures found.None? <==> !HasEmail(moderators, Trim(email))
      ensures found.Some? ==> found.value in moderators && moderators[found.value].email == Trim(email)
    {
      var key := Trim(email);
      if HasEmail(moderators, key) {
        var id :| id in moderators && moderators[id].email == key;
        return Some(id);
      }
      return None;
    }

    /** `Moderator.create` of a valid record whose email is free: it is stored under a new id. */
    method Add(m: ModeratorRecord)
      requires Valid() && !HasEmail(moderators, m.email) && ModeratorValidCorrected(m)
      modifies this
      ensures Valid()
      ensures moderators == old(moderators)[old(nextId) := m] && old(nextId) !in old(moderators)
    {
      moderators := moderators[nextId := m];
      nextId := nextId + 1;
    }

    /**
     * `createModerator`: five truthy fields, then two non-empty arrays, then a
     * free email, then the schema validators; the moderator is stored before
     * the credentials are mailed.
     */
    method CreateModerator(name: Field, email: Field, phone: Field, department: ListField, college: ListField,
                           hashedTempPassword: string, mailSent: bool) returns (r: Outcome<ModeratorRecord>)
      requires Valid()
      modifies this
      ensures Valid()
      ensures r.Fail? && r.kind != ServerError ==> moderators == old(moderators)
      ensures !(Truthy(name) && Truthy(email) && Truthy(phone) && !department.Absent? && !college.Absent?)
              <==> r == Fail(ValidationError, "Please fill all the fields")
      ensures Truthy(name) && Truthy(email) && Truthy(phone) && !department.Absent? && !college.Absent? ==>
        (!(department.List? && department.items != [] && college.List? && college.items != [])
         <==> r == Fail(ValidationError, "Department and college must be an non-empty array"))
      ensures Truthy(name) && Truthy(email) && Truthy(phone)
              && department.List? && department.items != [] && college.List? && college.items != [] ==>
        if HasEmail(old(moderators), Trim(email.value)) then
          r == Fail(Conflict, "Moderator already exists") && moderators == old(moderators)
        else
          var m := NewModerator(name.value, email.value, phone.value, department.items, college.items, hashedTempPassword);
          if !ModeratorValid(m) then r == Fail(ServerError, SaveRejected) && moderators == old(moderators)
          else
            && moderators == old(moderators)[old(nextId) := m] && old(nextId) !in old(moderators)
            && r == (if mailSent then Ok(m) else Fail(ServerError, MailFailed))
    {
      if !(Truthy(name) && Truthy(email) && Truthy(phone) && !department.Absent? && !college.Absent?) {
        return Fail(ValidationError, "Please fill all the fields");
      }
      if !(department.List? && department.items != [] && college.List? && college.items != []) {
        return Fail(ValidationError, "Department and college must be an non-empty array");
      }
      var existing := FindByEmail(email.value);
      if existing.Some? {
        return Fail(Conflict, "Moderator already exists");
      }
      var m := NewModerator(name.value, email.value, phone.value, department.items, college.items, hashedTempPassword);
      if !ModeratorValid(m) {
        return Fail(ServerError, SaveRejected);
      }
      Add(m);
      if !mailSent {
        return Fail(ServerError, MailFailed);
      }
      return Ok(m);
    }

    /** `loginModerator`: the same two-branch check as for departments. */
    method Login(email: Field, password: Field, matches: (string, string) -> bool,
                 sign: (nat, string) -> string) returns (r: Outcome<LoginGrant>)
      requires Valid()
      ensures !Truthy(email) || !Truthy(password) <==> r == Fail(ValidationError, "Please fill all the fields")
      ensures Truthy(email) && Truthy(password) && !HasEmail(moderators, Trim(email.value))
              ==> r == Fail(ValidationError, "Moderator not found")
      ensures forall id :: Truthy(email) && Truthy(password) && id in moderators && moderators[id].email == Trim(email.value) ==>
        r == match CheckPassword(moderators[id].password, moderators[id].tempPassword, password.value, matches)
               case Ok(change) => Ok(LoginGrant(sign(id, moderators[id].email), change))
               case Fail(k, m) => Fail(k, m)
    {
      if !Truthy(email) || !Truthy(password) {
        return Fail(ValidationError, "Please fill all the fields");
      }
      var found := FindByEmail(email.value);
      if found.None? {
        return Fail(ValidationError, "Moderator not found");
      }
      var id := found.value;
      var m := moderators[id];
      var check := CheckPassword(m.password, m.tempPassword, password.value, matches);
      if check.Fail? {
        return Fail(check.kind, check.message);
      }
      return Ok(LoginGrant(sign(id, m.email), check.value));
    }

    /**
     * `updatePassword` as the handler and the schema are written: the save
     * validates the status enum, which refuses "verified", so the answer is
     * always a server error and nothing is stored.
     */
    method UpdatePasswordAsWritten(id: nat, password: Field, hashed: string) returns (r: Outcome<()>)
      requires Valid() && id in moderators
      ensures r.Fail? && r.kind == ServerError
    {
      if password.None? {
        return Fail(ServerError, BcryptMissingHash);
      }
      var m := PasswordUpdated(moderators[id], hashed);
      PasswordUpdateAlwaysRefused(moderators[id], hashed);
      r := if ModeratorValid(m) then Ok(()) else Fail(ServerError, SaveRejected);
    }

    /**
     * `updatePassword` with the status enum that admits "verified": the new
     * hash replaces the password, `tempPassword` becomes "" and the status
     * "verified"; nothing else changes.
     */
    method UpdatePassword(id: nat, password: Field, hashed: string) returns (r: Outcome<()>)
      requires Valid() && id in moderators
      modifies this
      ensures Valid()
      ensures password.None? ==> r == Fail(ServerError, BcryptMissingHash) && moderators == old(moderators)
      ensures password.Some? ==> r == Ok(()) && moderators == old(moderators)[id := PasswordUpdated(old(moderators)[id], hashed)]
    {
      if password.None? {
        return Fail(ServerError, BcryptMissingHash);
      }
      var m := PasswordUpdated(moderators[id], hashed);
      PasswordUpdateAcceptedCorrected(moderators[id], hashed);
      moderators := moderators[id := m];
      return Ok(());
    }

    /** `deleteModerator`: an unknown id is not found; otherwise the moderator is removed. */
    method Delete(id: nat) returns (r: Outcome<()>)
      requires Valid()
      modifies this
      ensures Valid()
      ensures id !in old(moderators) ==> r == Fail(NotFound, "Moderator not found") && moderators == old(moderators)
      ensures id in old(moderators) ==> r == Ok(()) && moderators == old(moderators) - {id}
    {
      if id !in moderators {
        return Fail(NotFound, "Moderator not found");
      }
      moderators := moderators - {id};
      return Ok(());
    }

    /**
     * `updateModerator`: an unknown id is not found; the validators of the
     * updated paths and then the unique index can refuse the update;
     * otherwise only the five editable paths change.
     */
    method Update(id: nat, name: Field, email: Field, phone: Field,
                  department: Option<seq<string>>, college: Option<seq<string>>) returns (r: Outcome<ModeratorRecord>)
      requires Valid()
      modifies this
      ensures Valid()
      ensures r.Fail? ==> moderators == old(moderators)
      ensures id !in old(moderators) <==> r == Fail(NotFound, "Moderator not found")
      ensures id in old(moderators) ==>
        var m := ApplyUpdate(old(moderators)[id], name, email, phone, department, college);
        if !UpdateValid(name, email, phone, college) then r == Fail(ServerError, SaveRejected)
        else if exists other :: other in old(moderators) && other != id && old(moderators)[other].email == m.email then
          r == Fail(ServerError, DuplicateKey)
        else
          r == Ok(m) && moderators == old(moderators)[id := m]
    {
      if id !in moderators {
        return Fail(NotFound, "Moderator not found");
      }
      var old_m := moderators[id];
      if !UpdateValid(name, email, phone, college) {
        return Fail(ServerError, SaveRejected);
      }
      var m := ApplyUpdate(old_m, name, email, phone, department, college);
      var taken := EmailTakenByOther(id, m.email);
      if taken {
        return Fail(ServerError, DuplicateKey);
      }
      UpdateValidMeansRecordValid(old_m, name, email, phone, department, college);
      Put(id, m);
      return Ok(m);
    }

    /** Whether the unique index already holds `email` for a moderator other than `id`. */
    method EmailTakenByOther(id: nat, email: string) returns (taken: bool)
      ensures taken <==> exists other :: other in moderators && other != id && moderators[other].email == email
    {
      taken := exists other :: other in moderators && other != id && moderators[other].email == email;
    }

    /** The write of an update that passed the validators and the unique index. */
    method Put(id: nat, m: ModeratorRecord)
      requires Valid() && id in moderators && ModeratorValidCorrected(m)
      requires forall other :: other in moderators && other != id ==> moderators[other].email != m.email
      modifies this
      ensures Valid()
      ensures moderators == old(moderators)[id := m]
    {
      moderators := moderators[id := m];
    }

    /** `generateOTP` for moderators: the same replace rule on the shared OTP collection. */
    method GenerateOtp(email: Field, otp: string, mailSent: bool, otps: OtpStore) returns (r: Outcome<OtpDoc>)
      requires Valid()
      modifies otps
      ensures !Truthy(email) ==> r == Fail(ValidationError, "Email is required") && otps.codes == old(otps.codes)
      ensures Truthy(email) && !HasEmail(moderators, Trim(email.value)) ==>
        r == Fail(ValidationError, "Moderator not found with this email") && otps.codes == old(otps.codes)
      ensures Truthy(email) && HasEmail(moderators, Trim(email.value)) ==>
        && otps.codes == old(otps.codes)[email.value := otp]
        && r == (if mailSent then Ok(OtpDoc(email.value, otp)) else Fail(ServerError, MailFailed))
    {
      if !Truthy(email) {
        return Fail(ValidationError, "Email is required");
      }
      var found := FindByEmail(email.value);
      if found.None? {
        return Fail(ValidationError, "Moderator not found with this email");
      }
      otps.Replace(email.value, otp);
      if !mailSent {
        return Fail(ServerError, MailFailed);
      }
      return Ok(OtpDoc(email.value, otp));
    }

    /** `verifyOTP` for moderators: the code is consumed only on a match with a known moderator. */
    method VerifyOtp(email: Field, otp: Field, sign: (nat, string) -> string, otps: OtpStore) returns (r: Outcome<string>)
      requires Valid()
      modifies otps
      ensures r.Fail? ==> otps.codes == old(otps.codes)
      ensures !Truthy(email) || !Truthy(otp) <==> r == Fail(ValidationError, "Email and OTP are required")
      ensures Truthy(email) && Truthy(otp) && email.value !in old(otps.codes) ==>
        r == Fail(Unauthorized, "Your OTP has expired. Please request a new one")
      ensures Truthy(email) && Truthy(otp) && email.value in old(otps.codes) && old(otps.codes)[email.value] != otp.value ==>
        r == Fail(Unauthorized, "Invalid OTP")
      ensures Truthy(email) && Truthy(otp) && email.value in old(otps.codes) && old(otps.codes)[email.value] == otp.value ==>
        if !HasEmail(moderators, Trim(email.value)) then r == Fail(ValidationError, "Moderator not found with this email")
        else
          && otps.codes == old(otps.codes) - {email.value}
          && forall id :: id in moderators && moderators[id].email == Trim(email.value) ==> r == Ok(sign(id, moderators[id].email))
    {
      if !Truthy(email) || !Truthy(otp) {
        return Fail(ValidationError, "Email and OTP are required");
      }
      var codes := otps.codes;
      if email.value !in codes {
        return Fail(Unauthorized, "Your OTP has expired. Please request a new one");
      }
      if codes[email.value] != otp.value {
        return Fail(Unauthorized, "Invalid OTP");
      }
      var found := FindByEmail(email.value);
      if found.None? {
        return Fail(ValidationError, "Moderator not found with this email");
      }
      var token := sign(found.value, moderators[found.value].email);
      otps.Consume(email.value);
      return Ok(token);
    }
  }

  /** After the corrected `updatePassword`, a login with the new password takes the permanent branch. */
  method LoginAfterPasswordUpdate(store: ModeratorStore, id: nat, newPassword: string, hashed: string,
                                  matches: (string, string) -> bool, sign: (nat, string) -> string)
    returns (update: Outcome<()>, login: Outcome<LoginGrant>)
    requires store.Valid() && id in store.moderators
    requires newPassword != "" && matches(newPassword, Trim(hashed))
    modifies store
    ensures update == Ok(())
    ensures login == Ok(LoginGrant(sign(id, old(store.moderators[id].email)), false))
  {
    update := store.UpdatePassword(id, Some(newPassword), hashed);
    var email := store.moderators[id].email;
    ValidEmailShape(email);
    login := store.Login(Some(email), Some(newPassword), matches, sign);
  }
}
