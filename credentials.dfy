/**
 * What the department and moderator handlers share: the two-branch password
 * check of `loginUser` / `loginModerator`, and the one OTP collection both
 * `generateOTP` / `verifyOTP` pairs read and write.
 *
 * bcrypt's `compare` is the parameter `matches(plain, hash)`; comparing against
 * a hash that is not set throws inside bcrypt, which the handlers answer as a
 * server error.
 */
module Credentials {
  import opened Common

  /** The success payload of a login: the signed token and whether the password must be changed. */
  datatype LoginGrant = LoginGrant(accessToken: string, updatePassword: bool)

  const BcryptMissingHash := "data and hash arguments required"

  /**
   * The check on a found account. While `tempPassword` is exactly "" the
   * permanent password is compared and the result says no change is needed;
   * otherwise the temporary one is compared and the result asks for a change.
   */
  function CheckPassword(password: Option<string>, tempPassword: Option<string>, given: string,
                         matches: (string, string) -> bool): (r: Outcome<bool>)
    ensures r.Ok? ==> (r.value <==> tempPassword != Some(""))
    ensures tempPassword == Some("") ==>
      (r.Ok? <==> password.Some? && matches(given, password.value))
      && (password.Some? && !r.Ok? ==> r == Fail(Unauthorized, "Invalid credentials"))
    ensures tempPassword != Some("") ==>
      (r.Ok? <==> tempPassword.Some? && matches(given, tempPassword.value))
      && (tempPassword.Some? && !r.Ok? ==> r == Fail(Unauthorized, "Invalid temporary password"))
  {
    if tempPassword == Some("") then
      if password.None? then Fail(ServerError, BcryptMissingHash)
      else if !matches(given, password.value) then Fail(Unauthorized, "Invalid credentials")
      else Ok(false)
    else
      if tempPassword.None? then Fail(ServerError, BcryptMissingHash)
      else if !matches(given, tempPassword.value) then Fail(Unauthorized, "Invalid temporary password")
      else Ok(true)
  }

  /** After a password update (`tempPassword` "") a login succeeds exactly with the new password and asks for no change. */
  lemma CheckAfterUpdate(hashed: string, given: string, matches: (string, string) -> bool)
    ensures CheckPassword(Some(hashed), Some(""), given, matches) == Ok(false)
        <==> matches(given, hashed)
    ensures matches(given, hashed) || CheckPassword(Some(hashed), Some(""), given, matches) == Fail(Unauthorized, "Invalid credentials")
  {
  }

  /** The response body of `generateOTP`: the stored OTP document. */
  datatype OtpDoc = OtpDoc(email: string, otp: string)

  /**
   * The OTP collection, keyed by the email as the request gave it. Because a
   * new code for an email first deletes the old one, an email never has more
   * than one code, so a map is the whole state.
   */
  class OtpStore {
    var codes: map<string, string>

    constructor ()
      ensures codes == map[]
    {
      codes := map[];
    }

    /** `findOne` + `findByIdAndDelete` of the old code, then `create` of the new one. */
    method Replace(email: string, otp: string)
      modifies this
      ensures codes == old(codes)[email := otp]
    {
      codes := codes[email := otp];
    }

    /** `findByIdAndDelete` of the code just verified. */
    method Consume(email: string)
      modifies this
      ensures codes == old(codes) - {email}
    {
      codes := codes - {email};
    }
  }
}
