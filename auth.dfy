/**
 * `verifySuperAdmin` (server/middlewares/auth.middleware.js): the token is the
 * Authorization header with the first occurrence of "Bearer " removed, jwt
 * verification and the account lookup decide, and on success the request
 * carries the super-admin profile and the next handler runs once.
 *
 * `verify` stands for `jwt.verify` with the server's secret: `None` when it
 * throws, otherwise the payload's `_id`, which may be missing.
 */
module Auth {
  import opened Common
  import opened SuperAdminModel
  import opened SuperAdminAccounts

  const BearerPrefix := "Bearer "

  /** Whether `p` occurs in `s` at index `i`. */
  predicate OccursAt(s: string, p: string, i: nat) {
    i + |p| <= |s| && s[i..i + |p|] == p
  }

  /** The first index at or after `from` where `p` occurs in `s`, if any. */
  function FindFrom(s: string, p: string, from: nat): (r: Option<nat>)
    requires from <= |s|
    ensures r.Some? ==> from <= r.value && OccursAt(s, p, r.value)
    ensures forall k :: from <= k && (r.None? || k < r.value) ==> !OccursAt(s, p, k)
    decreases |s| - from
  {
    if from + |p| > |s| then None
    else if s[from..from + |p|] == p then Some(from)
    else if from == |s| then None
    else FindFrom(s, p, from + 1)
  }

  /** `s.replace(p, "")` with a string pattern: only the first occurrence is removed. */
  function RemoveFirst(s: string, p: string): (r: string)
    ensures FindFrom(s, p, 0).None? ==> r == s
    ensures FindFrom(s, p, 0).Some? ==>
      var i := FindFrom(s, p, 0).value; |r| == |s| - |p| && r == s[..i] + s[i + |p|..]
  {
    match FindFrom(s, p, 0)
    case None => s
    case Some(i) => s[..i] + s[i + |p|..]
  }

  /** A header of the form "Bearer <t>" gives exactly `t`, whatever `t` holds. */
  lemma BearerHeaderGivesToken(t: string)
    ensures RemoveFirst(BearerPrefix + t, BearerPrefix) == t
  {
    var s := BearerPrefix + t;
    assert s[0..|BearerPrefix|] == BearerPrefix;
    assert FindFrom(s, BearerPrefix, 0) == Some(0);
  }

  /**
   * The removal is not anchored at the start: when the first occurrence of
   * "Bearer " follows some text `a`, the token is `a` followed by the rest.
   */
  lemma RemovalNotAnchored(a: string, t: string)
    requires forall k :: 0 <= k < |a| ==> !OccursAt(a + BearerPrefix, BearerPrefix, k)
    ensures RemoveFirst(a + BearerPrefix + t, BearerPrefix) == a + t
  {
    var s := a + BearerPrefix + t;
    assert OccursAt(s, BearerPrefix, |a|) by {
      assert s[|a|..|a| + |BearerPrefix|] == BearerPrefix;
    }
    var i := FindFrom(s, BearerPrefix, 0);
    assert i.Some? && i.value <= |a|;
    if i.value < |a| {
      assert s[i.value..i.value + |BearerPrefix|] == (a + BearerPrefix)[i.value..i.value + |BearerPrefix|];
      assert OccursAt(a + BearerPrefix, BearerPrefix, i.value);
    }
    assert s[..|a|] == a;
    assert s[|a| + |BearerPrefix|..] == t;
  }

  /** The profile `select("-password")` returns. */
  datatype SuperAdminProfile = SuperAdminProfile(id: nat, name: string, email: string, address: string,
                                                 phone: string, profileImage: string)

  function Profile(id: nat, a: SuperAdminRecord): SuperAdminProfile {
    SuperAdminProfile(id, a.name, a.email, a.address, a.phone, a.profileImage)
  }

  /** The parts of the Express request and of the middleware chain the guard touches. */
  class Request {
    var superAdmin: Option<SuperAdminProfile>
    var nextCalls: nat

    constructor ()
      ensures superAdmin == None && nextCalls == 0
    {
      superAdmin := None;
      nextCalls := 0;
    }

    /**
     * `verifySuperAdmin`: no header, or an empty token, is refused as
     * unauthorised; a token jwt refuses is a server error; a payload whose id
     * has no super-admin is an invalid token. Only on success does the
     * request change: it gains the profile and `next` runs once.
     */
    method VerifySuperAdmin(authorization: Option<string>, verify: string -> Option<Option<nat>>,
                            store: SuperAdminStore) returns (r: Outcome<()>)
      modifies this
      ensures r.Fail? ==> superAdmin == old(superAdmin) && nextCalls == old(nextCalls)
      ensures authorization.None? || RemoveFirst(authorization.value, BearerPrefix) == ""
              <==> r == Fail(Unauthorized, "Access denied. No token provided")
      ensures authorization.Some? && RemoveFirst(authorization.value, BearerPrefix) != "" ==>
        var decoded := verify(RemoveFirst(authorization.value, BearerPrefix));
        if decoded.None? then r.Fail? && r.kind == ServerError
        else if decoded.value.None? || decoded.value.value !in store.admins then r == Fail(Unauthorized, "Invalid token")
        else
          && r == Ok(())
          && superAdmin == Some(Profile(decoded.value.value, store.admins[decoded.value.value]))
          && nextCalls == old(nextCalls) + 1
    {
      if authorization.None? {
        return Fail(Unauthorized, "Access denied. No token provided");
      }
      var token := RemoveFirst(authorization.value, BearerPrefix);
      if token == "" {
        return Fail(Unauthorized, "Access denied. No token provided");
      }
      var decoded := verify(token);
      if decoded.None? {
        return Fail(ServerError, "invalid token");
      }
      if decoded.value.None? || decoded.value.value !in store.admins {
        return Fail(Unauthorized, "Invalid token");
      }
      var id := decoded.value.value;
      superAdmin := Some(Profile(id, store.admins[id]));
      nextCalls := nextCalls + 1;
      return Ok(());
    }
  }

  /** The header "Bearer " alone leaves an empty token and is refused before any verification. */
  method BareBearerRefused(req: Request, verify: string -> Option<Option<nat>>, store: SuperAdminStore)
    returns (r: Outcome<()>)
    modifies req
    ensures r == Fail(Unauthorized, "Access denied. No token provided")
  {
    BearerHeaderGivesToken("");
    assert BearerPrefix + "" == BearerPrefix;
    r := req.VerifySuperAdmin(Some(BearerPrefix), verify, store);
  }
}
