/**
 * The super-admin accounts and the handlers of
 * server/controllers/superAdmin.controller.js. The `SuperAdmin` collection is
 * a map from document id to record; its unique index on `email` is the store
 * invariant. Unlike the other accounts, the super-admin password is hashed by
 * the schema's pre-save hook, and a login compares against that hash only.
 */
module SuperAdminAccounts {
  import opened Common
  import opened FieldValidators
  import opened SuperAdminModel

  /** The unique index on `email`: no two super-admins share one. */
  predicate UniqueEmails(m: map<nat, SuperAdminRecord>) {
    forall a, b :: a in m && b in m && m[a].email == m[b].email ==> a == b
  }

  predicate HasEmail(m: map<nat, SuperAdminRecord>, email: string) {
    exists id :: id in m && m[id].email == email
  }

  class SuperAdminStore {
    var admins: map<nat, SuperAdminRecord>
    var nextId: nat

    predicate Valid()
      reads this
    {
      (forall id :: id in admins ==> id < nextId) && UniqueEmails(admins)
    }

    constructor ()
      ensures Valid() && admins == map[]
    {
      admins := map[];
      nextId := 0;
    }

    /** `SuperAdmin.findOne({ email })`: the super-admin whose stored email is the trimmed query, if any. */
    method FindByEmail(email: string) returns (found: Option<nat>)
      requires Valid()
      ensures found.None? <==> !HasEmail(admins, Trim(email))
      ensures found.Some? ==> found.value in admins && admins[found.value].email == Trim(email)
    {
      var key := Trim(email);
      if HasEmail(admins, key) {
        var id :| id in admins && admins[id].email == key;
        return Some(id);
      }
      return None;
    }

    /** The insert of a record whose email is free: it is stored under a new id. */
    method Add(a: SuperAdminRecord)
      requires Valid() && !HasEmail(admins, a.email)
      modifies this
      ensures Valid()
      ensures admins == old(admins)[old(nextId) := a] && old(nextId) !in old(admins)
    {
      admins := admins[nextId := a];
      nextId := nextId + 1;
    }

    /**
     * `createSuperAdmin`: five truthy fields (the address too, which the
     * schema does not require), a free email, then the schema validators on
     * the trimmed values, and only then the pre-save hook, which stores
     * `hashed`, the bcrypt hash of the trimmed password, in its place.
     */
    method Create(name: Field, email: Field, address: Field, phone: Field, password: Field, hashed: string)
      returns (r: Outcome<SuperAdminRecord>)
      requires Valid()
      modifies this
      ensures Valid()
      ensures r.Fail? ==> admins == old(admins)
      ensures !(Truthy(name) && Truthy(email) && Truthy(address) && Truthy(phone) && Truthy(password))
              <==> r == Fail(ValidationError, "Please fill all the fields")
      ensures Truthy(name) && Truthy(email) && Truthy(address) && Truthy(phone) && Truthy(password) ==>
        if HasEmail(old(admins), Trim(email.value)) then r == Fail(Conflict, "SuperAdmin already exists")
        else
          var a := NewSuperAdmin(name.value, email.value, address.value, phone.value, password.value);
          if !SuperAdminValid(a) then r == Fail(ServerError, SaveRejected)
          else
            && r == Ok(PreSave(a, true, hashed)) && r.value.password == hashed
            && admins == old(admins)[old(nextId) := r.value] && old(nextId) !in old(admins)
    {
      if !(Truthy(name) && Truthy(email) && Truthy(address) && Truthy(phone) && Truthy(password)) {
        return Fail(ValidationError, "Please fill all the fields");
      }
      var existing := FindByEmail(email.value);
      if existing.Some? {
        return Fail(Conflict, "SuperAdmin already exists");
      }
      var a := NewSuperAdmin(name.value, email.value, address.value, phone.value, password.value);
      if !SuperAdminValid(a) {
        return Fail(ServerError, SaveRejected);
      }
      var stored := PreSave(a, true, hashed);
      Add(stored);
      return Ok(stored);
    }

    /**
     * `loginSuperAdmin`: both fields truthy, a known email, and a password
     * that bcrypt matches against the stored hash; the store is only read.
     */
    method Login(email: Field, password: Field, matches: (string, string) -> bool,
                 sign: (nat, string) -> string) returns (r: Outcome<string>)
      requires Valid()
      ensures !Truthy(email) || !Truthy(password) <==> r == Fail(ValidationError, "Please fill all the fields")
      ensures Truthy(email) && Truthy(password) && !HasEmail(admins, Trim(email.value))
              ==> r == Fail(ValidationError, "SuperAdmin not found")
      ensures forall id :: Truthy(email) && Truthy(password) && id in admins && admins[id].email == Trim(email.value) ==>
        r == (if matches(password.value, admins[id].password) then Ok(sign(id, admins[id].email))
              else Fail(Unauthorized, "Invalid credentials"))
    {
      if !Truthy(email) || !Truthy(password) {
        return Fail(ValidationError, "Please fill all the fields");
      }
      var found := FindByEmail(email.value);
      if found.None? {
        return Fail(ValidationError, "SuperAdmin not found");
      }
      var a := admins[found.value];
      if !matches(password.value, a.password) {
        return Fail(Unauthorized, "Invalid credentials");
      }
      return Ok(sign(found.value, a.email));
    }
  }

  /**
   * A super-admin just created logs in exactly with an attempt that bcrypt
   * matches against the stored hash. When bcrypt matches that hash with the
   * trimmed password alone, the trimmed password is the only one that logs
   * in: the setter trims before hashing, but the login compares the attempt
   * untrimmed, so a password given with surrounding white space is refused
   * when typed the same way again.
   */
  method LoginAfterCreate(store: SuperAdminStore, name: string, email: string, address: string, phone: string,
                          password: string, hashed: string, matches: (string, string) -> bool,
                          sign: (nat, string) -> string, attempt: string)
    returns (created: Outcome<SuperAdminRecord>, login: Outcome<string>)
    requires store.Valid() && name != "" && email != "" && address != "" && phone != "" && password != ""
    requires !HasEmail(store.admins, Trim(email))
    requires SuperAdminValid(NewSuperAdmin(name, email, address, phone, password))
    requires attempt != ""
    modifies store
    ensures created.Ok?
    ensures login.Ok? <==> matches(attempt, hashed)
    ensures (forall x :: matches(x, hashed) <==> x == Trim(password)) ==> (login.Ok? <==> attempt == Trim(password))
    ensures (forall x :: matches(x, hashed) <==> x == Trim(password)) && attempt == password != Trim(password) ==> login.Fail?
  {
    var id := store.nextId;
    var a := NewSuperAdmin(name, email, address, phone, password);
    created := store.Create(Some(name), Some(email), Some(address), Some(phone), Some(password), hashed);
    assert id in store.admins && store.admins[id] == PreSave(a, true, hashed);
    assert store.admins[id].email == a.email && store.admins[id].password == hashed;
    ValidEmailShape(a.email);
    login := store.Login(Some(a.email), Some(attempt), matches, sign);
  }
}
