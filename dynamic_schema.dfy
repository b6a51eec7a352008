/**
 * The dynamic table registry: `createSchema` (server/controllers/dynamicSchema.controller.js)
 * and `createDocument` (server/controllers/document.controller.js).
 *
 * Mongoose keeps every compiled model in the process-wide map `mongoose.models`;
 * here that map is the field `tables` of a `Database`, and the records of each
 * model's collection are the field `collections`. A model is either one of the
 * application's own (User, Moderator, ...), registered when the server starts,
 * or a dynamic one compiled by `createSchema`.
 */
module DynamicSchema {
  import opened Common

  /** The Mongoose type a dynamic field is stored as. */
  datatype StorageType = StringType | NumberType

  /** One path of a compiled dynamic schema. */
  datatype FieldSpec = FieldSpec(storage: StorageType, required: bool, unique: bool)

  /** One element of the `data` array of a `createSchema` request. */
  datatype FieldDescriptor =
    FieldDescriptor(fieldName: string, fieldType: string, fieldRequired: string, fieldUnique: string)

  /**
   * The `data` member of a `createSchema` request: any falsy value, some
   * other non-array value, or an array of field descriptors.
   */
  datatype DataArg = Missing | NotArray | Items(descriptors: seq<FieldDescriptor>)

  /**
   * A registered model: one compiled by `createSchema`, or one of the
   * application's own. Either way `fields` are its declared paths.
   */
  datatype TableDef = Dynamic(fields: map<string, FieldSpec>) | Predefined(fields: map<string, FieldSpec>)

  /** A stored field value. `Ref` is an ObjectId reference to an account. */
  datatype Value = Str(s: string) | Num(n: int) | Bool(b: bool) | Ref(id: nat)

  type Record = map<string, Value>

  /** A field looked up the way a MongoDB index sees it: a missing field reads as null. */
  function Get(r: Record, k: string): Option<Value> {
    if k in r then Some(r[k]) else None
  }

  // ---------------------------------------------------------------- names

  /**
   * `name.replace(/\s+/g, "_")`: every maximal run of white space becomes one
   * underscore; nothing else changes (in particular, no change of case).
   */
  function Sanitize(name: string): (r: string)
    ensures NoSpace(r)
    ensures |r| <= |name|
    decreases |name|
  {
    if name == [] then []
    else if IsSpace(name[0]) then "_" + Sanitize(TrimStart(name))
    else [name[0]] + Sanitize(name[1..])
  }

  /** A name without white space is its own sanitised form. */
  lemma {:induction false} SanitizeFixesSpaceFree(s: string)
    requires NoSpace(s)
    ensures Sanitize(s) == s
  {
    if s != [] {
      assert !IsSpace(s[0]);
      SanitizeFixesSpaceFree(s[1..]);
    }
  }

  /** Sanitising twice is sanitising once. */
  lemma SanitizeIdempotent(s: string)
    ensures Sanitize(Sanitize(s)) == Sanitize(s)
  {
    SanitizeFixesSpaceFree(Sanitize(s));
  }

  /**
   * The regular-expression reading of the replacement: a space-free word,
   * followed by a maximal white-space run, followed by the rest, becomes the
   * word, one underscore and the sanitised rest.
   */
  lemma {:induction false} SanitizeCollapsesRun(w: string, run: string, rest: string)
    requires NoSpace(w)
    requires run != [] && forall i :: 0 <= i < |run| ==> IsSpace(run[i])
    requires rest == [] || !IsSpace(rest[0])
    ensures Sanitize(w + run + rest) == w + "_" + Sanitize(rest)
  {
    if w == [] {
      assert w + run + rest == run + rest;
      SanitizeRunHead(run, rest);
    } else {
      assert w + run + rest == [w[0]] + (w[1..] + run + rest);
      SanitizeCollapsesRun(w[1..], run, rest);
      SanitizeCons(w[0], w[1..] + run + rest);
      assert [w[0]] + (w[1..] + "_" + Sanitize(rest)) == w + "_" + Sanitize(rest);
    }
  }

  /** A leading white-space run becomes one underscore. */
  lemma SanitizeRunHead(run: string, rest: string)
    requires run != [] && forall i :: 0 <= i < |run| ==> IsSpace(run[i])
    requires rest == [] || !IsSpace(rest[0])
    ensures Sanitize(run + rest) == "_" + Sanitize(rest)
  {
    assert (run + rest)[0] == run[0];
    DropRun(run, rest);
  }

  /** A leading character that is not white space is kept. */
  lemma SanitizeCons(c: char, t: string)
    requires !IsSpace(c)
    ensures Sanitize([c] + t) == [c] + Sanitize(t)
  {
    assert ([c] + t)[0] == c && ([c] + t)[1..] == t;
  }

  lemma {:induction false} DropRun(run: string, rest: string)
    requires forall i :: 0 <= i < |run| ==> IsSpace(run[i])
    requires rest == [] || !IsSpace(rest[0])
    ensures TrimStart(run + rest) == rest
  {
    if run != [] {
      assert (run + rest)[1..] == run[1..] + rest;
      DropRun(run[1..], rest);
    } else {
      assert run + rest == rest;
    }
  }

  // ---------------------------------------------------------------- schema definition

  /** The `typeMapping[field.FieldType] || String` lookup. */
  function StorageFor(fieldType: string): (t: StorageType)
    ensures t == NumberType <==> fieldType == "Number"
  {
    if fieldType == "Number" then NumberType else StringType
  }

  /** The schema path built from one descriptor; the flags are true only for the exact string "True". */
  function SpecOf(d: FieldDescriptor): FieldSpec {
    FieldSpec(StorageFor(d.fieldType), d.fieldRequired == "True", d.fieldUnique == "True")
  }

  /** The `schemaDefinition` object after `data.forEach` has visited every descriptor in order. */
  function FieldsOf(ds: seq<FieldDescriptor>): map<string, FieldSpec> {
    if ds == [] then map[]
    else FieldsOf(ds[..|ds| - 1])[ds[|ds| - 1].fieldName := SpecOf(ds[|ds| - 1])]
  }

  /** Index of the last descriptor named `n`, which exists whenever `n` is a field. */
  ghost predicate IsLastNamed(ds: seq<FieldDescriptor>, n: string, j: int) {
    0 <= j < |ds| && ds[j].fieldName == n
    && forall k :: j < k < |ds| ==> ds[k].fieldName != n
  }

  /**
   * The field names are exactly the descriptors' names, and for a name given
   * more than once the last descriptor decides the type and both flags.
   */
  lemma {:induction false} LastDescriptorWins(ds: seq<FieldDescriptor>, n: string, j: int)
    requires IsLastNamed(ds, n, j)
    ensures n in FieldsOf(ds)
    ensures FieldsOf(ds)[n] == SpecOf(ds[j])
    ensures FieldsOf(ds)[n].storage == NumberType <==> ds[j].fieldType == "Number"
    ensures FieldsOf(ds)[n].required <==> ds[j].fieldRequired == "True"
    ensures FieldsOf(ds)[n].unique <==> ds[j].fieldUnique == "True"
  {
    if j < |ds| - 1 {
      LastDescriptorWins(ds[..|ds| - 1], n, j);
    }
  }

  /** A name no descriptor carries is not a field. */
  lemma {:induction false} FieldsOfNames(ds: seq<FieldDescriptor>, n: string)
    ensures n in FieldsOf(ds) <==> exists j :: 0 <= j < |ds| && ds[j].fieldName == n
  {
    if ds != [] {
      var init := ds[..|ds| - 1];
      FieldsOfNames(init, n);
      if n in FieldsOf(init) {
        var j :| 0 <= j < |init| && init[j].fieldName == n;
        assert ds[j].fieldName == n;
      }
      if exists j :: 0 <= j < |ds| && ds[j].fieldName == n {
        var j :| 0 <= j < |ds| && ds[j].fieldName == n;
        if j < |init| {
          assert init[j].fieldName == n;
        }
      }
    }
  }

  /** The `data.forEach` loop that fills `schemaDefinition`, one descriptor at a time. */
  method BuildSchemaDefinition(ds: seq<FieldDescriptor>) returns (def: map<string, FieldSpec>)
    ensures def == FieldsOf(ds)
    ensures def.Keys <= set d | d in ds :: d.fieldName
  {
    def := map[];
    var i := 0;
    while i < |ds|
      invariant 0 <= i <= |ds|
      invariant def == FieldsOf(ds[..i])
      invariant def.Keys <= set d | d in ds :: d.fieldName
    {
      assert ds[..i + 1][..i] == ds[..i];
      def := def[ds[i].fieldName := SpecOf(ds[i])];
      i := i + 1;
    }
    assert ds[..i] == ds;
  }

  // ---------------------------------------------------------------- inserting records

  /**
   * The paths of `data` that `Model.create(data)` keeps: Mongoose's strict
   * mode drops every path the schema does not declare.
   */
  function Stored(t: TableDef, data: Record): (r: Record)
    ensures r.Keys == data.Keys * t.fields.Keys
    ensures forall k :: k in r ==> r[k] == data[k]
  {
    map k | k in data && k in t.fields :: data[k]
  }

  /** The `required` validator: the path is present and not the empty string. */
  predicate Present(r: Record, k: string) {
    k in r && r[k] != Str("")
  }

  /**
   * Whether inserting `data` into a table holding `existing` passes the
   * schema's `required` validators and its unique indexes (a missing value
   * counts as null, so two records both missing a unique field collide).
   */
  predicate InsertAccepted(t: TableDef, existing: seq<Record>, data: Record) {
    var r := Stored(t, data);
    (forall k :: k in t.fields && t.fields[k].required ==> Present(r, k))
    && (forall k, e :: k in t.fields && t.fields[k].unique && e in existing ==> Get(e, k) != Get(r, k))
  }

  // ---------------------------------------------------------------- the application's own models

  /** A declared path of an application schema, with its `required` and `unique` options. */
  function Path(required: bool, unique: bool): FieldSpec {
    FieldSpec(StringType, required, unique)
  }

  /** The paths of the `User` schema (server/models/user.model.js). */
  const UserSchema: map<string, FieldSpec> :=
    map["email" := Path(true, true), "phone" := Path(true, false), "password" := Path(false, false),
        "profileImage" := Path(false, false), "department" := Path(true, false), "tempPassword" := Path(false, false)]

  /**
   * The paths of the `Moderator` schema (server/models/moderator.model.js).
   * `department` and `college` are arrays, which default to the empty array
   * and so never fail `required`.
   */
  const ModeratorSchema: map<string, FieldSpec> :=
    map["name" := Path(true, false), "email" := Path(true, true), "phone" := Path(true, false),
        "profileImage" := Path(false, false), "department" := Path(false, false), "college" := Path(false, false),
        "password" := Path(false, false), "tempPassword" := Path(false, false),
        "pendingRequestCount" := FieldSpec(NumberType, false, false),
        "acceptedRequestCount" := FieldSpec(NumberType, false, false),
        "rejectedRequestCount" := FieldSpec(NumberType, false, false), "status" := Path(false, false)]

  /** The paths of the `SuperAdmin` schema (server/models/superAdmin.model.js). */
  const SuperAdminSchema: map<string, FieldSpec> :=
    map["name" := Path(true, false), "email" := Path(true, true), "address" := Path(false, false),
        "phone" := Path(true, false), "password" := Path(true, false), "profileImage" := Path(false, false)]

  /** The paths of the `Timeline` schema (server/models/timelime.model.js). */
  const TimelineSchema: map<string, FieldSpec> :=
    map["startDate" := Path(true, false), "endDate" := Path(true, false)]

  /** The paths of the `TableSchema` metadata schema (server/models/tableSchema.model.js). */
  const MetadataSchema: map<string, FieldSpec> :=
    map["tableName" := Path(true, false), "tableFields" := Path(false, false)]

  /** The models the application registers in `mongoose.models` as it starts. */
  const AppSchemas: map<string, map<string, FieldSpec>> :=
    map["User" := UserSchema, "Moderator" := ModeratorSchema, "SuperAdmin" := SuperAdminSchema,
        "Timeline" := TimelineSchema, "TableSchema" := MetadataSchema]

  /** The record `createSchema` saves into a freshly compiled model and deletes again. */
  const Probe: Record :=
    map["Name" := Str("Kunal"), "Email" := Str("kunal@example.com"), "Age" := Num(25), "Pdf" := Str("path/to/file.pdf")]

  /** A probe insert into an empty table fails exactly when a required field is not among the probe's. */
  lemma ProbeAcceptance(fields: map<string, FieldSpec>)
    ensures InsertAccepted(Dynamic(fields), [], Probe)
        <==> forall k :: k in fields && fields[k].required ==> k in {"Name", "Email", "Age", "Pdf"}
  {
    var r := Stored(Dynamic(fields), Probe);
    forall k | k in fields && fields[k].required && k in {"Name", "Email", "Age", "Pdf"}
      ensures Present(r, k)
    {
      assert k in Probe && Probe[k] != Str("");
    }
  }

  /** A `createSchema` answer given before anything is registered. */
  predicate RefusedUpFront(r: Outcome<string>) {
    r.Fail? && (r.kind == ValidationError || r.kind == Conflict)
  }

  class Database {
    /** `mongoose.models`: every compiled model, by name. */
    var tables: map<string, TableDef>
    /** The records of each model's collection, in insertion order. */
    var collections: map<string, seq<Record>>

    ghost predicate Valid()
      reads this
    {
      tables.Keys == collections.Keys
    }

    /** The registry as the server starts: the application's own models, each with an empty collection. */
    constructor ()
      ensures Valid()
      ensures tables.Keys == AppSchemas.Keys && forall n :: n in tables ==> tables[n] == Predefined(AppSchemas[n])
      ensures forall n :: n in collections ==> collections[n] == []
    {
      tables := map n | n in AppSchemas :: Predefined(AppSchemas[n]);
      collections := map n | n in AppSchemas :: [];
    }

    /** `Model.create(data)` on a registered model. */
    method Insert(name: string, data: Record) returns (ok: bool)
      requires Valid() && name in tables
      modifies this
      ensures Valid() && tables == old(tables)
      ensures ok == InsertAccepted(tables[name], old(collections)[name], data)
      ensures collections == if ok
        then old(collections)[name := old(collections)[name] + [Stored(tables[name], data)]]
        else old(collections)
    {
      ok := InsertAccepted(tables[name], collections[name], data);
      if ok {
        collections := collections[name := collections[name] + [Stored(tables[name], data)]];
      }
    }

    /** `Model.findByIdAndDelete` of the record inserted last. */
    method DeleteLast(name: string)
      requires Valid() && name in tables && collections[name] != []
      modifies this
      ensures Valid() && tables == old(tables)
      ensures collections == old(collections)[name := old(collections)[name][..|old(collections)[name]| - 1]]
    {
      var recs := collections[name];
      collections := collections[name := recs[..|recs| - 1]];
    }

    /** `createSchema`: compiles and registers a dynamic model, then saves and deletes a probe record. */
    method CreateSchema(tableName: Field, data: DataArg) returns (r: Outcome<string>)
      requires Valid()
      modifies this
      ensures Valid()
      ensures r.Fail? && r.kind == ValidationError
          <==> !Truthy(tableName) || !data.Items? || data.descriptors == []
      ensures r.Fail? && r.kind == ValidationError ==> r.message == "Invalid request Data"
      ensures r.Fail? && r.kind == Conflict
          <==> Truthy(tableName) && data.Items? && data.descriptors != []
               && Sanitize(tableName.value) in old(tables)
      ensures r.Fail? && r.kind == Conflict ==> r.message == "Model already exists"
      ensures RefusedUpFront(r) ==> tables == old(tables) && collections == old(collections)
      ensures !RefusedUpFront(r) ==>
        var n := Sanitize(tableName.value);
        var fields := FieldsOf(data.descriptors);
        && tables == old(tables)[n := Dynamic(fields)]
        && collections == old(collections)[n := []]
        && (r == Ok(n) || r == Fail(ServerError, SaveRejected))
        && (r.Ok? <==> InsertAccepted(Dynamic(fields), [], Probe))
    {
      if !Truthy(tableName) || !data.Items? || data.descriptors == [] {
        return Fail(ValidationError, "Invalid request Data");
      }
      var name := Sanitize(tableName.value);
      if name in tables {
        return Fail(Conflict, "Model already exists");
      }
      var def := BuildSchemaDefinition(data.descriptors);
      tables := tables[name := Dynamic(def)];
      collections := collections[name := []];
      var ok := Insert(name, Probe);
      if !ok {
        return Fail(ServerError, SaveRejected);
      }
      DeleteLast(name);
      assert collections[name] == [];
      r := Ok(name);
    }

    /** `createDocument`: resolves the table through the same sanitisation and saves `data` into it. */
    method CreateDocument(tableName: Field, data: Option<Record>) returns (r: Outcome<Record>)
      requires Valid()
      modifies this
      ensures Valid() && tables == old(tables)
      ensures r == Fail(ValidationError, "Invalid request Data") <==> !Truthy(tableName) || data.None?
      ensures r == Fail(ValidationError, "Model not found")
          <==> Truthy(tableName) && data.Some? && Sanitize(tableName.value) !in tables
      ensures r.Fail? ==> collections == old(collections)
      ensures r.Fail? ==> r.kind == ServerError || r.message == "Invalid request Data" || r.message == "Model not found"
      ensures r.Fail? ==> r.kind == ValidationError || r == Fail(ServerError, SaveRejected)
      ensures r.Ok? ==>
        var n := Sanitize(tableName.value);
        && n in tables
        && InsertAccepted(tables[n], old(collections)[n], data.value)
        && r.value == Stored(tables[n], data.value)
        && collections == old(collections)[n := old(collections)[n] + [r.value]]
      ensures r.Fail? && r.kind == ServerError
          <==> Truthy(tableName) && data.Some? && Sanitize(tableName.value) in tables
               && !InsertAccepted(tables[Sanitize(tableName.value)], old(collections)[Sanitize(tableName.value)], data.value)
    {
      if !Truthy(tableName) || data.None? {
        return Fail(ValidationError, "Invalid request Data");
      }
      var name := Sanitize(tableName.value);
      if name !in tables {
        return Fail(ValidationError, "Model not found");
      }
      var ok := Insert(name, data.value);
      if !ok {
        return Fail(ServerError, SaveRejected);
      }
      r := Ok(Stored(tables[name], data.value));
    }

    /**
     * `createDocument` as evidently intended: only a table compiled by
     * `createSchema` takes records; an application model's name is answered
     * like an unknown one, so its collection is never written.
     */
    method CreateTableDocument(tableName: Field, data: Option<Record>) returns (r: Outcome<Record>)
      requires Valid()
      modifies this
      ensures Valid() && tables == old(tables)
      ensures r == Fail(ValidationError, "Invalid request Data") <==> !Truthy(tableName) || data.None?
      ensures r == Fail(ValidationError, "Model not found")
          <==> Truthy(tableName) && data.Some?
               && (Sanitize(tableName.value) !in tables || tables[Sanitize(tableName.value)].Predefined?)
      ensures r.Fail? ==> collections == old(collections)
      ensures r.Fail? ==> r.kind == ServerError || r.message == "Invalid request Data" || r.message == "Model not found"
      ensures r.Fail? ==> r.kind == ValidationError || r == Fail(ServerError, SaveRejected)
      ensures forall n :: n in tables && tables[n].Predefined? ==> collections[n] == old(collections)[n]
      ensures r.Ok? ==>
        var n := Sanitize(tableName.value);
        && n in tables && tables[n].Dynamic?
        && InsertAccepted(tables[n], old(collections)[n], data.value)
        && r.value == Stored(tables[n], data.value)
        && collections == old(collections)[n := old(collections)[n] + [r.value]]
      ensures r.Fail? && r.kind == ServerError
          <==> Truthy(tableName) && data.Some? && Sanitize(tableName.value) in tables
               && tables[Sanitize(tableName.value)].Dynamic?
               && !InsertAccepted(tables[Sanitize(tableName.value)], old(collections)[Sanitize(tableName.value)], data.value)
    {
      if !Truthy(tableName) || data.None? {
        return Fail(ValidationError, "Invalid request Data");
      }
      var name := Sanitize(tableName.value);
      if name !in tables || tables[name].Predefined? {
        return Fail(ValidationError, "Model not found");
      }
      var ok := Insert(name, data.value);
      if !ok {
        return Fail(ServerError, SaveRejected);
      }
      r := Ok(Stored(tables[name], data.value));
    }
  }

  /** A super-admin record that a department could send to `createDocument`. */
  const ForgedAdmin: Record :=
    map["name" := Str("Eve"), "email" := Str("eve@example.com"), "phone" := Str("0123456789"),
        "password" := Str("longpassword")]

  /** The forged record declares only super-admin paths and fills every required one. */
  lemma ForgedAdminAccepted()
    ensures Stored(Predefined(SuperAdminSchema), ForgedAdmin) == ForgedAdmin
    ensures InsertAccepted(Predefined(SuperAdminSchema), [], ForgedAdmin)
  {
    assert ForgedAdmin.Keys <= SuperAdminSchema.Keys;
    var r := Stored(Predefined(SuperAdminSchema), ForgedAdmin);
    assert r == ForgedAdmin;
    forall k | k in SuperAdminSchema && SuperAdminSchema[k].required
      ensures Present(r, k)
    {
      assert k in {"name", "email", "phone", "password"};
    }
  }

  /**
   * As written, `createDocument` writes into any application model whose
   * validators the record passes, whatever the model's name.
   */
  method AppModelWritable(db: Database, name: string, data: Record) returns (r: Outcome<Record>)
    requires db.Valid() && name != [] && NoSpace(name) && name in db.tables && db.tables[name].Predefined?
    requires InsertAccepted(db.tables[name], db.collections[name], data)
    modifies db
    ensures db.Valid() && db.tables == old(db.tables)
    ensures r == Ok(Stored(db.tables[name], data))
    ensures db.collections == old(db.collections)[name := old(db.collections)[name] + [r.value]]
  {
    SanitizeFixesSpaceFree(name);
    r := db.CreateDocument(Some(name), Some(data));
  }

  /**
   * As written, the department-guarded `createDocument` writes into the
   * `SuperAdmin` collection of a freshly started server: any record passing
   * the super-admin validators is stored.
   */
  method DepartmentCreatesSuperAdmin(admin: Record) returns (db: Database, r: Outcome<Record>)
    requires InsertAccepted(Predefined(SuperAdminSchema), [], admin)
    ensures db.Valid() && "SuperAdmin" in db.collections
    ensures r == Ok(Stored(Predefined(SuperAdminSchema), admin))
    ensures db.collections["SuperAdmin"] == [Stored(Predefined(SuperAdminSchema), admin)]
  {
    db := new Database();
    assert db.tables["SuperAdmin"] == Predefined(SuperAdminSchema);
    assert db.collections["SuperAdmin"] == [];
    r := AppModelWritable(db, "SuperAdmin", admin);
  }

  /** With the intended handler the same request is refused and the `SuperAdmin` collection stays empty. */
  method SuperAdminOutOfReach() returns (db: Database, r: Outcome<Record>)
    ensures db.Valid() && "SuperAdmin" in db.collections
    ensures r == Fail(ValidationError, "Model not found") && db.collections["SuperAdmin"] == []
  {
    db := new Database();
    assert db.tables["SuperAdmin"] == Predefined(SuperAdminSchema);
    SanitizeFixesSpaceFree("SuperAdmin");
    r := db.CreateTableDocument(Some("SuperAdmin"), Some(ForgedAdmin));
  }

  /** An application model applies its own `required` validators: an empty `User` record is refused. */
  lemma EmptyUserRefused(existing: seq<Record>)
    ensures !InsertAccepted(Predefined(UserSchema), existing, map[])
  {
    assert "email" in UserSchema && UserSchema["email"].required;
  }

  /** A dynamic record never carries a path its schema does not declare: nothing is injected. */
  lemma StoredOnlyDeclared(fields: map<string, FieldSpec>, data: Record, k: string)
    requires k !in fields
    ensures k !in Stored(Dynamic(fields), data)
  {
  }

  /**
   * A schema whose required field the probe lacks: the name is registered
   * although the request fails, and the same request again is a conflict.
   */
  method FailedProbeLeavesNameRegistered(db: Database, name: string) returns (first: Outcome<string>, second: Outcome<string>)
    requires db.Valid() && name != [] && NoSpace(name) && name !in db.tables
    modifies db
    ensures first == Fail(ServerError, SaveRejected)
    ensures second == Fail(Conflict, "Model already exists")
    ensures name in db.tables && db.tables[name] == Dynamic(map["Roll" := FieldSpec(StringType, true, false)])
  {
    var d := FieldDescriptor("Roll", "Text", "True", "False");
    var data := Items([d]);
    var fields := map["Roll" := FieldSpec(StringType, true, false)];
    SanitizeFixesSpaceFree(name);
    assert FieldsOf([d]) == fields by {
      assert [d][..0] == [];
    }
    assert !InsertAccepted(Dynamic(fields), [], Probe) by {
      ProbeAcceptance(fields);
      assert "Roll" in fields && fields["Roll"].required;
      assert "Roll" !in {"Name", "Email", "Age", "Pdf"};
    }
    first := db.CreateSchema(Some(name), data);
    assert db.tables == old(db.tables)[name := Dynamic(fields)];
    second := db.CreateSchema(Some(name), data);
  }
}
