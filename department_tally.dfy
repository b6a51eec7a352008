/**
 * `getDocumentCountOfDepartments` (server/controllers/user.controller.js): for
 * one department account, counts its submitted records over every table name
 * the schema store lists, by review status.
 *
 * The handler fans out over the tables with `Promise.all`, but each table only
 * adds to the four counters, so the tally is the sequential fold below. Table
 * names are sanitised and then lower-cased before the registry lookup, while
 * `createSchema` registers the sanitised name without lower-casing it.
 */
module DepartmentTally {
  import opened Common
  import opened DynamicSchema

  datatype Counts = Counts(total: nat, accepted: nat, rejected: nat, pending: nat)

  const Zero := Counts(0, 0, 0, 0)

  function Add(a: Counts, b: Counts): Counts {
    Counts(a.total + b.total, a.accepted + b.accepted, a.rejected + b.rejected, a.pending + b.pending)
  }

  /** The filter `{ submittedBy: user._id, submitted: true }`. */
  predicate SubmittedBy(r: Record, user: nat) {
    Get(r, "submittedBy") == Some(Ref(user)) && Get(r, "submitted") == Some(Bool(true))
  }

  predicate HasStatus(r: Record, status: string) {
    Get(r, "status") == Some(Str(status))
  }

  /** A status still under review: pending, or recommended by a moderator either way. */
  predicate InReview(r: Record) {
    HasStatus(r, "pending") || HasStatus(r, "requestedForApproval") || HasStatus(r, "requestedForRejection")
  }

  /** What one counted record adds: always to the total, and to at most one status counter. */
  function CountOne(r: Record): Counts {
    if HasStatus(r, "approved") then Counts(1, 1, 0, 0)
    else if HasStatus(r, "rejected") then Counts(1, 0, 1, 0)
    else if InReview(r) then Counts(1, 0, 0, 1)
    else Counts(1, 0, 0, 0)
  }

  /** The counters after the `documents.forEach` over the records of one table. */
  function TallyRecords(recs: seq<Record>, user: nat): Counts {
    if recs == [] then Zero
    else
      var last := recs[|recs| - 1];
      Add(TallyRecords(recs[..|recs| - 1], user), if SubmittedBy(last, user) then CountOne(last) else Zero)
  }

  /** The registry key the tally looks a listed table name up under. */
  function LookupKey(tableName: string): string {
    Lower(Sanitize(tableName))
  }

  /** What one listed table name contributes: nothing when its key is not registered. */
  function TableCounts(tables: map<string, TableDef>, collections: map<string, seq<Record>>,
                       tableName: string, user: nat): Counts
  {
    var key := LookupKey(tableName);
    if key in tables && key in collections then TallyRecords(collections[key], user) else Zero
  }

  /** The four counters after every listed table has been visited. */
  function Tally(tables: map<string, TableDef>, collections: map<string, seq<Record>>,
                 tableNames: seq<string>, user: nat): Counts
  {
    if tableNames == [] then Zero
    else Add(Tally(tables, collections, tableNames[..|tableNames| - 1], user),
             TableCounts(tables, collections, tableNames[|tableNames| - 1], user))
  }

  lemma TallyRecordsStep(docs: seq<Record>, i: int, user: nat)
    requires 0 <= i < |docs|
    ensures TallyRecords(docs[..i + 1], user)
         == Add(TallyRecords(docs[..i], user), if SubmittedBy(docs[i], user) then CountOne(docs[i]) else Zero)
  {
    assert docs[..i + 1][..i] == docs[..i];
    assert docs[..i + 1][i] == docs[i];
  }

  /** The `documents.forEach` over the records of one table. */
  method CountTable(docs: seq<Record>, user: nat) returns (c: Counts)
    ensures c == TallyRecords(docs, user)
  {
    c := Zero;
    var i := 0;
    while i < |docs|
      invariant 0 <= i <= |docs|
      invariant c == TallyRecords(docs[..i], user)
    {
      TallyRecordsStep(docs, i, user);
      var doc := docs[i];
      c := Add(c, if SubmittedBy(doc, user) then CountOne(doc) else Zero);
      i := i + 1;
    }
    assert docs[..i] == docs;
  }

  /** One table of the fan-out: skipped when its key is not registered, otherwise its records are counted. */
  method CountListedTable(tables: map<string, TableDef>, collections: map<string, seq<Record>>,
                          tableName: string, user: nat) returns (c: Counts)
    requires tables.Keys == collections.Keys
    ensures c == TableCounts(tables, collections, tableName, user)
  {
    var key := LookupKey(tableName);
    if key !in tables {
      return Zero;
    }
    c := CountTable(collections[key], user);
  }

  /** `getDocumentCountOfDepartments`: the counters, one table after another. */
  method CountDocuments(db: Database, user: nat, tableNames: seq<string>) returns (c: Counts)
    requires db.Valid()
    ensures c == Tally(db.tables, db.collections, tableNames, user)
  {
    var tables, collections := db.tables, db.collections;
    c := Zero;
    var t := 0;
    while t < |tableNames|
      invariant 0 <= t <= |tableNames|
      invariant c == Tally(tables, collections, tableNames[..t], user)
    {
      var forTable := CountListedTable(tables, collections, tableNames[t], user);
      TallyStep(tables, collections, tableNames, t, user);
      c := Add(c, forTable);
      t := t + 1;
    }
    assert tableNames[..t] == tableNames;
  }

  lemma TallyStep(tables: map<string, TableDef>, collections: map<string, seq<Record>>,
                  tableNames: seq<string>, t: int, user: nat)
    requires 0 <= t < |tableNames|
    ensures Tally(tables, collections, tableNames[..t + 1], user)
         == Add(Tally(tables, collections, tableNames[..t], user), TableCounts(tables, collections, tableNames[t], user))
  {
    assert tableNames[..t + 1][..t] == tableNames[..t];
  }

  // ---------------------------------------------------------------- properties

  /** The counted records of a table: those the filter selects. */
  function Selected(recs: seq<Record>, user: nat): seq<Record> {
    if recs == [] then []
    else
      var last := recs[|recs| - 1];
      Selected(recs[..|recs| - 1], user) + (if SubmittedBy(last, user) then [last] else [])
  }

  predicate KnownStatus(r: Record) {
    HasStatus(r, "approved") || HasStatus(r, "rejected") || InReview(r)
  }

  /** Every record of `s` has one of the five known statuses. */
  predicate AllKnown(s: seq<Record>) {
    forall i :: 0 <= i < |s| ==> KnownStatus(s[i])
  }

  /** One counted record adds one to the total and at most one to the status counters, exactly one when its status is known. */
  lemma CountOneMeaning(r: Record)
    ensures var c := CountOne(r);
      && c.total == 1
      && (c.accepted == 1 <==> HasStatus(r, "approved")) && c.accepted <= 1
      && (c.rejected == 1 <==> HasStatus(r, "rejected")) && c.rejected <= 1
      && (c.pending == 1 <==> InReview(r)) && c.pending <= 1
      && c.accepted + c.rejected + c.pending <= 1
      && (KnownStatus(r) ==> c.accepted + c.rejected + c.pending == 1)
  {
  }

  /**
   * Per table: the total is the number of selected records, the accepted and
   * rejected counters count exactly the selected records with that status,
   * the pending counter counts exactly the selected records under review,
   * and the three status counters never exceed the total.
   */
  lemma {:induction false} TallyRecordsMeaning(recs: seq<Record>, user: nat)
    ensures var c := TallyRecords(recs, user); var s := Selected(recs, user);
      && c.total == |s|
      && c.accepted == |Only(s, "approved")|
      && c.rejected == |Only(s, "rejected")|
      && c.pending == |UnderReview(s)|
      && c.accepted + c.rejected + c.pending <= c.total
  {
    if recs != [] {
      var init := recs[..|recs| - 1];
      var last := recs[|recs| - 1];
      TallyRecordsMeaning(init, user);
      var s0 := Selected(init, user);
      var tail := if SubmittedBy(last, user) then [last] else [];
      assert Selected(recs, user) == s0 + tail;
      OnlyAppend(s0, tail, "approved");
      OnlyAppend(s0, tail, "rejected");
      UnderReviewAppend(s0, tail);
      if SubmittedBy(last, user) {
        CountOneMeaning(last);
        assert Only([last], "approved") == if HasStatus(last, "approved") then [last] else [];
        assert Only([last], "rejected") == if HasStatus(last, "rejected") then [last] else [];
        assert UnderReview([last]) == if InReview(last) then [last] else [];
      }
    }
  }

  /** When every selected record has one of the five known statuses, the three status counters add up to the total. */
  lemma {:induction false} TallyRecordsComplete(recs: seq<Record>, user: nat)
    requires AllKnown(Selected(recs, user))
    ensures var c := TallyRecords(recs, user); c.accepted + c.rejected + c.pending == c.total
  {
    if recs != [] {
      var init := recs[..|recs| - 1];
      var last := recs[|recs| - 1];
      var s0 := Selected(init, user);
      var s := Selected(recs, user);
      var tail := if SubmittedBy(last, user) then [last] else [];
      assert s == s0 + tail;
      forall i | 0 <= i < |s0| ensures KnownStatus(s0[i]) {
        assert s[i] == s0[i];
      }
      TallyRecordsComplete(init, user);
      if SubmittedBy(last, user) {
        assert s[|s| - 1] == last;
        CountOneMeaning(last);
      }
    }
  }

  /** The selected records with the given status. */
  function Only(s: seq<Record>, status: string): seq<Record> {
    if s == [] then []
    else Only(s[..|s| - 1], status) + (if HasStatus(s[|s| - 1], status) then [s[|s| - 1]] else [])
  }

  lemma {:induction false} OnlyAppend(a: seq<Record>, b: seq<Record>, status: string)
    ensures Only(a + b, status) == Only(a, status) + Only(b, status)
  {
    if b != [] {
      assert (a + b)[..|a + b| - 1] == a + b[..|b| - 1];
      OnlyAppend(a, b[..|b| - 1], status);
    } else {
      assert a + b == a;
    }
  }

  /** The selected records still under review. */
  function UnderReview(s: seq<Record>): seq<Record> {
    if s == [] then []
    else UnderReview(s[..|s| - 1]) + (if InReview(s[|s| - 1]) then [s[|s| - 1]] else [])
  }

  lemma {:induction false} UnderReviewAppend(a: seq<Record>, b: seq<Record>)
    ensures UnderReview(a + b) == UnderReview(a) + UnderReview(b)
  {
    if b != [] {
      assert (a + b)[..|a + b| - 1] == a + b[..|b| - 1];
      UnderReviewAppend(a, b[..|b| - 1]);
    } else {
      assert a + b == a;
    }
  }

  /** Over all tables the status counters never exceed the total. */
  lemma {:induction false} TallyBound(tables: map<string, TableDef>, collections: map<string, seq<Record>>,
                                      tableNames: seq<string>, user: nat)
    ensures var c := Tally(tables, collections, tableNames, user);
      c.accepted + c.rejected + c.pending <= c.total
  {
    if tableNames != [] {
      TallyBound(tables, collections, tableNames[..|tableNames| - 1], user);
      var key := LookupKey(tableNames[|tableNames| - 1]);
      if key in tables && key in collections {
        TallyRecordsMeaning(collections[key], user);
      }
    }
  }

  /**
   * Over all tables the status counters add up to the total when every
   * record the user submitted has one of the five known statuses.
   */
  lemma {:induction false} TallyComplete(tables: map<string, TableDef>, collections: map<string, seq<Record>>,
                                         tableNames: seq<string>, user: nat)
    requires forall k :: k in collections ==> AllKnown(Selected(collections[k], user))
    ensures var c := Tally(tables, collections, tableNames, user);
      c.accepted + c.rejected + c.pending == c.total
  {
    if tableNames != [] {
      TallyComplete(tables, collections, tableNames[..|tableNames| - 1], user);
      var key := LookupKey(tableNames[|tableNames| - 1]);
      if key in tables && key in collections {
        TallyRecordsComplete(collections[key], user);
      }
    }
  }

  /** A listed name whose lower-cased sanitised form is not registered adds nothing, whatever its records. */
  lemma UnregisteredContributesNothing(tables: map<string, TableDef>, collections: map<string, seq<Record>>,
                                       tableNames: seq<string>, name: string, user: nat)
    requires LookupKey(name) !in tables
    ensures Tally(tables, collections, tableNames + [name], user) == Tally(tables, collections, tableNames, user)
  {
    assert (tableNames + [name])[..|tableNames|] == tableNames;
  }

  /**
   * The case mismatch: a table `createSchema` registered under a name with an
   * upper-case letter is never found by the tally, so even a submitted,
   * approved record in it is not counted.
   */
  lemma {:induction false} MixedCaseTableSkipped(db: map<string, TableDef>, collections: map<string, seq<Record>>,
                                                 name: string, k: int, user: nat)
    requires 0 <= k < |Sanitize(name)| && 'A' <= Sanitize(name)[k] <= 'Z'
    requires db.Keys == {Sanitize(name)}
    ensures Tally(db, collections, [name], user) == Zero
  {
    LowerDiffers(Sanitize(name), k);
    var names := [name];
    assert names[..0] == [] && names[0] == name;
    assert TableCounts(db, collections, name, user) == Zero;
  }

  /** Upper-case letters make the lookup key differ from the registered name. */
  lemma LowerDiffers(s: string, k: int)
    requires 0 <= k < |s| && 'A' <= s[k] <= 'Z'
    ensures Lower(s) != s
  {
    assert Lower(s)[k] != s[k];
  }
}
