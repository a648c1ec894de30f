/** Synchronising the interface table with the catalogue: SyncAPIs in sql/bootstrap/catalog.go. */
module ApiCatalog {
  import opened Basics

  datatype API = API(path: string, verb: string, operation: string, module_: string, moduleDescription: string,
                     description: string, businessModule: string)

  function KeyOf(a: API): string {
    a.verb + " " + a.path
  }

  datatype Row = Row(api: API, status: string)

  datatype Line = Add(key: string) | Update(key: string)

  /** The report: the edits in catalogue order, and the keys of rows that the catalogue does not have.
      The source prints both as one sorted list. */
  datatype Report = Report(edits: seq<Line>, absent: set<string>)

  datatype SyncError = Ambiguous(key: string)

  type Rows = map<nat, Row>

  ghost predicate DistinctKeys(rows: Rows) {
    forall i, j :: i in rows && j in rows && KeyOf(rows[i].api) == KeyOf(rows[j].api) ==> i == j
  }

  ghost predicate CatalogDistinct(catalog: seq<API>) {
    forall i, j :: 0 <= i < j < |catalog| ==> KeyOf(catalog[i]) != KeyOf(catalog[j])
  }

  /** Method names without spaces make keys unambiguous. */
  ghost predicate KeysFit(catalog: seq<API>, rows: Rows) {
    && (forall a :: a in catalog ==> ' ' !in a.verb)
    && (forall i :: i in rows ==> ' ' !in rows[i].api.verb)
  }

  lemma {:induction false} KeyInjective(a: API, b: API)
    requires ' ' !in a.verb && ' ' !in b.verb && KeyOf(a) == KeyOf(b)
    ensures a.verb == b.verb && a.path == b.path
  {
    var k := KeyOf(a);
    assert k[|a.verb|] == ' ' && k[|b.verb|] == ' ';
    assert |a.verb| == |b.verb| by {
      assert forall i :: 0 <= i < |a.verb| ==> k[i] == a.verb[i];
      assert forall i :: 0 <= i < |b.verb| ==> k[i] == b.verb[i];
    }
    assert a.verb == k[..|a.verb|] && b.verb == k[..|b.verb|];
    assert a.path == k[|a.verb| + 1..] && b.path == k[|b.verb| + 1..];
  }

  /** The rows by key. */
  ghost predicate IndexOf(rows: Rows, existing: map<string, nat>) {
    && (forall k :: k in existing ==> existing[k] in rows && KeyOf(rows[existing[k]].api) == k)
    && (forall i :: i in rows ==> KeyOf(rows[i].api) in existing && existing[KeyOf(rows[i].api)] == i)
  }

  /** The edits of a catalogue against the rows still unmatched. */
  function Edits(catalog: seq<API>, rows: Rows, existing: map<string, nat>): seq<Line>
    requires forall k :: k in existing ==> existing[k] in rows
  {
    if catalog == [] then []
    else
      var a := catalog[0];
      var k := KeyOf(a);
      (if k !in existing then [Add(k)]
       else if rows[existing[k]].api == a then [] else [Update(k)])
      + Edits(catalog[1..], rows, existing - {k})
  }

  function CatalogKeys(catalog: seq<API>): set<string> {
    set a | a in catalog :: KeyOf(a)
  }

  ghost predicate HasRow(rows: Rows, a: API) {
    exists i :: i in rows && rows[i].api == a
  }

  ghost predicate Kept(before: Row, after: Row, keys: set<string>) {
    && after.status == before.status
    && KeyOf(after.api) == KeyOf(before.api)
    && (KeyOf(before.api) !in keys ==> after == before)
  }

  ghost predicate AllHaveRows(catalog: seq<API>, now: Rows) {
    forall a :: a in catalog ==> HasRow(now, a)
  }

  ghost predicate OldRowsKept(keys: set<string>, old_: Rows, now: Rows) {
    forall i :: i in old_ ==> i in now && Kept(old_[i], now[i], keys)
  }

  /** New rows come from the catalogue, under ids above all old ones and keys no old row had. */
  ghost predicate NewRowsFrom(catalog: seq<API>, old_: Rows, now: Rows) {
    forall i :: i in now && i !in old_ ==>
      && now[i].status == "ON" && now[i].api in catalog && (forall j :: j in old_ ==> j < i)
      && (forall j :: j in old_ ==> KeyOf(old_[j].api) != KeyOf(now[i].api))
  }

  /** What a real run leaves: every catalogue entry equals its row, old rows keep id and status and
      those absent from the catalogue everything, and nothing else is added. */
  ghost predicate Synced(catalog: seq<API>, old_: Rows, now: Rows) {
    && DistinctKeys(now)
    && AllHaveRows(catalog, now)
    && OldRowsKept(CatalogKeys(catalog), old_, now)
    && NewRowsFrom(catalog, old_, now)
  }

  class Database {
    var rows: Rows
    /** The next value of the id sequence; historical imports may have left it behind. */
    var sequence: nat

    constructor (initial: Rows, next: nat)
      ensures rows == initial && sequence == next
    {
      rows, sequence := initial, next;
    }

    method UpdateApi(id: nat, a: API)
      requires id in rows
      modifies this`rows
      ensures rows == old(rows)[id :=
        old(rows)[id].(api := a.(path := old(rows)[id].api.path, verb := old(rows)[id].api.verb))]
    {
      var r := rows[id];
      rows := rows[id := r.(api := a.(path := r.api.path, verb := r.api.verb))];
    }

    /** Moves the sequence past the largest id. */
    method AdvanceSequence()
      modifies this`sequence
      ensures sequence >= old(sequence)
      ensures forall i :: i in rows ==> i < sequence
    {
      var todo := rows.Keys;
      var max := 0;
      while todo != {}
        invariant todo <= rows.Keys
        invariant forall i :: i in rows && i !in todo ==> i <= max
        decreases todo
      {
        var i :| i in todo;
        todo := todo - {i};
        if i > max {
          max := i;
        }
      }
      sequence := if max + 1 > sequence then max + 1 else sequence;
    }

    method InsertApi(a: API)
      requires sequence !in rows
      modifies this
      ensures sequence == old(sequence) + 1
      ensures rows == old(rows)[old(sequence) := Row(a, "ON")]
    {
      rows := rows[sequence := Row(a, "ON")];
      sequence := sequence + 1;
    }
  }

  /** Reads the rows into a map by key, refusing two rows with one key. */
  method LoadExisting(rows: Rows) returns (r: Result<map<string, nat>, SyncError>)
    ensures r.Ok? <==> DistinctKeys(rows)
    ensures r.Ok? ==> IndexOf(rows, r.value)
  {
    var existing: map<string, nat> := map[];
    var todo := rows.Keys;
    while todo != {}
      invariant todo <= rows.Keys
      invariant IndexOf(rows - todo, existing)
      decreases todo
    {
      var i :| i in todo;
      var key := KeyOf(rows[i].api);
      if key in existing {
        assert existing[key] in rows - todo && existing[key] != i;
        return Err(Ambiguous(key));
      }
      assert forall j :: j in rows - (todo - {i}) <==> j == i || j in rows - todo;
      existing := existing[key := i];
      todo := todo - {i};
    }
    assert rows - todo == rows;
    return Ok(existing);
  }

  /** existing holds exactly the old rows whose keys are not among keys. */
  ghost predicate Unmatched(keys: set<string>, old_: Rows, existing: map<string, nat>) {
    && (forall k :: k in existing ==> existing[k] in old_ && KeyOf(old_[existing[k]].api) == k && k !in keys)
    && (forall i :: i in old_ && KeyOf(old_[i].api) !in keys ==>
          KeyOf(old_[i].api) in existing && existing[KeyOf(old_[i].api)] == i)
  }

  /** A real run after the entries in done. */
  ghost predicate InProgress(done: seq<API>, old_: Rows, now: Rows, existing: map<string, nat>) {
    Unmatched(CatalogKeys(done), old_, existing) && Synced(done, old_, now)
  }

  lemma {:induction false} KeysGrow(catalog: seq<API>, n: nat)
    requires n < |catalog| && CatalogDistinct(catalog)
    ensures CatalogKeys(catalog[..n + 1]) == CatalogKeys(catalog[..n]) + {KeyOf(catalog[n])}
    ensures KeyOf(catalog[n]) !in CatalogKeys(catalog[..n])
    ensures forall a :: a in catalog[..n] ==> KeyOf(a) in CatalogKeys(catalog[..n])
    ensures forall a :: a in catalog[..n + 1] <==> a in catalog[..n] || a == catalog[n]
  {
    assert catalog[..n + 1] == catalog[..n] + [catalog[n]];
    forall a | a in catalog[..n]
      ensures KeyOf(a) != KeyOf(catalog[n])
    {
      var i :| 0 <= i < n && catalog[i] == a;
    }
  }

  lemma {:induction false} MoreKeys(done: seq<API>, a: API)
    ensures CatalogKeys(done + [a]) == CatalogKeys(done) + {KeyOf(a)}
    ensures forall b :: b in done ==> KeyOf(b) in CatalogKeys(done)
  {
  }

  /** after is before with the row id put in for a: in place of the row with a's key, or new. */
  ghost predicate Put(before: Rows, after: Rows, a: API, id: nat) {
    && id in after && after[id].api == a
    && (forall i :: i in after <==> i in before || i == id)
    && (forall i :: i in before && i != id ==> after[i] == before[i] && KeyOf(before[i].api) != KeyOf(a))
    && (id in before ==> after[id].status == before[id].status && KeyOf(before[id].api) == KeyOf(a))
    && (id !in before ==> after[id].status == "ON" && forall i :: i in before ==> i < id)
  }

  lemma {:induction false} PutHasRows(done: seq<API>, a: API, id: nat, before: Rows, after: Rows)
    requires AllHaveRows(done, before) && Put(before, after, a, id) && KeyOf(a) !in CatalogKeys(done)
    ensures AllHaveRows(done + [a], after)
  {
    MoreKeys(done, a);
    hide KeyOf, CatalogKeys;
    forall b: API | b in done + [a]
      ensures HasRow(after, b)
    {
      if b in done {
        assert HasRow(before, b);
        var i :| i in before && before[i].api == b;
        assert i in after && after[i].api == b;
      }
    }
  }

  lemma {:induction false} PutKeepsOld(keys: set<string>, a: API, id: nat, old_: Rows, before: Rows, after: Rows)
    requires OldRowsKept(keys, old_, before) && Put(before, after, a, id)
    ensures OldRowsKept(keys + {KeyOf(a)}, old_, after)
  {
    hide KeyOf;
  }

  lemma {:induction false} PutAddsNew(done: seq<API>, a: API, id: nat, old_: Rows, before: Rows, after: Rows)
    requires NewRowsFrom(done, old_, before) && Put(before, after, a, id)
    requires forall i :: i in old_ ==> i in before && KeyOf(before[i].api) == KeyOf(old_[i].api)
    ensures NewRowsFrom(done + [a], old_, after)
  {
    hide KeyOf;
  }

  lemma {:induction false} PutDistinct(a: API, id: nat, before: Rows, after: Rows)
    requires DistinctKeys(before) && Put(before, after, a, id)
    ensures DistinctKeys(after)
  {
    hide KeyOf;
  }

  lemma {:induction false} StillUnmatched(keys: set<string>, k: string, old_: Rows, existing: map<string, nat>)
    requires Unmatched(keys, old_, existing)
    ensures Unmatched(keys + {k}, old_, existing - {k})
  {
    hide KeyOf;
  }

  /** One more entry has its row. */
  lemma {:induction false} EntryDone(done: seq<API>, a: API, id: nat, old_: Rows, before: Rows, after: Rows,
                                     existing: map<string, nat>)
    requires InProgress(done, old_, before, existing) && KeyOf(a) !in CatalogKeys(done)
    requires Put(before, after, a, id)
    ensures InProgress(done + [a], old_, after, existing - {KeyOf(a)})
  {
    MoreKeys(done, a);
    PutHasRows(done, a, id, before, after);
    PutKeepsOld(CatalogKeys(done), a, id, old_, before, after);
    PutAddsNew(done, a, id, old_, before, after);
    PutDistinct(a, id, before, after);
    StillUnmatched(CatalogKeys(done), KeyOf(a), old_, existing);
    hide KeyOf, CatalogKeys, Put, Unmatched, DistinctKeys, AllHaveRows, OldRowsKept, NewRowsFrom;
  }

  /** The row that has the key of the entry. */
  function Match(a: API, existing: map<string, nat>): Option<nat> {
    if KeyOf(a) in existing then Some(existing[KeyOf(a)]) else None
  }

  lemma {:induction false} RowOfEntry(catalog: seq<API>, n: nat, old_: Rows, now: Rows, existing: map<string, nat>)
    requires n < |catalog| && CatalogDistinct(catalog) && KeysFit(catalog, old_)
    requires InProgress(catalog[..n], old_, now, existing)
    ensures var a := catalog[n];
      var found := Match(a, existing);
      && Finds(now, a, found)
      && (found.Some? ==> found.value in old_ && now[found.value] == old_[found.value]
                          && ' ' !in a.verb && ' ' !in now[found.value].api.verb)
  {
    KeysGrow(catalog, n);
    MoreKeys(catalog[..n], catalog[n]);
    assert catalog[n] in catalog;
    hide CatalogKeys, KeyOf, AllHaveRows, CatalogDistinct;
  }

  /** The row a catalogue entry matches, or none: no other row has its key. */
  ghost predicate Finds(rows: Rows, a: API, found: Option<nat>) {
    && (found.Some? ==> found.value in rows && KeyOf(rows[found.value].api) == KeyOf(a))
    && (forall i :: i in rows && found != Some(i) ==> KeyOf(rows[i].api) != KeyOf(a))
  }

  /** One catalogue entry of a real run whose row is missing or differs. */
  method SyncEntry(db: Database, a: API, found: Option<nat>, checked: bool) returns (now: bool, ghost id: nat)
    requires found.Some? ==> found.value in db.rows
    requires checked ==> forall i :: i in db.rows ==> i < db.sequence
    modifies db
    ensures old(db.rows.Keys) <= db.rows.Keys
    ensures && Finds(old(db.rows), a, found)
            && (found.Some? ==> ' ' !in a.verb && ' ' !in old(db.rows)[found.value].api.verb) ==>
      Put(old(db.rows), db.rows, a, id)
    ensures now ==> forall i :: i in db.rows ==> i < db.sequence
  {
    now := checked;
    if found.Some? {
      id := found.value;
      if Finds(db.rows, a, found) && ' ' !in a.verb && ' ' !in db.rows[id].api.verb {
        KeyInjective(a, db.rows[id].api);
      }
      db.UpdateApi(found.value, a);
      return;
    }
    if !checked {
      db.AdvanceSequence();
      now := true;
    }
    id := db.sequence;
    db.InsertApi(a);
  }

  /** The report of a run that starts from the rows. */
  ghost predicate IsReport(catalog: seq<API>, rows: Rows, report: Report) {
    && (exists existing :: IndexOf(rows, existing) && report.edits == Edits(catalog, rows, existing))
    && report.absent == (set i | i in rows :: KeyOf(rows[i].api)) - CatalogKeys(catalog)
  }

  /** The line for one entry, if its row is missing or differs. */
  function EditOf(a: API, rows: Rows, found: Option<nat>): seq<Line>
    requires found.Some? ==> found.value in rows
  {
    if found.None? then [Add(KeyOf(a))] else if rows[found.value].api == a then [] else [Update(KeyOf(a))]
  }

  lemma {:induction false} FoundIsRow(a: API, rows: Rows, found: Option<nat>)
    requires found.Some? ==> found.value in rows
    ensures EditOf(a, rows, found) == [] <==> found.Some? && rows[found.value].api == a
  {
  }

  /** However the entry was handled, its row holds it afterwards. */
  lemma {:induction false} EntryWritten(catalog: seq<API>, n: nat, rows: Rows, before: Rows, after: Rows,
                                        existing: map<string, nat>, id: nat)
    requires n < |catalog| && forall k :: k in existing ==> existing[k] in rows && existing[k] in before
    requires var a := catalog[n]; var found := Match(a, existing);
      if EditOf(a, rows, found) == [] then found == Some(id) && rows[id].api == a && after == before
      else Finds(before, a, found) && (found.Some? ==> ' ' !in a.verb && ' ' !in before[found.value].api.verb) ==>
        Put(before, after, a, id)
    ensures CatalogDistinct(catalog) && KeysFit(catalog, rows) && InProgress(catalog[..n], rows, before, existing) ==>
      InProgress(catalog[..n + 1], rows, after, existing - {KeyOf(catalog[n])})
  {
    var a := catalog[n];
    if CatalogDistinct(catalog) && KeysFit(catalog, rows) && InProgress(catalog[..n], rows, before, existing) {
      RowOfEntry(catalog, n, rows, before, existing);
      KeysGrow(catalog, n);
      hide InProgress, CatalogKeys, CatalogDistinct, KeysFit, KeyOf, EditOf;
      assert catalog[..n + 1] == catalog[..n] + [a];
      EntryDone(catalog[..n], a, id, rows, before, after, existing);
    }
  }

  /** The writes for one entry. */
  method WriteEntry(db: Database, catalog: seq<API>, n: nat, rows: Rows, existing: map<string, nat>,
                    checked: bool) returns (now: bool)
    requires n < |catalog|
    requires forall k :: k in existing ==> existing[k] in rows && existing[k] in db.rows
    requires checked ==> forall i :: i in db.rows ==> i < db.sequence
    modifies db
    ensures old(db.rows.Keys) <= db.rows.Keys
    ensures && CatalogDistinct(catalog) && KeysFit(catalog, rows)
            && InProgress(catalog[..n], rows, old(db.rows), existing) ==>
      InProgress(catalog[..n + 1], rows, db.rows, existing - {KeyOf(catalog[n])})
    ensures now ==> forall i :: i in db.rows ==> i < db.sequence
  {
    hide InProgress, CatalogDistinct, KeysFit, KeyOf, EditOf, Finds, Put;
    var a := catalog[n];
    ghost var before := db.rows;
    var found := Match(a, existing);
    FoundIsRow(a, rows, found);
    now := checked;
    ghost var id;
    if EditOf(a, rows, found) != [] {
      now, id := SyncEntry(db, a, found, checked);
    } else {
      id := found.value;
    }
    EntryWritten(catalog, n, rows, before, db.rows, existing, id);
  }

  /** SyncAPIs. A dry run and a real run from the same rows give the same report; the dry run writes
      nothing, and no run loses a row. On a catalogue with distinct, unambiguous keys a real run
      converges. */
  method SyncAPIs(db: Database, catalog: seq<API>, dryRun: bool) returns (r: Result<Report, SyncError>)
    modifies db
    ensures r.Ok? <==> DistinctKeys(old(db.rows))
    ensures r.Err? || dryRun ==> db.rows == old(db.rows)
    ensures r.Ok? ==> IsReport(catalog, old(db.rows), r.value)
    ensures old(db.rows.Keys) <= db.rows.Keys
    ensures r.Ok? && !dryRun && CatalogDistinct(catalog) && KeysFit(catalog, old(db.rows)) ==>
      Synced(catalog, old(db.rows), db.rows)
  {
    hide *;
    var rows := db.rows;
    var loaded := LoadExisting(rows);
    if loaded.Err? {
      return Err(loaded.error);
    }
    var existing := loaded.value;
    ghost var index := existing;
    ghost var good := CatalogDistinct(catalog) && KeysFit(catalog, rows) && !dryRun;
    var edits: seq<Line> := [];
    var checked := false;
    assert catalog[..0] == [] && catalog[0..] == catalog;
    Starts(catalog, rows, index);
    for n := 0 to |catalog|
      invariant good ==> InProgress(catalog[..n], rows, db.rows, existing)
      invariant forall k :: k in existing ==> existing[k] in rows
      invariant existing == index - CatalogKeys(catalog[..n])
      invariant dryRun ==> db.rows == rows
      invariant rows.Keys <= db.rows.Keys
      invariant checked && !dryRun ==> forall i :: i in db.rows ==> i < db.sequence
      invariant edits + Edits(catalog[n..], rows, existing) == Edits(catalog, rows, index)
    {
      var a := catalog[n];
      PrefixKeys(catalog, n);
      EditsStep(catalog, n, rows, existing);
      var found := if KeyOf(a) in existing then Some(existing[KeyOf(a)]) else None;
      if !dryRun {
        checked := WriteEntry(db, catalog, n, rows, existing, checked);
      }
      ghost var rest := Edits(catalog[n + 1..], rows, existing - {KeyOf(a)});
      assert edits + (EditOf(a, rows, found) + rest) == (edits + EditOf(a, rows, found)) + rest;
      edits := edits + EditOf(a, rows, found);
      existing := existing - {KeyOf(a)};
    }
    assert catalog[..|catalog|] == catalog && catalog[|catalog|..] == [];
    MakeReport(catalog, rows, index, edits, existing);
    if good {
      Finished(catalog, rows, db.rows, existing);
    }
    return Ok(Report(edits, existing.Keys));
  }

  lemma {:induction false} PrefixKeys(catalog: seq<API>, n: nat)
    requires n < |catalog|
    ensures CatalogKeys(catalog[..n + 1]) == CatalogKeys(catalog[..n]) + {KeyOf(catalog[n])}
  {
    assert catalog[..n + 1] == catalog[..n] + [catalog[n]];
  }

  lemma {:induction false} Finished(catalog: seq<API>, old_: Rows, now: Rows, existing: map<string, nat>)
    requires InProgress(catalog, old_, now, existing)
    ensures Synced(catalog, old_, now)
  {
  }

  lemma {:induction false} MakeReport(catalog: seq<API>, rows: Rows, index: map<string, nat>, edits: seq<Line>,
                                      left: map<string, nat>)
    requires IndexOf(rows, index) && left == index - CatalogKeys(catalog)
    requires (forall k :: k in left ==> left[k] in rows) && edits + Edits([], rows, left) == Edits(catalog, rows, index)
    ensures IsReport(catalog, rows, Report(edits, left.Keys))
  {
    assert edits + Edits([], rows, left) == edits;
    hide KeyOf, Edits, CatalogKeys;
    assert index.Keys == set i | i in rows :: KeyOf(rows[i].api);
  }

  lemma {:induction false} EditsStep(catalog: seq<API>, n: nat, rows: Rows, existing: map<string, nat>)
    requires n < |catalog| && forall k :: k in existing ==> existing[k] in rows
    ensures var k := KeyOf(catalog[n]);
      Edits(catalog[n..], rows, existing)
        == EditOf(catalog[n], rows, if k in existing then Some(existing[k]) else None)
           + Edits(catalog[n + 1..], rows, existing - {k})
  {
    assert catalog[n..][1..] == catalog[n + 1..];
  }

  lemma {:induction false} Starts(catalog: seq<API>, rows: Rows, index: map<string, nat>)
    requires IndexOf(rows, index) && DistinctKeys(rows)
    ensures InProgress(catalog[..0], rows, rows, index)
    ensures index - CatalogKeys(catalog[..0]) == index
    ensures forall k :: k in index ==> index[k] in rows
  {
    assert catalog[..0] == [];
  }

  /** A line of the report, and the catalogue entry it is about: an entry whose key no row has, or an
      earlier entry took, is added; the first with the key of a row that differs updates it. */
  ghost predicate IsLine(catalog: seq<API>, rows: Rows, n: nat, l: Line) {
    n < |catalog| && var k := KeyOf(catalog[n]);
      var taken := exists j :: 0 <= j < n && KeyOf(catalog[j]) == k;
      if taken || forall i :: i in rows ==> KeyOf(rows[i].api) != k then l == Add(k)
      else l == Update(k) && forall i :: i in rows && KeyOf(rows[i].api) == k ==> rows[i].api != catalog[n]
  }

  /** The same while rows are looked up in a map. */
  ghost predicate IsEdit(catalog: seq<API>, rows: Rows, existing: map<string, nat>, n: nat, l: Line)
    requires forall k :: k in existing ==> existing[k] in rows
  {
    n < |catalog| && var k := KeyOf(catalog[n]);
      if k !in existing || exists j :: 0 <= j < n && KeyOf(catalog[j]) == k then l == Add(k)
      else l == Update(k) && rows[existing[k]].api != catalog[n]
  }

  lemma {:induction false} EditsIff(catalog: seq<API>, rows: Rows, existing: map<string, nat>, l: Line)
    requires forall k :: k in existing ==> existing[k] in rows
    ensures l in Edits(catalog, rows, existing) <==> exists n :: IsEdit(catalog, rows, existing, n, l)
  {
    if catalog != [] {
      var k := KeyOf(catalog[0]);
      EditsIff(catalog[1..], rows, existing - {k}, l);
      forall n: nat | n > 0
        ensures IsEdit(catalog, rows, existing, n, l) <==> IsEdit(catalog[1..], rows, existing - {k}, n - 1, l)
      {
        EditLater(catalog, rows, existing, n, l);
      }
      hide KeyOf;
      if n: nat :| IsEdit(catalog[1..], rows, existing - {k}, n, l) {
        assert IsEdit(catalog, rows, existing, n + 1, l);
      }
      assert IsEdit(catalog, rows, existing, 0, l) <==>
        l in if k !in existing then [Add(k)] else if rows[existing[k]].api == catalog[0] then [] else [Update(k)];
    }
  }

  lemma {:induction false} EditLater(catalog: seq<API>, rows: Rows, existing: map<string, nat>, n: nat, l: Line)
    requires catalog != [] && n > 0 && forall k :: k in existing ==> existing[k] in rows
    ensures IsEdit(catalog, rows, existing, n, l) <==>
            IsEdit(catalog[1..], rows, existing - {KeyOf(catalog[0])}, n - 1, l)
  {
    hide KeyOf;
    if n < |catalog| {
      var k, k0 := KeyOf(catalog[n]), KeyOf(catalog[0]);
      assert catalog[1..][n - 1] == catalog[n];
      if j :| 0 <= j < n && KeyOf(catalog[j]) == k {
        assert j > 0 ==> catalog[1..][j - 1] == catalog[j];
      }
      if j :| 0 <= j < n - 1 && KeyOf(catalog[1..][j]) == k {
        assert catalog[j + 1] == catalog[1..][j];
      }
    }
  }

  /** The lines of a report are these and no others, and it names as absent exactly the keys of rows that
      no entry has. */
  lemma {:induction false} ReportLines(catalog: seq<API>, rows: Rows, report: Report, l: Line, k: string)
    requires IsReport(catalog, rows, report)
    ensures l in report.edits <==> exists n :: IsLine(catalog, rows, n, l)
    ensures k in report.absent <==>
      (exists i :: i in rows && KeyOf(rows[i].api) == k) && forall a :: a in catalog ==> KeyOf(a) != k
  {
    var existing :| IndexOf(rows, existing) && report.edits == Edits(catalog, rows, existing);
    EditsIff(catalog, rows, existing, l);
    forall n: nat ensures IsEdit(catalog, rows, existing, n, l) <==> IsLine(catalog, rows, n, l) {
      LineIsEdit(catalog, rows, existing, n, l);
    }
    hide KeyOf, Edits, IsEdit, IsLine;
  }

  lemma {:induction false} LineIsEdit(catalog: seq<API>, rows: Rows, existing: map<string, nat>, n: nat, l: Line)
    requires IndexOf(rows, existing)
    ensures IsEdit(catalog, rows, existing, n, l) <==> IsLine(catalog, rows, n, l)
  {
    hide KeyOf;
    if n < |catalog| {
      var k := KeyOf(catalog[n]);
      assert k in existing <==> exists i :: i in rows && KeyOf(rows[i].api) == k;
      assert k in existing ==> forall i :: i in rows && KeyOf(rows[i].api) == k ==> i == existing[k];
    }
  }

  /** A second run on a table that one run has left: nothing to add or update. */
  lemma {:induction false} SecondSyncDoesNothing(catalog: seq<API>, old_: Rows, now: Rows, report: Report)
    requires CatalogDistinct(catalog) && Synced(catalog, old_, now) && IsReport(catalog, now, report)
    ensures report.edits == []
  {
    var existing :| IndexOf(now, existing) && report.edits == Edits(catalog, now, existing);
    NoEdits(catalog, now, existing);
  }

  lemma {:induction false} NoEdits(catalog: seq<API>, now: Rows, existing: map<string, nat>)
    requires CatalogDistinct(catalog)
    requires forall k :: k in existing ==> existing[k] in now
    requires forall a :: a in catalog ==> KeyOf(a) in existing && now[existing[KeyOf(a)]].api == a
    ensures Edits(catalog, now, existing) == []
  {
    if catalog != [] {
      var rest := existing - {KeyOf(catalog[0])};
      assert catalog[0] in catalog;
      forall a | a in catalog[1..]
        ensures KeyOf(a) in rest && now[rest[KeyOf(a)]].api == a
      {
        assert a in catalog && KeyOf(a) != KeyOf(catalog[0]);
      }
      NoEdits(catalog[1..], now, rest);
    }
  }
}
