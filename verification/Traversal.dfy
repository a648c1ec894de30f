/** Whole traversals: calls of ListWithCursor chained through next_cursor, with any rows inserted,
    deleted or changed between calls and any valid limit on each call. */
module Traversal {
  import opened Basics
  import opened CursorCodec
  import opened Keyset
  import opened CursorListing

  datatype Call = Call(table: seq<Row>, req: Request, page: RowPage)

  datatype Listing = Listing(env: Env, spec: Spec, binding: Binding, filter: Row -> bool)

  /** Every call is answered by ListRows on the table of its moment; the first has no cursor, and
      each later one hands back the cursor of the one before. */
  ghost predicate IsChain(l: Listing, calls: seq<Call>) {
    && l.env.Valid()
    && calls != []
    && calls[0].req.cursor == ""
    && (forall k: nat :: k < |calls| ==> Answers(l, calls, k))
    && (forall k: nat :: k + 1 < |calls| ==> Follows(calls, k))
  }

  ghost predicate Answered(l: Listing, c: Call) {
    ValidRows(l.spec, c.table) && ListRows(l.env, l.spec, l.binding, l.filter, c.table, c.req) == Ok(c.page)
  }

  ghost predicate Answers(l: Listing, calls: seq<Call>, k: nat)
    requires k < |calls|
  {
    Answered(l, calls[k])
  }

  /** Call k + 1 hands back the cursor that call k answered with. */
  ghost predicate Follows(calls: seq<Call>, k: nat)
    requires k + 1 < |calls|
  {
    calls[k].page.next != "" && calls[k + 1].req.cursor == calls[k].page.next
  }

  /** The chain was followed until a page came back without a cursor. */
  ghost predicate IsTraversal(l: Listing, calls: seq<Call>) {
    IsChain(l, calls) && calls[|calls| - 1].page.next == ""
  }

  function LastPos(spec: Spec, rows: seq<Row>): Pos
    requires rows != []
  {
    PosOf(spec, rows[|rows| - 1])
  }

  function Start(l: Listing, calls: seq<Call>, k: nat): Option<Pos>
    requires k < |calls|
  {
    if k == 0 || calls[k - 1].page.rows == [] then None else Some(LastPos(l.spec, calls[k - 1].page.rows))
  }

  /** What a chain comes to, without tokens and queries: call k shows the page after the last row
      of call k - 1. */
  ghost predicate ChainStep(l: Listing, calls: seq<Call>, k: nat)
    requires k < |calls|
  {
    && IsPage(l.spec, l.filter, calls[k].table, Start(l, calls, k), calls[k].page.rows, calls[k].page.next != "")
    && (forall q :: q in calls[k].page.rows ==> PosFits(l.spec, PosOf(l.spec, q)))
    && (k + 1 < |calls| ==> calls[k].page.next != "")
    && (k > 0 ==> calls[k - 1].page.rows != [])
  }

  ghost predicate IsPageChain(l: Listing, calls: seq<Call>) {
    forall k: nat :: k < |calls| ==> ChainStep(l, calls, k)
  }

  lemma {:induction false} ChainIsPageChain(l: Listing, calls: seq<Call>)
    requires IsChain(l, calls)
    ensures IsPageChain(l, calls)
  {
    hide *;
    forall k: nat | k < |calls|
      ensures ChainStep(l, calls, k)
    {
      ChainStepHolds(l, calls, k);
    }
    AllSteps(l, calls);
  }

  lemma {:induction false} AllSteps(l: Listing, calls: seq<Call>)
    requires forall k: nat :: k < |calls| ==> ChainStep(l, calls, k)
    ensures IsPageChain(l, calls)
  {
    hide ChainStep;
  }

  lemma {:induction false} ChainStepHolds(l: Listing, calls: seq<Call>, k: nat)
    requires IsChain(l, calls) && k < |calls|
    ensures ChainStep(l, calls, k)
  {
    hide *;
    ChainLinks(l, calls, k);
    CallAnswered(l, calls, k);
    CallPage(l, calls[k]);
    if k > 0 {
      CallAnswered(l, calls, k - 1);
      CallPage(l, calls[k - 1]);
    }
    StepFromPages(l, calls, k);
  }

  lemma {:induction false} ChainLinks(l: Listing, calls: seq<Call>, k: nat)
    requires IsChain(l, calls) && k < |calls|
    ensures l.env.Valid()
    ensures k == 0 ==> calls[k].req.cursor == ""
    ensures k + 1 < |calls| ==> calls[k].page.next != ""
    ensures k > 0 ==> calls[k - 1].page.next != "" && calls[k].req.cursor == calls[k - 1].page.next
  {
    hide Answered, Answers, Env.Valid;
    assert k + 1 < |calls| ==> Follows(calls, k);
    assert k > 0 ==> Follows(calls, k - 1);
  }

  lemma {:induction false} StepFromPages(l: Listing, calls: seq<Call>, k: nat)
    requires k < |calls| && (k == 0 ==> calls[k].req.cursor == "") && (k + 1 < |calls| ==> calls[k].page.next != "")
    requires k > 0 ==> calls[k - 1].page.rows != []
    requires StartOf(l.env, l.spec, l.binding, calls[k].req.cursor).Ok?
    requires k > 0 ==>
      StartOf(l.env, l.spec, l.binding, calls[k].req.cursor) == Ok(Some(LastPos(l.spec, calls[k - 1].page.rows)))
    requires IsPage(l.spec, l.filter, calls[k].table, StartOf(l.env, l.spec, l.binding, calls[k].req.cursor).value,
                    calls[k].page.rows, calls[k].page.next != "")
    requires forall q :: q in calls[k].page.rows ==> PosFits(l.spec, PosOf(l.spec, q))
    ensures ChainStep(l, calls, k)
  {
    hide IsPage, PosFits, DecodeCursor;
  }

  lemma {:induction false} CallAnswered(l: Listing, calls: seq<Call>, k: nat)
    requires IsChain(l, calls) && k < |calls|
    ensures Answered(l, calls[k])
  {
    hide Answered;
    assert Answers(l, calls, k);
  }

  lemma {:induction false} CallPage(l: Listing, c: Call)
    requires l.env.Valid() && Answered(l, c)
    ensures StartOf(l.env, l.spec, l.binding, c.req.cursor).Ok?
    ensures IsPage(l.spec, l.filter, c.table, StartOf(l.env, l.spec, l.binding, c.req.cursor).value, c.page.rows,
      c.page.next != "")
    ensures c.page.next != "" ==>
      c.page.rows != [] && StartOf(l.env, l.spec, l.binding, c.page.next) == Ok(Some(LastPos(l.spec, c.page.rows)))
    ensures forall q :: q in c.page.rows ==> PosFits(l.spec, PosOf(l.spec, q))
  {
    CallMeaning(l.env, l.spec, l.binding, l.filter, c.table, c.req);
  }

  lemma {:induction false} RowFits(l: Listing, calls: seq<Call>, k: nat, a: nat)
    requires IsPageChain(l, calls) && k < |calls| && a < |calls[k].page.rows|
    ensures PosFits(l.spec, PosOf(l.spec, calls[k].page.rows[a]))
    ensures After(l.spec, Start(l, calls, k), calls[k].page.rows[a])
    ensures a + 1 < |calls[k].page.rows| ==>
      Before(l.spec, PosOf(l.spec, calls[k].page.rows[a]), LastPos(l.spec, calls[k].page.rows))
  {
    assert ChainStep(l, calls, k);
    var q := calls[k].page.rows[a];
    assert q in calls[k].page.rows;
    assert Eligible(l.spec, l.filter, calls[k].table, Start(l, calls, k), q);
  }

  /** The last row of call j - 1 comes before every row of call j. */
  lemma {:induction false} NextPageIsAfter(l: Listing, calls: seq<Call>, j: nat, b: nat)
    requires IsPageChain(l, calls) && 0 < j < |calls| && b < |calls[j].page.rows|
    ensures calls[j - 1].page.rows != []
    ensures Before(l.spec, LastPos(l.spec, calls[j - 1].page.rows), PosOf(l.spec, calls[j].page.rows[b]))
  {
    assert ChainStep(l, calls, j);
    RowFits(l, calls, j, b);
  }

  /** A row shown later comes strictly after every row shown by an earlier call. */
  lemma {:induction false} LaterIsAfter(l: Listing, calls: seq<Call>, k: nat, a: nat, j: nat, b: nat)
    requires IsPageChain(l, calls) && k < j < |calls|
    requires a < |calls[k].page.rows| && b < |calls[j].page.rows|
    ensures Before(l.spec, PosOf(l.spec, calls[k].page.rows[a]), PosOf(l.spec, calls[j].page.rows[b]))
    decreases j, 0
  {
    NextPageIsAfter(l, calls, j, b);
    var i := |calls[j - 1].page.rows| - 1;
    if k < j - 1 || a < i {
      BeforeLastOf(l, calls, k, a, j - 1);
      RowFits(l, calls, k, a);
      RowFits(l, calls, j - 1, i);
      RowFits(l, calls, j, b);
      BeforeTransitive(l.spec, PosOf(l.spec, calls[k].page.rows[a]), LastPos(l.spec, calls[j - 1].page.rows),
                       PosOf(l.spec, calls[j].page.rows[b]));
    }
  }

  lemma {:induction false} BeforeLastOf(l: Listing, calls: seq<Call>, k: nat, a: nat, j: nat)
    requires IsPageChain(l, calls) && k <= j < |calls|
    requires a < |calls[k].page.rows| && calls[j].page.rows != []
    requires k < j || a + 1 < |calls[j].page.rows|
    ensures Before(l.spec, PosOf(l.spec, calls[k].page.rows[a]), LastPos(l.spec, calls[j].page.rows))
    decreases j, 1
  {
    if k < j {
      LaterIsAfter(l, calls, k, a, j, |calls[j].page.rows| - 1);
    } else {
      RowFits(l, calls, k, a);
    }
  }

  /** No row whose sort key did not change is shown twice, whatever happened to the table between
      the calls, even to the row the cursor came from. */
  lemma {:induction false} NoRowTwice(l: Listing, calls: seq<Call>, k: nat, a: nat, j: nat, b: nat)
    requires IsChain(l, calls) && k < |calls| && j < |calls|
    requires a < |calls[k].page.rows| && b < |calls[j].page.rows|
    requires PosOf(l.spec, calls[k].page.rows[a]) == PosOf(l.spec, calls[j].page.rows[b])
    ensures k == j && a == b
  {
    ChainIsPageChain(l, calls);
    PositionsDiffer(l, calls, k, a, j, b);
  }

  lemma {:induction false} PositionsDiffer(l: Listing, calls: seq<Call>, k: nat, a: nat, j: nat, b: nat)
    requires IsPageChain(l, calls) && k < |calls| && j < |calls|
    requires a < |calls[k].page.rows| && b < |calls[j].page.rows|
    requires PosOf(l.spec, calls[k].page.rows[a]) == PosOf(l.spec, calls[j].page.rows[b])
    ensures k == j && a == b
  {
    var p := PosOf(l.spec, calls[k].page.rows[a]);
    RowFits(l, calls, k, a);
    BeforeOrder(l.spec, p, p, p);
    if k < j {
      LaterIsAfter(l, calls, k, a, j, b);
    } else if j < k {
      LaterIsAfter(l, calls, j, b, k, a);
    } else {
      assert ChainStep(l, calls, k);
    }
  }

  /** A matching row with this id and sort key is in the table. */
  ghost predicate Present(l: Listing, table: seq<Row>, p: Pos) {
    exists r :: r in table && l.filter(r) && PosOf(l.spec, r) == p
  }

  ghost predicate ShownAt(l: Listing, calls: seq<Call>, p: Pos, k: nat, a: nat) {
    k < |calls| && a < |calls[k].page.rows| && PosOf(l.spec, calls[k].page.rows[a]) == p
  }

  lemma {:induction false} FindRow(l: Listing, calls: seq<Call>, p: Pos, k: nat) returns (j: nat, a: nat)
    requires IsPageChain(l, calls) && k < |calls| && calls[|calls| - 1].page.next == ""
    requires forall i :: k <= i < |calls| ==> Present(l, calls[i].table, p)
    requires Start(l, calls, k).None? || Before(l.spec, Start(l, calls, k).value, p)
    ensures ShownAt(l, calls, p, j, a)
    decreases |calls| - k
  {
    assert ChainStep(l, calls, k);
    assert Present(l, calls[k].table, p);
    var r :| r in calls[k].table && l.filter(r) && PosOf(l.spec, r) == p;
    assert Eligible(l.spec, l.filter, calls[k].table, Start(l, calls, k), r);
    if r in calls[k].page.rows {
      j := k;
      a :| 0 <= a < |calls[k].page.rows| && calls[k].page.rows[a] == r;
    } else {
      j, a := FindRow(l, calls, p, k + 1);
    }
  }

  /** A matching row that is in the table at every call, with the same sort key, is shown exactly
      once by a traversal followed to its end. */
  lemma {:induction false} StableRowShownOnce(l: Listing, calls: seq<Call>, p: Pos)
    requires IsTraversal(l, calls)
    requires forall i :: 0 <= i < |calls| ==> Present(l, calls[i].table, p)
    ensures exists k, a :: ShownAt(l, calls, p, k, a)
    ensures forall k, a, j, b :: ShownAt(l, calls, p, k, a) && ShownAt(l, calls, p, j, b) ==> k == j && a == b
  {
    ChainIsPageChain(l, calls);
    var k, a := FindRow(l, calls, p, 0);
    forall k, a, j, b | ShownAt(l, calls, p, k, a) && ShownAt(l, calls, p, j, b)
      ensures k == j && a == b
    {
      PositionsDiffer(l, calls, k, a, j, b);
    }
  }

  // ---------- A table that does not change ----------

  function PagesFrom(calls: seq<Call>, k: nat): seq<Row>
    requires k <= |calls|
    decreases |calls| - k
  {
    if k == |calls| then [] else calls[k].page.rows + PagesFrom(calls, k + 1)
  }

  /** What a single unlimited query would answer. */
  function FullListing(l: Listing, table: seq<Row>): seq<Row> {
    SortRows(l.spec, OrderTerms(l.spec), Select(table, l.filter))
  }

  /** The pages from call k on are the eligible rows after its start, in order. */
  ghost predicate Covers(l: Listing, calls: seq<Call>, table: seq<Row>, k: nat)
    requires k < |calls|
  {
    && SortedRows(l.spec, PagesFrom(calls, k))
    && forall q :: q in PagesFrom(calls, k) <==> Eligible(l.spec, l.filter, table, Start(l, calls, k), q)
  }

  lemma {:induction false} LastPage(l: Listing, calls: seq<Call>, table: seq<Row>, k: nat)
    requires IsPageChain(l, calls) && k + 1 == |calls| && calls[k].page.next == "" && calls[k].table == table
    ensures Covers(l, calls, table, k)
  {
    assert ChainStep(l, calls, k);
    hide IsPageChain, PosOf, Start, PosFits;
    assert PagesFrom(calls, k) == calls[k].page.rows + [];
  }

  lemma {:induction false} RemainingPages(l: Listing, calls: seq<Call>, table: seq<Row>, k: nat)
    requires IsPageChain(l, calls) && k < |calls| && calls[|calls| - 1].page.next == ""
    requires ValidRows(l.spec, table)
    requires forall i :: 0 <= i < |calls| ==> calls[i].table == table
    ensures Covers(l, calls, table, k)
    decreases |calls| - k
  {
    hide *;
    if k + 1 == |calls| {
      LastPage(l, calls, table, k);
    } else {
      RemainingPages(l, calls, table, k + 1);
      JoinPages(l, calls, table, k);
    }
  }

  lemma {:induction false} JoinPages(l: Listing, calls: seq<Call>, table: seq<Row>, k: nat)
    requires IsPageChain(l, calls) && k + 1 < |calls| && ValidRows(l.spec, table)
    requires calls[k].table == table
    requires Covers(l, calls, table, k + 1)
    ensures Covers(l, calls, table, k)
  {
    assert ChainStep(l, calls, k);
    var rows, rest := calls[k].page.rows, PagesFrom(calls, k + 1);
    assert rows[|rows| - 1] in rows;
    forall r | r in rest
      ensures forall q :: q in rows ==> Before(l.spec, PosOf(l.spec, q), PosOf(l.spec, r))
      ensures Eligible(l.spec, l.filter, table, Start(l, calls, k), r)
    {
      assert Eligible(l.spec, l.filter, table, Start(l, calls, k + 1), r);
      AfterLast(l.spec, rows, r);
      StartBeforeRow(l, calls, k, r);
    }
    JoinSorted(l.spec, rows, rest);
    forall q | Eligible(l.spec, l.filter, table, Start(l, calls, k), q)
      ensures q in rows + rest
    {
      if q !in rows {
        assert Eligible(l.spec, l.filter, table, Start(l, calls, k + 1), q);
      }
    }
  }

  /** What comes after the last row of a sorted page comes after every row of it. */
  lemma {:induction false} AfterLast(spec: Spec, rows: seq<Row>, r: Row)
    requires rows != [] && SortedRows(spec, rows) && PosFits(spec, PosOf(spec, r))
    requires forall q :: q in rows ==> PosFits(spec, PosOf(spec, q))
    requires Before(spec, LastPos(spec, rows), PosOf(spec, r))
    ensures forall q :: q in rows ==> Before(spec, PosOf(spec, q), PosOf(spec, r))
  {
    assert rows[|rows| - 1] in rows;
    forall q | q in rows
      ensures Before(spec, PosOf(spec, q), PosOf(spec, r))
    {
      UpToLast(spec, rows, q);
      if PosOf(spec, q) != LastPos(spec, rows) {
        BeforeTransitive(spec, PosOf(spec, q), LastPos(spec, rows), PosOf(spec, r));
      }
    }
  }

  lemma {:induction false} StartBeforeRow(l: Listing, calls: seq<Call>, k: nat, r: Row)
    requires IsPageChain(l, calls) && k < |calls| && calls[k].page.rows != []
    requires PosFits(l.spec, PosOf(l.spec, r))
    requires Before(l.spec, LastPos(l.spec, calls[k].page.rows), PosOf(l.spec, r))
    ensures After(l.spec, Start(l, calls, k), r)
  {
    RowFits(l, calls, k, |calls[k].page.rows| - 1);
    if k > 0 {
      assert ChainStep(l, calls, k);
      RowFits(l, calls, k - 1, |calls[k - 1].page.rows| - 1);
      BeforeTransitive(l.spec, Start(l, calls, k).value, LastPos(l.spec, calls[k].page.rows), PosOf(l.spec, r));
    }
  }

  lemma {:induction false} UpToLast(spec: Spec, rows: seq<Row>, q: Row)
    requires SortedRows(spec, rows) && q in rows
    ensures PosOf(spec, q) == LastPos(spec, rows) || Before(spec, PosOf(spec, q), LastPos(spec, rows))
  {
    var i :| 0 <= i < |rows| && rows[i] == q;
    if i < |rows| - 1 {
      assert Before(spec, PosOf(spec, rows[i]), PosOf(spec, rows[|rows| - 1]));
    }
  }

  lemma {:induction false} JoinSorted(spec: Spec, a: seq<Row>, b: seq<Row>)
    requires SortedRows(spec, a) && SortedRows(spec, b)
    requires forall q, r :: q in a && r in b ==> Before(spec, PosOf(spec, q), PosOf(spec, r))
    ensures SortedRows(spec, a + b)
  {
  }

  lemma {:induction false} HasMember(s: seq<Row>)
    ensures s != [] ==> exists q :: q in s
  {
    if s != [] {
      assert s[0] in s;
    }
  }

  /** Two sorted sequences with the same rows are equal. */
  lemma {:induction false} SortedUnique(spec: Spec, a: seq<Row>, b: seq<Row>)
    requires SortedRows(spec, a) && SortedRows(spec, b)
    requires forall q :: q in a ==> PosFits(spec, PosOf(spec, q))
    requires forall q :: q in a <==> q in b
    ensures a == b
  {
    if a == [] {
      HasMember(b);
    } else {
      assert a[0] in a && a[0] in b && b[0] in b && b[0] in a;
      SameHead(spec, a, b);
      forall q
        ensures q in a[1..] <==> q in b[1..]
      {
        NotLater(spec, a);
        NotLater(spec, b);
        assert q in a <==> q == a[0] || q in a[1..];
        assert q in b <==> q == b[0] || q in b[1..];
      }
      SortedUnique(spec, a[1..], b[1..]);
    }
  }

  lemma {:induction false} SameHead(spec: Spec, a: seq<Row>, b: seq<Row>)
    requires SortedRows(spec, a) && SortedRows(spec, b)
    requires a != [] && b != [] && a[0] in b && b[0] in a
    requires PosFits(spec, PosOf(spec, a[0])) && PosFits(spec, PosOf(spec, b[0]))
    ensures a[0] == b[0]
  {
    BeforeOrder(spec, PosOf(spec, a[0]), PosOf(spec, b[0]), PosOf(spec, a[0]));
    var i :| 0 <= i < |b| && b[i] == a[0];
    var j :| 0 <= j < |a| && a[j] == b[0];
  }

  lemma {:induction false} NotLater(spec: Spec, a: seq<Row>)
    requires SortedRows(spec, a) && a != [] && PosFits(spec, PosOf(spec, a[0]))
    ensures a[0] !in a[1..]
  {
    BeforeOrder(spec, PosOf(spec, a[0]), PosOf(spec, a[0]), PosOf(spec, a[0]));
  }

  /** On a table that does not change, the pages put end to end are the whole listing in order,
      every page reports the same total, and the traversal is no longer than the listing. */
  lemma {:induction false} FixedTableListing(l: Listing, calls: seq<Call>, table: seq<Row>)
    requires IsTraversal(l, calls)
    requires forall i :: 0 <= i < |calls| ==> calls[i].table == table
    ensures PagesFrom(calls, 0) == FullListing(l, table)
    ensures forall i :: 0 <= i < |calls| ==> calls[i].page.total == |FullListing(l, table)|
    ensures |calls| <= |FullListing(l, table)| + 1
  {
    CallAnswered(l, calls, 0);
    ChainIsPageChain(l, calls);
    RemainingPages(l, calls, table, 0);
    FullListingSorted(l, table);
    SortedUnique(l.spec, FullListing(l, table), PagesFrom(calls, 0));
    forall i | 0 <= i < |calls|
      ensures calls[i].page.total == |FullListing(l, table)|
    {
      CallAnswered(l, calls, i);
    }
    PagesLong(l, calls, 0);
  }

  lemma {:induction false} FullListingSorted(l: Listing, table: seq<Row>)
    requires ValidRows(l.spec, table)
    ensures SortedRows(l.spec, FullListing(l, table))
    ensures forall q :: q in FullListing(l, table) ==> PosFits(l.spec, PosOf(l.spec, q))
  {
    SelectValid(l.spec, table, l.filter);
    SortIsSorted(l.spec, Select(table, l.filter));
  }

  lemma {:induction false} PagesLong(l: Listing, calls: seq<Call>, k: nat)
    requires IsPageChain(l, calls) && k < |calls|
    ensures |PagesFrom(calls, k)| >= |calls| - k - 1
    decreases |calls| - k
  {
    if k + 1 < |calls| {
      assert ChainStep(l, calls, k + 1);
      PagesLong(l, calls, k + 1);
    }
  }

  predicate TokenTooLong(l: Listing, row: Row) {
    |EncodedPayload(l.env.codec, l.binding, CursorOf(l.env, l.spec, row))| > MAX_PAYLOAD_LEN
  }

  /** The rows a request starting after p would read. */
  function Found(l: Listing, table: seq<Row>, p: Pos, limit: nat): seq<Row> {
    RunQuery(l.spec, table, l.filter, KeysetOf(l.spec, Some(p)), limit + 1)
  }

  /** A follow-up call with a valid limit is never refused as a bad request: it answers unless its
      own next cursor would not fit the token's length limit. */
  lemma {:induction false} FollowUpAnswered(l: Listing, calls: seq<Call>, table: seq<Row>, req: Request)
    requires IsChain(l, calls)
    requires calls[|calls| - 1].page.next != "" && req.cursor == calls[|calls| - 1].page.next
    requires ResolveLimit(req.limit).Ok?
    ensures calls[|calls| - 1].page.rows != []
    ensures var limit := ResolveLimit(req.limit).value;
      var found := Found(l, table, LastPos(l.spec, calls[|calls| - 1].page.rows), limit);
      var r := ListRows(l.env, l.spec, l.binding, l.filter, table, req);
      && (r.Err? <==> (|found| > limit && TokenTooLong(l, found[limit - 1])))
      && (r.Err? ==> r.error == EncodeFailed)
  {
    assert calls != [];
    hide *;
    var last := calls[|calls| - 1];
    ChainLinks(l, calls, |calls| - 1);
    CallAnswered(l, calls, |calls| - 1);
    CallPage(l, last);
    SpecAnswered(l, last);
    StartOfAnswered(l, table, req, LastPos(l.spec, last.page.rows));
  }

  lemma {:induction false} SpecAnswered(l: Listing, c: Call)
    requires Answered(l, c)
    ensures SpecComplete(l.binding) && l.env.validColumn(l.spec.sortColumn) && l.env.validColumn(l.spec.idColumn)
  {
  }

  lemma {:induction false} StartOfAnswered(l: Listing, table: seq<Row>, req: Request, p: Pos)
    requires SpecComplete(l.binding) && l.env.validColumn(l.spec.sortColumn) && l.env.validColumn(l.spec.idColumn)
    requires ResolveLimit(req.limit).Ok? && req.cursor != ""
    requires StartOf(l.env, l.spec, l.binding, req.cursor) == Ok(Some(p))
    ensures var limit := ResolveLimit(req.limit).value;
      var found := Found(l, table, p, limit);
      var r := ListRows(l.env, l.spec, l.binding, l.filter, table, req);
      && (r.Err? <==> (|found| > limit && TokenTooLong(l, found[limit - 1])))
      && (r.Err? ==> r.error == EncodeFailed)
  {
    assert l.env.codec.secret != [];
  }
}
