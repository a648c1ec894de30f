/** Keyset pagination: pkg/localdeps/go-crud/entgo/cursor.go. This file has the SQL side of one
    call: rows, three-valued predicates, ORDER BY with NULLS positions, and the keyset predicate. */
module Keyset {
  import opened Basics

  // ---------- Values, rows and three-valued logic ----------

  datatype SqlValue = Null | Str(s: string) | Uint(n: nat) | Time(t: int)

  /** The declared type of a sort column; any other integer is refused by the cursor parser. */
  datatype SortKind = StringKind | UintKind | TimeKind | UnsupportedKind

  datatype Row = Row(id: nat, cols: map<string, SqlValue>)

  datatype Spec = Spec(sortColumn: string, desc: bool, kind: SortKind, idColumn: string)
  {
    predicate ById() { sortColumn == idColumn }
  }

  function Column(spec: Spec, row: Row, name: string): SqlValue {
    if name == spec.idColumn then Uint(row.id)
    else if name in row.cols then row.cols[name] else Null
  }

  predicate ValueLess(a: SqlValue, b: SqlValue) {
    match (a, b)
    case (Str(s), Str(t)) => LexLess(s, t)
    case (Uint(m), Uint(n)) => m < n
    case (Time(s), Time(t)) => s < t
    case _ => false
  }

  datatype Tri = True | False | Unknown

  function TriOf(b: bool): Tri { if b then True else False }

  function TriAnd(a: Tri, b: Tri): Tri {
    if a == False || b == False then False
    else if a == True && b == True then True else Unknown
  }

  function TriOr(a: Tri, b: Tri): Tri {
    if a == True || b == True then True
    else if a == False && b == False then False else Unknown
  }

  datatype Pred =
    | LT(column: string, value: SqlValue)
    | GT(column: string, value: SqlValue)
    | EQ(column: string, value: SqlValue)
    | IsNull(column: string)
    | NotNull(column: string)
    | And(left: Pred, right: Pred)
    | Or(left: Pred, right: Pred)

  /** The truth value SQL gives a predicate on a row: a comparison with NULL is unknown. */
  function Eval(spec: Spec, row: Row, p: Pred): Tri {
    match p
    case LT(c, v) => Compare(Column(spec, row, c), v, (a, b) => ValueLess(a, b))
    case GT(c, v) => Compare(Column(spec, row, c), v, (a, b) => ValueLess(b, a))
    case EQ(c, v) => Compare(Column(spec, row, c), v, (a, b) => a == b)
    case IsNull(c) => TriOf(Column(spec, row, c).Null?)
    case NotNull(c) => TriOf(!Column(spec, row, c).Null?)
    case And(l, r) => TriAnd(Eval(spec, row, l), Eval(spec, row, r))
    case Or(l, r) => TriOr(Eval(spec, row, l), Eval(spec, row, r))
  }

  function Compare(a: SqlValue, b: SqlValue, holds: (SqlValue, SqlValue) -> bool): Tri {
    if a.Null? || b.Null? then Unknown else TriOf(holds(a, b))
  }

  // ---------- ORDER BY ----------

  datatype OrderTerm = OrderTerm(column: string, desc: bool, nullsFirst: bool)

  /** Whether one ORDER BY term puts a before b. */
  predicate TermBefore(term: OrderTerm, a: SqlValue, b: SqlValue) {
    if a.Null? || b.Null? then
      if term.nullsFirst then a.Null? && !b.Null? else !a.Null? && b.Null?
    else if term.desc then ValueLess(b, a) else ValueLess(a, b)
  }

  predicate RowBefore(spec: Spec, terms: seq<OrderTerm>, a: Row, b: Row) {
    terms != [] &&
    var va, vb := Column(spec, a, terms[0].column), Column(spec, b, terms[0].column);
    TermBefore(terms[0], va, vb) || (va == vb && RowBefore(spec, terms[1..], a, b))
  }

  /** The order a listing declares: descending keys have NULL first, ascending keys NULL last, and
      the unique id breaks ties in the same direction. Ids are never NULL. */
  function OrderTerms(spec: Spec): seq<OrderTerm> {
    var byId := OrderTerm(spec.idColumn, spec.desc, spec.desc);
    if spec.ById() then [byId]
    else [OrderTerm(spec.sortColumn, spec.desc, spec.desc), byId]
  }

  function InsertRow(spec: Spec, terms: seq<OrderTerm>, x: Row, s: seq<Row>): (r: seq<Row>)
    ensures |r| == |s| + 1
    ensures forall q :: q in r <==> q == x || q in s
  {
    if s == [] then [x]
    else if RowBefore(spec, terms, s[0], x) then [s[0]] + InsertRow(spec, terms, x, s[1..])
    else [x] + s
  }

  function SortRows(spec: Spec, terms: seq<OrderTerm>, s: seq<Row>): (r: seq<Row>)
    ensures |r| == |s|
    ensures forall q :: q in r <==> q in s
  {
    if s == [] then [] else InsertRow(spec, terms, s[0], SortRows(spec, terms, s[1..]))
  }

  function Select(s: seq<Row>, keep: Row -> bool): (r: seq<Row>)
    ensures forall x :: x in r <==> x in s && keep(x)
  {
    if s == [] then []
    else (if keep(s[0]) then [s[0]] else []) + Select(s[1..], keep)
  }

  lemma {:induction false} InsertKeepsRows(spec: Spec, terms: seq<OrderTerm>, x: Row, s: seq<Row>)
    ensures multiset(InsertRow(spec, terms, x, s)) == multiset(s) + multiset{x}
  {
    if s != [] && RowBefore(spec, terms, s[0], x) {
      InsertKeepsRows(spec, terms, x, s[1..]);
      assert s == [s[0]] + s[1..];
    }
  }

  /** Sorting keeps every row as often as it is there. */
  lemma {:induction false} SortKeepsRows(spec: Spec, terms: seq<OrderTerm>, s: seq<Row>)
    ensures multiset(SortRows(spec, terms, s)) == multiset(s)
  {
    if s != [] {
      SortKeepsRows(spec, terms, s[1..]);
      InsertKeepsRows(spec, terms, s[0], SortRows(spec, terms, s[1..]));
      assert s == [s[0]] + s[1..];
    }
  }

  /** A selection has the rows that are kept, as often as they are there, and no others. */
  lemma {:induction false} SelectKeepsRows(s: seq<Row>, keep: Row -> bool, x: Row)
    ensures multiset(Select(s, keep))[x] == if keep(x) then multiset(s)[x] else 0
  {
    if s != [] {
      SelectKeepsRows(s[1..], keep, x);
      assert s == [s[0]] + s[1..];
    }
  }

  function Take(s: seq<Row>, n: nat): seq<Row> {
    if |s| <= n then s else s[..n]
  }

  /** What the query engine answers: the rows whose filter and keyset conditions are true, in
      ORDER BY order, cut at the limit. */
  function RunQuery(spec: Spec, table: seq<Row>, filter: Row -> bool, keyset: Option<Pred>, limit: nat): seq<Row> {
    Take(SortRows(spec, OrderTerms(spec),
                  Select(table, row => filter(row) && (keyset.Some? ==> Eval(spec, row, keyset.value) == True))),
         limit)
  }

  // ---------- The traversal order, stated on its own ----------

  /** A position in the traversal order. */
  datatype Pos = Pos(key: SqlValue, id: nat)

  function PosOf(spec: Spec, row: Row): Pos {
    Pos(Column(spec, row, spec.sortColumn), row.id)
  }

  /** Rank of the NULL block: 0 comes first. */
  function Block(desc: bool, key: SqlValue): nat {
    if key.Null? == desc then 0 else 1
  }

  ghost predicate Before(spec: Spec, p: Pos, q: Pos) {
    var idBefore := if spec.desc then q.id < p.id else p.id < q.id;
    if spec.ById() then idBefore
    else if Block(spec.desc, p.key) != Block(spec.desc, q.key) then Block(spec.desc, p.key) < Block(spec.desc, q.key)
    else if p.key == q.key then idBefore
    else if spec.desc then ValueLess(q.key, p.key) else ValueLess(p.key, q.key)
  }

  /** The values the column's type admits; unsigned integers are 64 bits wide. */
  predicate KeyFits(spec: Spec, key: SqlValue) {
    match key
    case Null => true
    case Str(_) => spec.kind.StringKind?
    case Uint(n) => (spec.kind.UintKind? || spec.ById()) && n < TWO_TO_THE_64
    case Time(_) => spec.kind.TimeKind?
  }

  predicate PosFits(spec: Spec, p: Pos) {
    && p.id < TWO_TO_THE_64
    && (if spec.ById() then p.key == Uint(p.id) else KeyFits(spec, p.key))
  }

  /** The rows of a table: typed, and no id occurs twice. */
  ghost predicate ValidRows(spec: Spec, rows: seq<Row>) {
    && (forall r :: r in rows ==> PosFits(spec, PosOf(spec, r)))
    && (forall i, j :: 0 <= i < j < |rows| ==> rows[i].id != rows[j].id)
  }

  lemma {:induction false} ValueLessOrder(a: SqlValue, b: SqlValue, c: SqlValue)
    ensures !ValueLess(a, a)
    ensures ValueLess(a, b) && ValueLess(b, c) ==> ValueLess(a, c)
    ensures ValueLess(a, b) ==> !ValueLess(b, a)
  {
    if a.Str? {
      LexIrreflexive(a.s);
      if b.Str? && ValueLess(a, b) {
        if c.Str? && ValueLess(b, c) { LexTransitive(a.s, b.s, c.s); }
        if ValueLess(b, a) { LexTransitive(a.s, b.s, a.s); }
      }
    }
  }

  lemma {:induction false} ValueLessTotal(spec: Spec, a: SqlValue, b: SqlValue)
    requires KeyFits(spec, a) && KeyFits(spec, b) && !spec.ById() && !a.Null? && !b.Null?
    ensures ValueLess(a, b) || a == b || ValueLess(b, a)
  {
    if a.Str? {
      LexTotal(a.s, b.s);
    }
  }

  /** The traversal order is a strict total order on positions of the table's type. */
  lemma {:induction false} BeforeOrder(spec: Spec, p: Pos, q: Pos, r: Pos)
    requires PosFits(spec, p) && PosFits(spec, q) && PosFits(spec, r)
    ensures !Before(spec, p, p)
    ensures Before(spec, p, q) ==> !Before(spec, q, p)
    ensures Before(spec, p, q) || p == q || Before(spec, q, p)
    ensures Before(spec, p, q) && Before(spec, q, r) ==> Before(spec, p, r)
  {
    if !spec.ById() {
      ValueLessOrder(p.key, q.key, r.key);
      ValueLessOrder(q.key, p.key, r.key);
      ValueLessOrder(r.key, q.key, p.key);
      ValueLessOrder(q.key, r.key, p.key);
      if !p.key.Null? && !q.key.Null? { ValueLessTotal(spec, p.key, q.key); }
    }
  }

  lemma {:induction false} BeforeTransitive(spec: Spec, p: Pos, q: Pos, r: Pos)
    requires PosFits(spec, p) && PosFits(spec, q) && PosFits(spec, r)
    requires Before(spec, p, q) && Before(spec, q, r)
    ensures Before(spec, p, r)
  {
    BeforeOrder(spec, p, q, r);
  }

  /** ORDER BY with the declared NULLS positions is the traversal order. */
  lemma {:induction false} OrderByIsBefore(spec: Spec, a: Row, b: Row)
    ensures RowBefore(spec, OrderTerms(spec), a, b) <==> Before(spec, PosOf(spec, a), PosOf(spec, b))
  {
    var terms := OrderTerms(spec);
    var byId := terms[|terms| - 1];
    assert RowBefore(spec, [byId], a, b) <==> if spec.desc then b.id < a.id else a.id < b.id by {
      assert !RowBefore(spec, [byId][1..], a, b);
    }
    if spec.ById() {
      assert terms == [byId];
    } else {
      assert terms[1..] == [byId];
      ValueLessOrder(PosOf(spec, a).key, PosOf(spec, b).key, PosOf(spec, a).key);
    }
  }

  // ---------- The keyset predicate ----------

  /** buildCursorKeysetSelector, after the cursor's sort value has been parsed. */
  function KeysetPred(spec: Spec, at: Pos): Pred {
    if spec.ById() then
      if spec.desc then LT(spec.idColumn, Uint(at.id)) else GT(spec.idColumn, Uint(at.id))
    else if at.key.Null? then
      if spec.desc then
        Or(And(IsNull(spec.sortColumn), LT(spec.idColumn, Uint(at.id))), NotNull(spec.sortColumn))
      else And(IsNull(spec.sortColumn), GT(spec.idColumn, Uint(at.id)))
    else if spec.desc then
      Or(LT(spec.sortColumn, at.key), And(EQ(spec.sortColumn, at.key), LT(spec.idColumn, Uint(at.id))))
    else
      Or(Or(GT(spec.sortColumn, at.key), And(EQ(spec.sortColumn, at.key), GT(spec.idColumn, Uint(at.id)))),
         IsNull(spec.sortColumn))
  }

  /** In every NULL and direction case the keyset condition is true of exactly the rows strictly
      after the cursor; unknown and false rows are those at or before it. */
  lemma {:induction false} KeysetIsAfter(spec: Spec, row: Row, at: Pos)
    ensures Eval(spec, row, KeysetPred(spec, at)) == True <==> Before(spec, at, PosOf(spec, row))
  {
    var key := Column(spec, row, spec.sortColumn);
    ValueLessOrder(at.key, key, at.key);
    if !spec.ById() {
      EvalParts(spec, row, KeysetPred(spec, at));
    }
  }

  /** A connective's value is computed from its parts, two levels down. */
  lemma {:induction false} EvalParts(spec: Spec, row: Row, p: Pred)
    requires p.Or? || p.And?
    ensures p.Or? ==> Eval(spec, row, p) == TriOr(Eval(spec, row, p.left), Eval(spec, row, p.right))
    ensures p.And? ==> Eval(spec, row, p) == TriAnd(Eval(spec, row, p.left), Eval(spec, row, p.right))
    ensures p.left.Or? ==> Eval(spec, row, p.left) == TriOr(Eval(spec, row, p.left.left), Eval(spec, row, p.left.right))
    ensures p.left.And? ==>
      Eval(spec, row, p.left) == TriAnd(Eval(spec, row, p.left.left), Eval(spec, row, p.left.right))
    ensures p.right.And? ==>
      Eval(spec, row, p.right) == TriAnd(Eval(spec, row, p.right.left), Eval(spec, row, p.right.right))
    ensures p.left.Or? && p.left.right.And? ==>
      Eval(spec, row, p.left.right) == TriAnd(Eval(spec, row, p.left.right.left), Eval(spec, row, p.left.right.right))
  {
  }

  // ---------- What a query returns ----------

  ghost predicate SortedRows(spec: Spec, s: seq<Row>) {
    forall i, j :: 0 <= i < j < |s| ==> Before(spec, PosOf(spec, s[i]), PosOf(spec, s[j]))
  }

  lemma {:induction false} SelectValid(spec: Spec, s: seq<Row>, keep: Row -> bool)
    requires ValidRows(spec, s)
    ensures ValidRows(spec, Select(s, keep))
  {
    if s != [] {
      SelectValid(spec, s[1..], keep);
      var t := Select(s[1..], keep);
      forall j | 0 <= j < |t|
        ensures s[0].id != t[j].id
      {
        assert t[j] in s[1..];
      }
    }
  }

  /** A sorted sequence stays sorted when a row before all of it is put in front. */
  lemma {:induction false} PrependSorted(spec: Spec, x: Row, s: seq<Row>)
    requires SortedRows(spec, s)
    requires forall q :: q in s ==> Before(spec, PosOf(spec, x), PosOf(spec, q))
    ensures SortedRows(spec, [x] + s)
  {
  }

  lemma {:induction false} InsertSorted(spec: Spec, x: Row, s: seq<Row>)
    requires SortedRows(spec, s) && PosFits(spec, PosOf(spec, x))
    requires forall q :: q in s ==> PosFits(spec, PosOf(spec, q)) && q.id != x.id
    ensures SortedRows(spec, InsertRow(spec, OrderTerms(spec), x, s))
  {
    if s != [] {
      OrderByIsBefore(spec, s[0], x);
      if RowBefore(spec, OrderTerms(spec), s[0], x) {
        InsertSorted(spec, x, s[1..]);
        PrependSorted(spec, s[0], InsertRow(spec, OrderTerms(spec), x, s[1..]));
      } else {
        forall q | q in s
          ensures Before(spec, PosOf(spec, x), PosOf(spec, q))
        {
          BeforeOrder(spec, PosOf(spec, x), PosOf(spec, s[0]), PosOf(spec, q));
        }
        PrependSorted(spec, x, s);
      }
    }
  }

  lemma {:induction false} SortIsSorted(spec: Spec, s: seq<Row>)
    requires ValidRows(spec, s)
    ensures SortedRows(spec, SortRows(spec, OrderTerms(spec), s))
  {
    if s != [] {
      SortIsSorted(spec, s[1..]);
      InsertSorted(spec, s[0], SortRows(spec, OrderTerms(spec), s[1..]));
    }
  }
}
