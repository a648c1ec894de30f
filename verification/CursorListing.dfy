/** ListWithCursor (pkg/localdeps/go-crud/entgo/cursor.go) and what a client sees over a whole
    traversal that follows next_cursor. */
module CursorListing {
  import opened Basics
  import opened CursorCodec
  import opened Keyset

  /** What the code takes from outside: the token codec, RFC 3339 times, and the column-name check. */
  datatype Env = Env(
    codec: Codec,
    formatTime: int -> string,
    parseTime: string -> Option<int>,
    validColumn: string -> bool)
  {
    ghost predicate Valid() {
      codec.Valid() && forall t :: parseTime(formatTime(t)) == Some(t)
    }
  }

  datatype ListError = IncompleteSpec | InvalidRequest | EncodeFailed

  datatype Request = Request(cursor: string, limit: Option<nat>)

  datatype RowPage = RowPage(rows: seq<Row>, total: nat, next: string)

  datatype Page<+D> = Page(items: seq<D>, total: nat, next: string)

  const DEFAULT_LIMIT := 20
  const MAX_LIMIT := 100

  /** A missing limit is the default; a limit out of range is refused, not clamped. */
  function ResolveLimit(limit: Option<nat>): Result<nat, ListError> {
    match limit
    case None => Ok(DEFAULT_LIMIT)
    case Some(n) => if n < 1 || n > MAX_LIMIT then Err(InvalidRequest) else Ok(n)
  }

  /** The canonical string of a sort value inside a cursor; None is SQL NULL. */
  function FormatKey(env: Env, v: SqlValue): Option<string> {
    match v
    case Null => None
    case Str(s) => Some(s)
    case Uint(n) => Some(Decimal(n))
    case Time(t) => Some(env.formatTime(t))
  }

  function ParseUint(s: string): Option<nat> {
    if s != [] && (forall i :: 0 <= i < |s| ==> IsDigit(s[i])) && DigitsValue(s) < TWO_TO_THE_64
    then Some(DigitsValue(s)) else None
  }

  function ParseSortValue(env: Env, key: Option<string>, kind: SortKind): Result<SqlValue, ListError> {
    if key.None? then Ok(Null)
    else match kind
      case StringKind => Ok(Str(key.value))
      case UintKind =>
        (match ParseUint(key.value) case Some(n) => Ok(Uint(n)) case None => Err(InvalidRequest))
      case TimeKind =>
        (match env.parseTime(key.value) case Some(t) => Ok(Time(t)) case None => Err(InvalidRequest))
      case UnsupportedKind => Err(InvalidRequest)
  }

  /** The position a cursor stands for. Ordered by id, the sort value is not looked at. */
  function CursorPos(env: Env, spec: Spec, cursor: Cursor): Result<Pos, ListError> {
    if spec.ById() then Ok(Pos(Uint(cursor.id), cursor.id))
    else match ParseSortValue(env, cursor.sortKey, spec.kind)
      case Ok(key) => Ok(Pos(key, cursor.id))
      case Err(e) => Err(e)
  }

  function CursorOf(env: Env, spec: Spec, row: Row): Cursor {
    Cursor(FormatKey(env, Column(spec, row, spec.sortColumn)), row.id)
  }

  /** Where a request starts: None is the first page. */
  function StartOf(env: Env, spec: Spec, binding: Binding, token: string): Result<Option<Pos>, ListError> {
    if token == "" then Ok(None)
    else match DecodeCursor(env.codec, token, binding)
      case Err(_) => Err(InvalidRequest)
      case Ok(cursor) =>
        match CursorPos(env, spec, cursor)
        case Err(e) => Err(e)
        case Ok(at) => Ok(Some(at))
  }

  function KeysetOf(spec: Spec, start: Option<Pos>): Option<Pred> {
    if start.None? then None else Some(KeysetPred(spec, start.value))
  }

  function NextToken(env: Env, spec: Spec, binding: Binding, found: seq<Row>, limit: nat): Result<string, ListError>
    requires limit > 0
  {
    if |found| <= limit then Ok("")
    else match EncodeCursor(env.codec, binding, CursorOf(env, spec, found[limit - 1]))
      case Ok(token) => Ok(token)
      case Err(_) => Err(EncodeFailed)
  }

  predicate SpecComplete(binding: Binding) {
    binding.resource != "" && binding.context != ""
  }

  /** One call on one state of the table, as far as the rows it answers with. */
  function ListRows(env: Env, spec: Spec, binding: Binding, filter: Row -> bool, table: seq<Row>, req: Request)
    : Result<RowPage, ListError>
  {
    if !SpecComplete(binding) then Err(IncompleteSpec)
    else if !env.validColumn(spec.sortColumn) || !env.validColumn(spec.idColumn) then Err(InvalidRequest)
    else match ResolveLimit(req.limit)
      case Err(e) => Err(e)
      case Ok(limit) =>
        match StartOf(env, spec, binding, req.cursor)
        case Err(e) => Err(e)
        case Ok(start) =>
          var found := RunQuery(spec, table, filter, KeysetOf(spec, start), limit + 1);
          match NextToken(env, spec, binding, found, limit)
          case Err(e) => Err(e)
          case Ok(next) => Ok(RowPage(Take(found, limit), |Select(table, filter)|, next))
  }

  // ---------- What a call promises ----------

  /** What a sort value inside a cursor stands for; a numeral may have leading zeros. */
  ghost predicate Reads(env: Env, kind: SortKind, key: Option<string>, v: SqlValue) {
    match key
    case None => v == Null
    case Some(s) =>
      match kind
      case StringKind => v == Str(s)
      case UintKind =>
        && s != [] && (forall i :: 0 <= i < |s| ==> '0' <= s[i] <= '9')
        && DigitsValue(s) < 0x1_0000_0000_0000_0000 && v == Uint(DigitsValue(s))
      case TimeKind => env.parseTime(s).Some? && v == Time(env.parseTime(s).value)
      case UnsupportedKind => false
  }

  /** The position that a cursor names; ordered by the id, that is the id alone. */
  ghost predicate Names(env: Env, spec: Spec, cursor: Cursor, at: Pos) {
    && at.id == cursor.id
    && if spec.sortColumn == spec.idColumn then at.key == Uint(cursor.id)
       else Reads(env, spec.kind, cursor.sortKey, at.key)
  }

  /** The token is signed under this secret for a cursor with this binding, and the cursor names at. */
  ghost predicate StartsAt(env: Env, spec: Spec, binding: Binding, token: string, at: Pos) {
    exists cursor, encoded ::
      Signed(env.codec, token, Payload(1, binding, cursor), encoded) && Names(env, spec, cursor, at)
  }

  /** No cursor is the first page; any other has to be signed for this listing. */
  ghost predicate StartsFrom(env: Env, spec: Spec, binding: Binding, token: string, start: Option<Pos>) {
    if token == "" then start == None else start.Some? && StartsAt(env, spec, binding, token, start.value)
  }

  ghost predicate Refused(env: Env, spec: Spec, binding: Binding, req: Request) {
    || !env.validColumn(spec.sortColumn) || !env.validColumn(spec.idColumn)
    || (req.limit.Some? && !(1 <= req.limit.value <= 100))
    || (req.cursor != "" && forall at :: !StartsAt(env, spec, binding, req.cursor, at))
  }

  /** rows are the first eligible rows after the position the request names, at most 20 of them or as
      many as it asks for; more says that some are left. */
  ghost predicate Shows(env: Env, spec: Spec, binding: Binding, filter: Row -> bool, table: seq<Row>, req: Request,
                        rows: seq<Row>, more: bool) {
    var limit := if req.limit.Some? then req.limit.value else 20;
    && |rows| <= limit && (more ==> |rows| == limit)
    && exists start ::
         StartsFrom(env, spec, binding, req.cursor, start) && IsPage(spec, filter, table, start, rows, more)
  }

  /** A token for the row fits: there is a secret, and its JSON text has at most 1536 bytes. */
  ghost predicate CanIssue(env: Env, spec: Spec, binding: Binding, row: Row) {
    env.codec.secret != [] && |env.codec.marshal(Payload(1, binding, CursorOf(env, spec, row)))| <= 1536
  }

  /** ListWithCursor: reads limit + 1 rows, maps the first limit of them, and emits a cursor taken
      from the last entity only when one more row exists. The total ignores the keyset window. */
  method ListWithCursor<D>(env: Env, spec: Spec, binding: Binding, filter: Row -> bool, table: seq<Row>,
                           req: Request, toDto: Row -> D, counted: bool) returns (r: Result<Page<D>, ListError>)
    ensures r == Err(IncompleteSpec) <==> binding.resource == "" || binding.context == ""
    ensures r == Err(InvalidRequest) <==>
      binding.resource != "" && binding.context != "" && Refused(env, spec, binding, req)
    ensures r.Ok? && env.Valid() && ValidRows(spec, table) ==>
      exists rows ::
        && Shows(env, spec, binding, filter, table, req, rows, r.value.next != "")
        && |r.value.items| == |rows| && (forall i :: 0 <= i < |rows| ==> r.value.items[i] == toDto(rows[i]))
        && (r.value.next != "" ==>
             rows != [] && StartsAt(env, spec, binding, r.value.next, PosOf(spec, rows[|rows| - 1])))
    ensures r == Err(EncodeFailed) && env.Valid() && ValidRows(spec, table) ==>
      exists rows :: rows != [] && Shows(env, spec, binding, filter, table, req, rows, true)
                     && !CanIssue(env, spec, binding, rows[|rows| - 1])
    ensures r.Ok? <==> ListRows(env, spec, binding, filter, table, req).Ok?
    ensures r.Err? ==> r == Err(ListRows(env, spec, binding, filter, table, req).error)
    ensures r.Ok? ==> var p := ListRows(env, spec, binding, filter, table, req).value;
      && |r.value.items| == |p.rows|
      && (forall i :: 0 <= i < |p.rows| ==> r.value.items[i] == toDto(p.rows[i]))
      && r.value.next == p.next
      && r.value.total == if counted then |Select(table, filter)| else 0
  {
    hide Refused, Shows, StartsAt, CanIssue, RunQuery, StartOf, EncodeCursor, Select, KeysetOf, CursorOf;
    hide Env.Valid, ValidRows;
    RefusedMeant(env, spec, binding, filter, table, req);
    RowsMeant(env, spec, binding, filter, table, req);
    if !SpecComplete(binding) {
      return Err(IncompleteSpec);
    }
    if !env.validColumn(spec.sortColumn) || !env.validColumn(spec.idColumn) {
      return Err(InvalidRequest);
    }
    var resolved := ResolveLimit(req.limit);
    if resolved.Err? {
      return Err(resolved.error);
    }
    var limit := resolved.value;
    var start := StartOf(env, spec, binding, req.cursor);
    if start.Err? {
      return Err(start.error);
    }
    var entities := RunQuery(spec, table, filter, KeysetOf(spec, start.value), limit + 1);
    ghost var found := entities;
    var hasNext := |entities| > limit;
    if hasNext {
      entities := entities[..limit];
    }
    var dtos: seq<D> := [];
    for i := 0 to |entities|
      invariant |dtos| == i
      invariant forall j :: 0 <= j < i ==> dtos[j] == toDto(entities[j])
    {
      dtos := dtos + [toDto(entities[i])];
    }
    var next := "";
    if hasNext && |entities| > 0 {
      var last := entities[|entities| - 1];
      assert last == found[limit - 1];
      var token := EncodeCursor(env.codec, binding, CursorOf(env, spec, last));
      if token.Err? {
        return Err(EncodeFailed);
      }
      next := token.value;
    }
    var count := 0;
    if counted {
      count := |Select(table, filter)|;
    }
    return Ok(Page(dtos, count, next));
  }

  // ---------- What one page means ----------

  ghost predicate After(spec: Spec, start: Option<Pos>, row: Row) {
    start.None? || Before(spec, start.value, PosOf(spec, row))
  }

  /** The rows a page may show: present, matching, and strictly after its start. */
  ghost predicate Eligible(spec: Spec, filter: Row -> bool, table: seq<Row>, start: Option<Pos>, row: Row) {
    row in table && filter(row) && After(spec, start, row)
  }

  /** rows are the eligible rows up to a point, in traversal order; more says some eligible row
      lies beyond that point. */
  ghost predicate IsPage(spec: Spec, filter: Row -> bool, table: seq<Row>, start: Option<Pos>, rows: seq<Row>,
                         more: bool) {
    && SortedRows(spec, rows)
    && (forall q :: q in rows ==> Eligible(spec, filter, table, start, q))
    && (more ==> rows != [])
    && (forall q :: Eligible(spec, filter, table, start, q) && q !in rows ==>
          more && Before(spec, PosOf(spec, rows[|rows| - 1]), PosOf(spec, q)))
    && (more ==> exists q :: Eligible(spec, filter, table, start, q) && q !in rows)
  }

  /** Cutting a sorted sequence at the limit leaves the earlier rows. */
  lemma {:induction false} TakeIsPage(spec: Spec, filter: Row -> bool, table: seq<Row>, start: Option<Pos>,
                                      all: seq<Row>, limit: nat)
    requires limit > 0 && SortedRows(spec, all)
    requires forall q :: q in all ==> PosFits(spec, PosOf(spec, q))
    requires forall q :: q in all <==> Eligible(spec, filter, table, start, q)
    ensures IsPage(spec, filter, table, start, Take(all, limit), |all| > limit)
  {
    var rows := Take(all, limit);
    forall q | q in all && q !in rows
      ensures |all| > limit && Before(spec, PosOf(spec, rows[|rows| - 1]), PosOf(spec, q))
    {
      var i :| 0 <= i < |all| && all[i] == q;
      assert forall j :: 0 <= j < |rows| ==> rows[j] == all[j];
      assert i >= limit;
    }
    if |all| > limit {
      var q := all[limit];
      assert q in all;
      forall i | 0 <= i < |rows|
        ensures rows[i] != q
      {
        BeforeOrder(spec, PosOf(spec, q), PosOf(spec, q), PosOf(spec, q));
        assert Before(spec, PosOf(spec, all[i]), PosOf(spec, all[limit]));
      }
    }
  }

  lemma {:induction false} ParseFormat(env: Env, spec: Spec, row: Row)
    requires env.Valid() && PosFits(spec, PosOf(spec, row))
    ensures CursorPos(env, spec, CursorOf(env, spec, row)) == Ok(PosOf(spec, row))
  {
    var key := Column(spec, row, spec.sortColumn);
    if key.Uint? {
      DecimalValue(key.n);
    }
  }

  /** The token of a row, handed back under the same binding, starts the next call at that row. */
  lemma {:induction false} TokenRoundTrip(env: Env, spec: Spec, binding: Binding, row: Row)
    requires env.Valid() && PosFits(spec, PosOf(spec, row))
    requires EncodeCursor(env.codec, binding, CursorOf(env, spec, row)).Ok?
    ensures var token := EncodeCursor(env.codec, binding, CursorOf(env, spec, row)).value;
      token != "" && StartOf(env, spec, binding, token) == Ok(Some(PosOf(spec, row)))
  {
    EmittedTokenDecodes(env.codec, binding, CursorOf(env, spec, row), binding);
    ParseFormat(env, spec, row);
  }

  lemma {:induction false} QueryIsPage(spec: Spec, filter: Row -> bool, table: seq<Row>, start: Option<Pos>, limit: nat)
    requires ValidRows(spec, table) && limit > 0
    ensures var found := RunQuery(spec, table, filter, KeysetOf(spec, start), limit + 1);
      && IsPage(spec, filter, table, start, Take(found, limit), |found| > limit)
      && (|found| > limit ==> PosFits(spec, PosOf(spec, found[limit - 1])))
  {
    var keyset := KeysetOf(spec, start);
    var keep := row => filter(row) && (keyset.Some? ==> Eval(spec, row, keyset.value) == True);
    var chosen := Select(table, keep);
    var all := SortRows(spec, OrderTerms(spec), chosen);
    SelectValid(spec, table, keep);
    SortIsSorted(spec, chosen);
    forall q
      ensures q in all <==> Eligible(spec, filter, table, start, q)
    {
      if start.Some? {
        KeysetIsAfter(spec, q, start.value);
      }
    }
    TakeIsPage(spec, filter, table, start, all, limit);
    var found := RunQuery(spec, table, filter, keyset, limit + 1);
    assert found == Take(all, limit + 1);
    assert Take(found, limit) == Take(all, limit);
    if |found| > limit {
      assert found[limit - 1] == all[limit - 1] && all[limit - 1] in all;
    }
  }

  /** One successful call answers with the page that starts where its cursor says, whatever the
      NULLs and the direction; its next cursor is empty exactly when nothing is left, and otherwise
      points at the last row shown. */
  lemma {:induction false} CallMeaning(env: Env, spec: Spec, binding: Binding, filter: Row -> bool, table: seq<Row>,
                                       req: Request)
    requires env.Valid() && ValidRows(spec, table)
    requires ListRows(env, spec, binding, filter, table, req).Ok?
    ensures StartOf(env, spec, binding, req.cursor).Ok?
    ensures var p := ListRows(env, spec, binding, filter, table, req).value;
      var start := StartOf(env, spec, binding, req.cursor).value;
      && IsPage(spec, filter, table, start, p.rows, p.next != "")
      && |p.rows| <= ResolveLimit(req.limit).value
      && (p.next != "" ==>
            && |p.rows| == ResolveLimit(req.limit).value
            && StartOf(env, spec, binding, p.next) == Ok(Some(PosOf(spec, p.rows[|p.rows| - 1]))))
  {
    var limit := ResolveLimit(req.limit).value;
    var start := StartOf(env, spec, binding, req.cursor).value;
    QueryIsPage(spec, filter, table, start, limit);
    var found := RunQuery(spec, table, filter, KeysetOf(spec, start), limit + 1);
    if |found| > limit {
      TokenRoundTrip(env, spec, binding, found[limit - 1]);
    }
    hide RunQuery, IsPage, StartOf, PosFits;
  }

  lemma {:induction false} NamesIff(env: Env, spec: Spec, cursor: Cursor, at: Pos)
    ensures CursorPos(env, spec, cursor) == Ok(at) <==> Names(env, spec, cursor, at)
    ensures CursorPos(env, spec, cursor).Err? ==> CursorPos(env, spec, cursor) == Err(InvalidRequest)
  {
  }

  /** A cursor that is not the empty one is read as the position it is signed for, or refused. */
  lemma {:induction false} StartIff(env: Env, spec: Spec, binding: Binding, token: string, at: Pos)
    requires token != ""
    ensures StartOf(env, spec, binding, token) == Ok(Some(at)) <==> StartsAt(env, spec, binding, token, at)
    ensures StartOf(env, spec, binding, token).Err? ==> StartOf(env, spec, binding, token) == Err(InvalidRequest)
    ensures StartOf(env, spec, binding, token) != Ok(None)
  {
    var decoded := DecodeCursor(env.codec, token, binding);
    if decoded.Ok? {
      AcceptedIffSigned(env.codec, token, binding, decoded.value);
      NamesIff(env, spec, decoded.value, at);
    }
    hide DecodeCursor, Signed, Names, CursorPos;
    forall cursor, encoded | Signed(env.codec, token, Payload(1, binding, cursor), encoded)
      ensures decoded == Ok(cursor)
    {
      AcceptedIffSigned(env.codec, token, binding, cursor);
    }
  }

  lemma {:induction false} FirstPage(env: Env, spec: Spec, binding: Binding)
    ensures StartOf(env, spec, binding, "") == Ok(None)
  {
  }

  lemma {:induction false} StartMeant(env: Env, spec: Spec, binding: Binding, token: string)
    ensures var r := StartOf(env, spec, binding, token);
      && (r.Ok? ==> StartsFrom(env, spec, binding, token, r.value))
      && (r.Err? ==> r == Err(InvalidRequest) && token != "" && forall at :: !StartsAt(env, spec, binding, token, at))
  {
    var r := StartOf(env, spec, binding, token);
    FirstPage(env, spec, binding);
    hide StartOf, StartsAt;
    if token != "" {
      forall at ensures r == Ok(Some(at)) <==> StartsAt(env, spec, binding, token, at) {
        StartIff(env, spec, binding, token, at);
      }
      StartIff(env, spec, binding, token, Pos(Null, 0));
    }
  }

  lemma {:induction false} PageMeant(env: Env, spec: Spec, binding: Binding, filter: Row -> bool, table: seq<Row>,
                                     req: Request)
    requires env.Valid() && ValidRows(spec, table) && ListRows(env, spec, binding, filter, table, req).Ok?
    ensures var p := ListRows(env, spec, binding, filter, table, req).value;
      && Shows(env, spec, binding, filter, table, req, p.rows, p.next != "")
      && (p.next != "" ==>
           p.rows != [] && StartsAt(env, spec, binding, p.next, PosOf(spec, p.rows[|p.rows| - 1])))
  {
    CallMeaning(env, spec, binding, filter, table, req);
    StartMeant(env, spec, binding, req.cursor);
    var p := ListRows(env, spec, binding, filter, table, req).value;
    if p.next != "" {
      StartIff(env, spec, binding, p.next, PosOf(spec, p.rows[|p.rows| - 1]));
    }
    hide StartOf, StartsAt, StartsFrom, IsPage, RunQuery, NextToken, Select;
  }

  lemma {:induction false} CanIssueIff(env: Env, spec: Spec, binding: Binding, row: Row)
    ensures EncodeCursor(env.codec, binding, CursorOf(env, spec, row)).Ok? <==> CanIssue(env, spec, binding, row)
  {
    IssuedIff(env.codec, binding, CursorOf(env, spec, row));
    hide EncodeCursor, CursorOf;
  }

  /** A call that cannot encode its next cursor has read more rows than it may show. */
  lemma {:induction false} EncodeStep(env: Env, spec: Spec, binding: Binding, filter: Row -> bool, table: seq<Row>,
                                      req: Request)
    requires ListRows(env, spec, binding, filter, table, req) == Err(EncodeFailed)
    ensures ResolveLimit(req.limit).Ok? && StartOf(env, spec, binding, req.cursor).Ok?
    ensures var limit := ResolveLimit(req.limit).value;
      var start := StartOf(env, spec, binding, req.cursor).value;
      var found := RunQuery(spec, table, filter, KeysetOf(spec, start), limit + 1);
      |found| > limit && !CanIssue(env, spec, binding, found[limit - 1])
  {
    hide StartOf, StartsAt, StartsFrom, RunQuery, Select, EncodeCursor, CursorOf, KeysetOf, CanIssue;
    StartMeant(env, spec, binding, req.cursor);
    var limit := ResolveLimit(req.limit).value;
    var start := StartOf(env, spec, binding, req.cursor).value;
    var found := RunQuery(spec, table, filter, KeysetOf(spec, start), limit + 1);
    assert NextToken(env, spec, binding, found, limit) == Err(EncodeFailed);
    CanIssueIff(env, spec, binding, found[limit - 1]);
  }

  lemma {:induction false} EncodeMeant(env: Env, spec: Spec, binding: Binding, filter: Row -> bool, table: seq<Row>,
                                       req: Request)
    requires env.Valid() && ValidRows(spec, table)
    requires ListRows(env, spec, binding, filter, table, req) == Err(EncodeFailed)
    ensures exists rows :: rows != [] && Shows(env, spec, binding, filter, table, req, rows, true)
                           && !CanIssue(env, spec, binding, rows[|rows| - 1])
  {
    hide ListRows, StartOf, StartsAt, StartsFrom, IsPage, RunQuery, Select, Env.Valid, ValidRows, CanIssue, KeysetOf;
    EncodeStep(env, spec, binding, filter, table, req);
    StartMeant(env, spec, binding, req.cursor);
    var limit := ResolveLimit(req.limit).value;
    var start := StartOf(env, spec, binding, req.cursor).value;
    QueryIsPage(spec, filter, table, start, limit);
    var found := RunQuery(spec, table, filter, KeysetOf(spec, start), limit + 1);
    var rows := Take(found, limit);
    assert rows[|rows| - 1] == found[limit - 1];
    assert Shows(env, spec, binding, filter, table, req, rows, true);
  }

  lemma {:induction false} RefusedMeant(env: Env, spec: Spec, binding: Binding, filter: Row -> bool, table: seq<Row>,
                                        req: Request)
    ensures var r := ListRows(env, spec, binding, filter, table, req);
      && (r == Err(IncompleteSpec) <==> binding.resource == "" || binding.context == "")
      && (r == Err(InvalidRequest) <==>
           binding.resource != "" && binding.context != "" && Refused(env, spec, binding, req))
  {
    StartMeant(env, spec, binding, req.cursor);
    if StartOf(env, spec, binding, req.cursor).Ok? && req.cursor != "" {
      assert StartsAt(env, spec, binding, req.cursor, StartOf(env, spec, binding, req.cursor).value.value);
    }
    hide StartOf, StartsAt, RunQuery, Select, EncodeCursor, CursorOf, KeysetOf;
  }

  lemma {:induction false} RowsMeant(env: Env, spec: Spec, binding: Binding, filter: Row -> bool, table: seq<Row>,
                                     req: Request)
    ensures var r := ListRows(env, spec, binding, filter, table, req);
      env.Valid() && ValidRows(spec, table) ==>
        && (r.Ok? ==>
             && Shows(env, spec, binding, filter, table, req, r.value.rows, r.value.next != "")
             && (r.value.next != "" ==>
                  && r.value.rows != []
                  && StartsAt(env, spec, binding, r.value.next, PosOf(spec, r.value.rows[|r.value.rows| - 1]))))
        && (r == Err(EncodeFailed) ==>
             exists rows :: rows != [] && Shows(env, spec, binding, filter, table, req, rows, true)
                            && !CanIssue(env, spec, binding, rows[|rows| - 1]))
  {
    hide *;
    var r := ListRows(env, spec, binding, filter, table, req);
    if env.Valid() && ValidRows(spec, table) {
      if r.Ok? {
        PageMeant(env, spec, binding, filter, table, req);
      } else if r == Err(EncodeFailed) {
        EncodeMeant(env, spec, binding, filter, table, req);
      }
    }
  }
}
