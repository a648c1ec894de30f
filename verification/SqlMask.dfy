/** The SQL literal masker: pkg/audit/sqlmask.go. A text is a sequence of bytes, written as chars. */
module SqlMask {
  import opened Basics

  const MASK := "***"

  predicate IsIdentChar(c: char) {
    c == '_' || 'a' <= c <= 'z' || 'A' <= c <= 'Z' || IsDigit(c)
  }

  predicate StartsWith(s: string, a: char, b: char) {
    |s| > 1 && s[0] == a && s[1] == b
  }

  // ---------- How much each scanner consumes, as a function of the text that is left ----------

  /** Bytes of a single-quoted literal after its opening quote, through the closing quote. */
  function StringLen(s: string): (n: nat)
    ensures n <= |s|
  {
    if s == [] then 0
    else if s[0] == '\\' then (if |s| == 1 then 1 else 2 + StringLen(s[2..]))
    else if s[0] == '\'' then (if StartsWith(s, '\'', '\'') then 2 + StringLen(s[2..]) else 1)
    else 1 + StringLen(s[1..])
  }

  /** Bytes of a double-quoted identifier after its opening quote. */
  function QuotedLen(s: string): (n: nat)
    ensures n <= |s|
  {
    if s == [] then 0
    else if s[0] == '"' then (if StartsWith(s, '"', '"') then 2 + QuotedLen(s[2..]) else 1)
    else 1 + QuotedLen(s[1..])
  }

  function LineLen(s: string): (n: nat)
    ensures n <= |s|
  {
    if s == [] || s[0] == '\n' then 0 else 1 + LineLen(s[1..])
  }

  /** Bytes of a block comment with depth comments open. */
  function BlockLen(s: string, depth: int): (n: nat)
    ensures n <= |s|
  {
    if s == [] then 0
    else if StartsWith(s, '/', '*') then 2 + BlockLen(s[2..], depth + 1)
    else if StartsWith(s, '*', '/') then (if depth == 1 then 2 else 2 + BlockLen(s[2..], depth - 1))
    else 1 + BlockLen(s[1..], depth)
  }

  /** Bytes of a number; a sign belongs to it only right after an exponent letter. */
  function NumberLen(s: string, afterE: bool): (n: nat)
    ensures n <= |s|
  {
    if s == [] then 0
    else if s[0] == '.' || IsIdentChar(s[0]) then 1 + NumberLen(s[1..], s[0] == 'e' || s[0] == 'E')
    else if (s[0] == '+' || s[0] == '-') && afterE && |s| > 1 && IsDigit(s[1]) then 1 + NumberLen(s[1..], false)
    else 0
  }

  function DigitRun(s: string): (n: nat)
    ensures n <= |s|
    ensures forall i :: 0 <= i < n ==> IsDigit(s[i])
    ensures n < |s| ==> !IsDigit(s[n])
  {
    if s == [] || !IsDigit(s[0]) then 0 else 1 + DigitRun(s[1..])
  }

  function IdentRun(s: string): (n: nat)
    ensures n <= |s|
    ensures forall i :: 0 <= i < n ==> IsIdentChar(s[i])
    ensures n < |s| ==> !IsIdentChar(s[n])
  {
    if s == [] || !IsIdentChar(s[0]) then 0 else 1 + IdentRun(s[1..])
  }

  predicate OccursAt(s: string, tag: string, k: nat) {
    k + |tag| <= |s| && s[k..k + |tag|] == tag
  }

  /** The first occurrence of tag, as strings.Index finds it. */
  function Index(s: string, tag: string): (r: Option<nat>)
    ensures r.Some? ==> r.value + |tag| <= |s|
  {
    if OccursAt(s, tag, 0) then Some(0)
    else if s == [] then None
    else
      var r := Index(s[1..], tag);
      if r.None? then None else Some(r.value + 1)
  }

  lemma {:induction false} SliceOfTail(s: string, a: nat, b: nat)
    requires 1 <= a <= b <= |s|
    ensures s[1..][a - 1..b - 1] == s[a..b]
  {
  }

  lemma {:induction false} OccursInTail(s: string, tag: string, k: nat)
    requires s != [] && k >= 1
    ensures OccursAt(s, tag, k) <==> OccursAt(s[1..], tag, k - 1)
  {
    if k + |tag| <= |s| {
      SliceOfTail(s, k, k + |tag|);
    }
  }

  lemma {:induction false} IndexIsFirst(s: string, tag: string)
    ensures var r := Index(s, tag);
      && (r.Some? ==> OccursAt(s, tag, r.value) && forall k :: 0 <= k < r.value ==> !OccursAt(s, tag, k))
      && (r.None? ==> forall k :: 0 <= k <= |s| ==> !OccursAt(s, tag, k))
  {
    hide OccursAt;
    if !OccursAt(s, tag, 0) && s != [] {
      IndexIsFirst(s[1..], tag);
      forall k: nat | k >= 1 ensures OccursAt(s, tag, k) <==> OccursAt(s[1..], tag, k - 1) {
        OccursInTail(s, tag, k);
      }
    }
  }

  // ---------- Pieces ----------

  datatype Kept = Identifier | LineComment | BlockComment | Placeholder

  /** One step of the scan: a literal to hide, a stretch to copy, or a single byte to copy. */
  datatype Piece = Masked(text: string) | Copied(kind: Kept, text: string) | Plain(text: string)
  {
    function Shown(): string {
      if Masked? then MASK else text
    }
  }

  /** The length of the tag after a dollar sign: empty, or an identifier that starts with no digit. */
  function TagRun(s: string): (n: nat)
    ensures n <= |s|
  {
    if s != [] && !IsDigit(s[0]) then IdentRun(s) else 0
  }

  /** What a text that begins with a dollar sign begins with. */
  function DollarPiece(s: string): Piece
    requires s != [] && s[0] == '$'
  {
    var d := DigitRun(s[1..]);
    if d > 0 && (1 + d == |s| || !IsIdentChar(s[1 + d])) then Copied(Placeholder, s[..1 + d])
    else
      var k := 1 + TagRun(s[1..]);
      if k < |s| && s[k] == '$' then
        match Index(s[k + 1..], s[..k + 1])
        case Some(r) => Masked(s[..k + 1 + r + (k + 1)])
        case None => Plain("$")
      else Plain("$")
  }

  function NextPiece(s: string): Piece
    requires s != []
  {
    var c := s[0];
    if c == '\'' then Masked(s[..1 + StringLen(s[1..])])
    else if c == '"' then Copied(Identifier, s[..1 + QuotedLen(s[1..])])
    else if StartsWith(s, '-', '-') then Copied(LineComment, s[..LineLen(s)])
    else if StartsWith(s, '/', '*') then Copied(BlockComment, s[..BlockLen(s, 0)])
    else if c == '$' then DollarPiece(s)
    else if StartsWith(s, 'e', '\'') || StartsWith(s, 'E', '\'') then Masked(s[..2 + StringLen(s[2..])])
    else if IsDigit(c) || (c == '.' && |s| > 1 && IsDigit(s[1])) then Masked(s[..NumberLen(s, false)])
    else Plain([c])
  }

  /** Every step consumes a non-empty prefix of the text that is left. */
  lemma {:induction false} PieceAdvances(s: string)
    requires s != []
    ensures NextPiece(s).text != [] && NextPiece(s).text <= s
  {
    assert DigitRun(s[1..]) <= |s| - 1;
  }

  function Pieces(s: string): seq<Piece> {
    if s == [] then []
    else
      var p := NextPiece(s);
      PieceAdvances(s);
      [p] + Pieces(s[|p.text|..])
  }

  function Shown(ps: seq<Piece>): string {
    if ps == [] then [] else ps[0].Shown() + Shown(ps[1..])
  }

  function Texts(ps: seq<Piece>): string {
    if ps == [] then [] else ps[0].text + Texts(ps[1..])
  }

  function Mask(s: string): string {
    Shown(Pieces(s))
  }

  // ---------- The scanners as written ----------

  method ScanString(sql: string, start: nat) returns (r: nat)
    requires start <= |sql|
    ensures r == start + StringLen(sql[start..])
  {
    var n, i := |sql|, start;
    while i < n
      invariant start <= i <= n + 1
      invariant i <= n ==> start + StringLen(sql[start..]) == i + StringLen(sql[i..])
      invariant i == n + 1 ==> start + StringLen(sql[start..]) == n
    {
      if sql[i] == '\\' {
        assert i + 2 <= n ==> sql[i..][2..] == sql[i + 2..];
        i := i + 2;
      } else if sql[i] == '\'' {
        if i + 1 < n && sql[i + 1] == '\'' {
          assert sql[i..][2..] == sql[i + 2..];
          i := i + 2;
          continue;
        }
        return i + 1;
      } else {
        assert sql[i..][1..] == sql[i + 1..];
        i := i + 1;
      }
    }
    return n;
  }

  method ScanQuotedIdent(sql: string, start: nat) returns (r: nat)
    requires start <= |sql|
    ensures r == start + QuotedLen(sql[start..])
  {
    var n, i := |sql|, start;
    while i < n
      invariant start <= i <= n
      invariant start + QuotedLen(sql[start..]) == i + QuotedLen(sql[i..])
    {
      if sql[i] == '"' {
        if i + 1 < n && sql[i + 1] == '"' {
          assert sql[i..][2..] == sql[i + 2..];
          i := i + 2;
          continue;
        }
        return i + 1;
      }
      assert sql[i..][1..] == sql[i + 1..];
      i := i + 1;
    }
    return n;
  }

  method ScanLineComment(sql: string, start: nat) returns (r: nat)
    requires start <= |sql|
    ensures r == start + LineLen(sql[start..])
  {
    r := start;
    while r < |sql| && sql[r] != '\n'
      invariant start <= r <= |sql|
      invariant start + LineLen(sql[start..]) == r + LineLen(sql[r..])
    {
      assert sql[r..][1..] == sql[r + 1..];
      r := r + 1;
    }
  }

  lemma {:induction false} BlockStep(sql: string, i: nat, depth: int)
    requires i <= |sql|
    ensures BlockLen(sql[i..], depth) ==
      if i == |sql| then 0
      else if sql[i] == '/' && i + 1 < |sql| && sql[i + 1] == '*' then 2 + BlockLen(sql[i + 2..], depth + 1)
      else if sql[i] == '*' && i + 1 < |sql| && sql[i + 1] == '/' then
        (if depth == 1 then 2 else 2 + BlockLen(sql[i + 2..], depth - 1))
      else 1 + BlockLen(sql[i + 1..], depth)
  {
    if i < |sql| {
      assert sql[i..][1..] == sql[i + 1..] && (i + 1 < |sql| ==> sql[i..][2..] == sql[i + 2..]);
    }
  }

  method ScanBlockComment(sql: string, start: nat) returns (r: nat)
    requires start <= |sql|
    ensures r == start + BlockLen(sql[start..], 0)
  {
    hide *;
    var n, i, depth := |sql|, start, 0;
    while i < n
      invariant start <= i <= n
      invariant start + BlockLen(sql[start..], 0) == i + BlockLen(sql[i..], depth)
    {
      BlockStep(sql, i, depth);
      if sql[i] == '/' && i + 1 < n && sql[i + 1] == '*' {
        depth, i := depth + 1, i + 2;
        continue;
      }
      if sql[i] == '*' && i + 1 < n && sql[i + 1] == '/' {
        depth, i := depth - 1, i + 2;
        if depth == 0 {
          return i;
        }
        continue;
      }
      i := i + 1;
    }
    BlockStep(sql, n, depth);
    return n;
  }

  /** The byte before position i is an exponent letter of the number. */
  predicate AfterExponent(sql: string, start: nat, i: nat) {
    start < i <= |sql| && (sql[i - 1] == 'e' || sql[i - 1] == 'E')
  }

  /** Position i can belong to a number that starts at start: a digit, a point, a letter or an
      underscore, or a sign between an exponent letter of the number and a digit. */
  predicate InNumber(sql: string, start: nat, i: nat) {
    i < |sql| && (
      || IsDigit(sql[i]) || sql[i] == '.' || IsIdentChar(sql[i])
      || ((sql[i] == '+' || sql[i] == '-') && AfterExponent(sql, start, i) && i + 1 < |sql| && IsDigit(sql[i + 1])))
  }

  lemma {:induction false} NumberStep(sql: string, start: nat, i: nat)
    requires start <= i <= |sql|
    ensures NumberLen(sql[i..], AfterExponent(sql, start, i)) ==
      if InNumber(sql, start, i) then 1 + NumberLen(sql[i + 1..], AfterExponent(sql, start, i + 1)) else 0
  {
    if i < |sql| {
      assert sql[i..][1..] == sql[i + 1..];
    }
  }

  /** The longest run of such positions from start on. */
  method ScanNumber(sql: string, start: nat) returns (r: nat)
    requires start <= |sql|
    ensures r == start + NumberLen(sql[start..], false)
    ensures start <= r <= |sql|
    ensures (forall i :: start <= i < r ==> InNumber(sql, start, i)) && !InNumber(sql, start, r)
  {
    hide NumberLen;
    var n := |sql|;
    r := start;
    while r < n
      invariant start <= r <= n
      invariant forall i :: start <= i < r ==> InNumber(sql, start, i)
      invariant start + NumberLen(sql[start..], false) == r + NumberLen(sql[r..], AfterExponent(sql, start, r))
    {
      NumberStep(sql, start, r);
      var c := sql[r];
      if IsDigit(c) || c == '.' || IsIdentChar(c) {
        r := r + 1;
        continue;
      }
      if (c == '+' || c == '-') && r > start && (sql[r - 1] == 'e' || sql[r - 1] == 'E')
         && r + 1 < n && IsDigit(sql[r + 1])
      {
        r := r + 1;
        continue;
      }
      break;
    }
    NumberStep(sql, start, r);
  }

  method ScanDigits(sql: string, start: nat) returns (j: nat)
    requires start <= |sql|
    ensures j == start + DigitRun(sql[start..])
  {
    j := start;
    while j < |sql| && IsDigit(sql[j])
      invariant start <= j <= |sql|
      invariant start + DigitRun(sql[start..]) == j + DigitRun(sql[j..])
    {
      assert sql[j..][1..] == sql[j + 1..];
      j := j + 1;
    }
  }

  /** The end of the tag that starts at start. */
  method ScanTag(sql: string, start: nat) returns (k: nat)
    requires start <= |sql|
    ensures k == start + TagRun(sql[start..])
  {
    k := start;
    if k < |sql| && !IsDigit(sql[k]) {
      while k < |sql| && IsIdentChar(sql[k])
        invariant start <= k <= |sql|
        invariant start + IdentRun(sql[start..]) == k + IdentRun(sql[k..])
      {
        assert sql[k..][1..] == sql[k + 1..];
        k := k + 1;
      }
    }
  }

  lemma {:induction false} Slice(s: string, i: nat, n: nat)
    requires i + n <= |s|
    ensures s[i..][..n] == s[i..i + n] && s[i..][n..] == s[i + n..]
  {
  }

  /** The digits from 1 to d end a placeholder. */
  predicate PlaceholderTo(s: string, d: nat) {
    0 < d < |s| && (1 + d == |s| || !IsIdentChar(s[1 + d]))
  }

  lemma {:induction false} EndsPlaceholder(sql: string, i: nat, d: nat)
    requires i < |sql| && i + 1 + d <= |sql|
    ensures PlaceholderTo(sql[i..], d) <==> d > 0 && (i + 1 + d >= |sql| || !IsIdentChar(sql[i + 1 + d]))
  {
  }

  lemma {:induction false} DollarIsPlaceholder(s: string)
    requires s != [] && s[0] == '$'
    ensures var d := DigitRun(s[1..]); 
      PlaceholderTo(s, d) ==> DollarPiece(s).Shown() == s[..1 + d] && |DollarPiece(s).text| == 1 + d
  {
    hide DigitRun, TagRun, Index, IsIdentChar;
  }

  lemma {:induction false} DollarOpens(s: string, k: nat)
    requires s != [] && s[0] == '$' && !PlaceholderTo(s, DigitRun(s[1..])) && k == 1 + TagRun(s[1..])
    ensures k < |s| && s[k] == '$' ==>
      match Index(s[k + 1..], s[..k + 1])
      case Some(r) => DollarPiece(s).Shown() == MASK && |DollarPiece(s).text| == k + 1 + r + (k + 1)
      case None => DollarPiece(s) == Plain("$") && DollarPiece(s).Shown() == "$"
    ensures k == |s| || s[k] != '$' ==> DollarPiece(s) == Plain("$") && DollarPiece(s).Shown() == "$"
  {
    hide DigitRun, TagRun, Index, IsIdentChar;
  }

  lemma {:induction false} OpensAt(sql: string, i: nat, k: nat)
    requires i < |sql| && sql[i] == '$' && !PlaceholderTo(sql[i..], DigitRun(sql[i..][1..]))
    requires k == 1 + TagRun(sql[i..][1..]) && i + k <= |sql|
    ensures i + k < |sql| && sql[i + k] == '$' ==>
      match Index(sql[i + k + 1..], sql[i..i + k + 1])
      case Some(r) => DollarPiece(sql[i..]).Shown() == MASK && |DollarPiece(sql[i..]).text| == k + 1 + r + (k + 1)
      case None => |DollarPiece(sql[i..]).text| == 1 && DollarPiece(sql[i..]).Shown() == "$"
    ensures i + k == |sql| || sql[i + k] != '$' ==>
      |DollarPiece(sql[i..]).text| == 1 && DollarPiece(sql[i..]).Shown() == "$"
  {
    DollarOpens(sql[i..], k);
    hide *;
    if i + k < |sql| {
      Slice(sql, i, k + 1);
    }
  }

  /** Handles a dollar sign at i; returns what is written and where the scan goes on. */
  method MaskDollar(sql: string, i: nat) returns (shown: string, r: nat)
    requires i < |sql| && sql[i] == '$'
    ensures shown == DollarPiece(sql[i..]).Shown() && r == i + |DollarPiece(sql[i..]).text|
  {
    hide *;
    var n := |sql|;
    ghost var s := sql[i..];
    assert s[1..] == sql[i + 1..] by { Slice(sql, i, 1); }
    var j := ScanDigits(sql, i + 1);
    EndsPlaceholder(sql, i, j - i - 1);
    if j > i + 1 && (j >= n || !IsIdentChar(sql[j])) {
      DollarIsPlaceholder(s);
      Slice(sql, i, j - i);
      return sql[i..j], j;
    }
    var k := ScanTag(sql, i + 1);
    OpensAt(sql, i, k - i);
    if k < n && sql[k] == '$' {
      var tag := sql[i..k + 1];
      var rest := Index(sql[k + 1..], tag);
      if rest.Some? {
        return MASK, k + 1 + rest.value + |tag|;
      }
    }
    return "$", i + 1;
  }

  /** One turn of the scan at i: what is written, and where the scan goes on. */
  method MaskOne(sql: string, i: nat) returns (shown: string, r: nat)
    requires i < |sql|
    ensures shown == NextPiece(sql[i..]).Shown() && r == i + |NextPiece(sql[i..]).text|
  {
    hide StringLen, QuotedLen, LineLen, BlockLen, NumberLen, DollarPiece;
    var c, n := sql[i], |sql|;
    ghost var s := sql[i..];
    assert s[1..] == sql[i + 1..];
    if c == '\'' {
      r := ScanString(sql, i + 1);
      shown := MASK;
    } else if c == '"' {
      r := ScanQuotedIdent(sql, i + 1);
      shown := sql[i..r];
    } else if c == '-' && i + 1 < n && sql[i + 1] == '-' {
      r := ScanLineComment(sql, i);
      shown := sql[i..r];
    } else if c == '/' && i + 1 < n && sql[i + 1] == '*' {
      r := ScanBlockComment(sql, i);
      shown := sql[i..r];
    } else if c == '$' {
      shown, r := MaskDollar(sql, i);
    } else if (c == 'e' || c == 'E') && i + 1 < n && sql[i + 1] == '\'' {
      assert s[2..] == sql[i + 2..];
      r := ScanString(sql, i + 2);
      shown := MASK;
    } else if IsDigit(c) || (c == '.' && i + 1 < n && IsDigit(sql[i + 1])) {
      r := ScanNumber(sql, i);
      shown := MASK;
    } else {
      shown, r := [c], i + 1;
    }
    assert r <= n ==> sql[i..r] == s[..r - i];
  }

  method MaskSQL(sql: string) returns (b: string)
    ensures b == Mask(sql)
  {
    assert Mask("") == "";
    hide *;
    b := "";
    var i, n := 0, |sql|;
    assert sql[0..] == sql;
    while i < n
      invariant 0 <= i <= n
      invariant Mask(sql) == b + Mask(sql[i..])
      decreases n - i
    {
      var shown, r := MaskOne(sql, i);
      OneMorePiece(sql, i, b, shown, r);
      b, i := b + shown, r;
    }
    assert sql[n..] == "";
  }

  lemma {:induction false} OneMorePiece(sql: string, i: nat, b: string, shown: string, r: nat)
    requires i < |sql| && shown == NextPiece(sql[i..]).Shown() && r == i + |NextPiece(sql[i..]).text|
    ensures i < r <= |sql| && b + Mask(sql[i..]) == (b + shown) + Mask(sql[r..])
  {
    MaskStep(sql[i..]);
    hide *;
    assert sql[i..][r - i..] == sql[r..];
    Reassociate(b, shown, Mask(sql[r..]));
  }

  lemma {:induction false} MaskStep(s: string)
    requires s != []
    ensures NextPiece(s).text <= s && NextPiece(s).text != []
    ensures Mask(s) == NextPiece(s).Shown() + Mask(s[|NextPiece(s).text|..])
  {
    PieceAdvances(s);
    var p := NextPiece(s);
    var ps := Pieces(s);
    assert ps[1..] == Pieces(s[|p.text|..]);
  }
}
