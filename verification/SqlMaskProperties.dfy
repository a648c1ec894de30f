/** What the masker hides: nothing but placeholders, quoted identifiers and comments shows a digit,
    and which bodies of string literals have no influence on the output. */
module SqlMaskProperties {
  import opened Basics
  import opened SqlGrammar
  import opened SqlMask

  /** The pieces put end to end are the text: no byte is skipped or read twice. */
  lemma {:induction false} PiecesCoverText(s: string)
    ensures Texts(Pieces(s)) == s
  {
    if s != [] {
      PieceAdvances(s);
      var p := NextPiece(s);
      PiecesCoverText(s[|p.text|..]);
      assert Pieces(s)[1..] == Pieces(s[|p.text|..]);
    }
  }

  /** What a piece that is shown as it stands can be, and how far it goes when after follows it. */
  ghost predicate Harmless(p: Piece, after: string) {
    match p
    case Masked(_) => true
    case Plain(t) => |t| == 1 && !IsDigit(t[0]) && t[0] != '\'' && t[0] != '"'
    case Copied(Identifier, t) =>
      t != [] && t[0] == '"' && (Closed('"', false, t[1..], after) || CutOff('"', t[1..], after))
    case Copied(LineComment, t) => StartsWith(t, '-', '-') && '\n' !in t && (after == [] || after[0] == '\n')
    case Copied(BlockComment, t) => IsComment(t, after)
    case Copied(Placeholder, t) =>
      && |t| > 1 && t[0] == '$' && (forall i :: 1 <= i < |t| ==> IsDigit(t[i]))
      && (after == [] || !IsIdentChar(after[0]))
  }

  lemma {:induction false} LineHasNoBreak(s: string)
    ensures '\n' !in s[..LineLen(s)]
  {
    if s != [] && s[0] != '\n' {
      LineHasNoBreak(s[1..]);
      assert s[..LineLen(s)] == [s[0]] + s[1..][..LineLen(s[1..])];
    }
  }

  lemma {:induction false} LineStops(s: string)
    ensures LineLen(s) == |s| || s[LineLen(s)] == '\n'
  {
    if s != [] && s[0] != '\n' {
      LineStops(s[1..]);
    }
  }

  lemma {:induction false} IdentifierIsHarmless(s: string)
    requires s != [] && s[0] == '"'
    ensures Harmless(NextPiece(s), s[|NextPiece(s).text|..])
  {
    var n := QuotedLen(s[1..]);
    QuotedIsIdentifier(s[1..]);
    assert s[..1 + n][1..] == s[1..][..n] && s[1 + n..] == s[1..][n..];
  }

  lemma {:induction false} PieceIsHarmless(s: string)
    requires s != []
    ensures Harmless(NextPiece(s), s[|NextPiece(s).text|..])
  {
    var p := NextPiece(s);
    if s[0] == '"' {
      IdentifierIsHarmless(s);
    } else if StartsWith(s, '-', '-') {
      LineHasNoBreak(s);
      LineStops(s);
      assert LineLen(s) == 2 + LineLen(s[1..][1..]);
    } else if StartsWith(s, '/', '*') {
      BlockIsComment(s);
    } else if p.Copied? {
      assert p.kind == Placeholder;
      var d := DigitRun(s[1..]);
      assert forall i :: 1 <= i <= d ==> p.text[i] == s[1..][i - 1];
    }
  }

  /** Outside identifiers in double quotes, comments and $n, no digit and no quote is shown; and each
      of those is one identifier, one comment or one placeholder. */
  lemma {:induction false} OnlyHarmlessShown(s: string, i: nat)
    requires i < |Pieces(s)|
    ensures Harmless(Pieces(s)[i], Texts(Pieces(s)[i + 1..]))
  {
    PieceAdvances(s);
    var n := |NextPiece(s).text|;
    PiecesCoverText(s[n..]);
    assert Pieces(s)[1..] == Pieces(s[n..]);
    hide NextPiece, Harmless;
    if i == 0 {
      PieceIsHarmless(s);
    } else {
      OnlyHarmlessShown(s[n..], i - 1);
      assert Pieces(s)[i + 1..] == Pieces(s[n..])[i..];
    }
  }

  // ---------- Non-interference ----------

  /** Some piece of the scan of s starts at i. */
  predicate Reaches(s: string, i: nat) {
    i == 0 || (
      s != [] &&
      var n := |NextPiece(s).text|;
      0 < n <= i && n <= |s| && Reaches(s[n..], i - n))
  }

  /** The two ways a string literal can open. */
  predicate IsOpening(open: string) {
    open == "'" || open == "E'" || open == "e'"
  }

  /** What follows the common beginning of two texts: the same opening, then anything. */
  ghost predicate SameOpening(y: string, z: string) {
    exists open :: IsOpening(open) && open <= y && open <= z
  }

  lemma {:induction false} StringLocal(x: string, y: string, z: string)
    requires SameOpening(y, z) && StringLen(x + y) <= |x|
    ensures StringLen(x + z) == StringLen(x + y)
  {
    if x != [] {
      assert (x + y)[1..] == x[1..] + y && (x + z)[1..] == x[1..] + z;
      if |x| > 1 {
        assert (x + y)[2..] == x[2..] + y && (x + z)[2..] == x[2..] + z;
        if x[0] == '\\' || StartsWith(x, '\'', '\'') {
          StringLocal(x[2..], y, z);
        } else if x[0] != '\'' {
          StringLocal(x[1..], y, z);
        }
      } else if x[0] != '\'' && x[0] != '\\' {
        StringLocal(x[1..], y, z);
      }
    }
  }

  lemma {:induction false} QuotedLocal(x: string, y: string, z: string)
    requires SameOpening(y, z) && QuotedLen(x + y) <= |x|
    ensures QuotedLen(x + z) == QuotedLen(x + y)
  {
    if x != [] {
      assert (x + y)[1..] == x[1..] + y && (x + z)[1..] == x[1..] + z;
      if StartsWith(x, '"', '"') {
        assert (x + y)[2..] == x[2..] + y && (x + z)[2..] == x[2..] + z;
        QuotedLocal(x[2..], y, z);
      } else if x[0] != '"' {
        QuotedLocal(x[1..], y, z);
      }
    }
  }

  lemma {:induction false} LineLocal(x: string, y: string, z: string)
    requires SameOpening(y, z) && LineLen(x + y) <= |x|
    ensures LineLen(x + z) == LineLen(x + y)
  {
    if x != [] && x[0] != '\n' {
      assert (x + y)[1..] == x[1..] + y && (x + z)[1..] == x[1..] + z;
      LineLocal(x[1..], y, z);
    }
  }

  lemma {:induction false} BlockLocal(x: string, y: string, z: string, depth: int)
    requires SameOpening(y, z) && BlockLen(x + y, depth) <= |x|
    ensures BlockLen(x + z, depth) == BlockLen(x + y, depth)
  {
    if x != [] {
      assert (x + y)[1..] == x[1..] + y && (x + z)[1..] == x[1..] + z;
      if StartsWith(x, '/', '*') {
        assert (x + y)[2..] == x[2..] + y && (x + z)[2..] == x[2..] + z;
        BlockLocal(x[2..], y, z, depth + 1);
      } else if StartsWith(x, '*', '/') {
        assert (x + y)[2..] == x[2..] + y && (x + z)[2..] == x[2..] + z;
        if depth != 1 {
          BlockLocal(x[2..], y, z, depth - 1);
        }
      } else {
        BlockLocal(x[1..], y, z, depth);
      }
    }
  }

  lemma {:induction false} NumberLocal(x: string, y: string, z: string, afterE: bool)
    requires SameOpening(y, z) && NumberLen(x + y, afterE) <= |x|
    ensures NumberLen(x + z, afterE) == NumberLen(x + y, afterE)
  {
    if x != [] {
      assert (x + y)[1..] == x[1..] + y && (x + z)[1..] == x[1..] + z;
      if x[0] == '.' || IsIdentChar(x[0]) {
        NumberLocal(x[1..], y, z, x[0] == 'e' || x[0] == 'E');
      } else if NumberLen(x + y, afterE) > 0 {
        NumberLocal(x[1..], y, z, false);
      }
    }
  }

  lemma {:induction false} DigitsLocal(x: string, y: string, z: string)
    requires SameOpening(y, z)
    ensures DigitRun(x + z) == DigitRun(x + y) <= |x|
  {
    if x == [] {
      assert x + y == y && x + z == z;
      OpeningRuns(y);
      OpeningRuns(z);
    } else {
      hide SameOpening, IsDigit;
      assert (x + y)[1..] == x[1..] + y && (x + z)[1..] == x[1..] + z && (x + y)[0] == (x + z)[0];
      DigitsLocal(x[1..], y, z);
    }
  }

  lemma {:induction false} RunsLocal(x: string, y: string, z: string)
    requires SameOpening(y, z)
    ensures IdentRun(x + z) == IdentRun(x + y) <= |x| + 1
    ensures IdentRun(x + y) == |x| + 1 ==> |y| > 1 && |z| > 1 && y[1] == z[1] == '\''
  {
    if x == [] {
      assert x + y == y && x + z == z;
      OpeningRuns(y);
      OpeningRuns(z);
    } else {
      hide SameOpening, IsIdentChar;
      assert (x + y)[1..] == x[1..] + y && (x + z)[1..] == x[1..] + z && (x + y)[0] == (x + z)[0];
      RunsLocal(x[1..], y, z);
    }
  }

  lemma {:induction false} OpeningRuns(y: string)
    requires SameOpening(y, y)
    ensures y != [] && DigitRun(y) == 0
    ensures if y[0] == '\'' then IdentRun(y) == 0 else |y| > 1 && y[1] == '\'' && IdentRun(y) == 1
  {
    if y[0] != '\'' {
      assert y[1..][0] == '\'';
    }
  }

  /** An occurrence that ends inside the common beginning is an occurrence in both texts. */
  lemma {:induction false} OccursLocal(x: string, y: string, z: string, tag: string, k: nat)
    requires k + |tag| <= |x|
    ensures OccursAt(x + y, tag, k) <==> OccursAt(x + z, tag, k)
  {
    assert (x + y)[k..k + |tag|] == x[k..k + |tag|] == (x + z)[k..k + |tag|];
  }

  lemma {:induction false} IndexLocal(x: string, y: string, z: string, tag: string)
    requires Index(x + y, tag).Some? ==> Index(x + y, tag).value + |tag| <= |x|
    requires Index(x + z, tag).Some? ==> Index(x + z, tag).value + |tag| <= |x|
    ensures Index(x + z, tag) == Index(x + y, tag)
  {
    IndexIsFirst(x + y, tag);
    IndexIsFirst(x + z, tag);
    if Index(x + y, tag).Some? {
      OccursLocal(x, y, z, tag, Index(x + y, tag).value);
    }
    if Index(x + z, tag).Some? {
      OccursLocal(x, y, z, tag, Index(x + z, tag).value);
    }
  }

  /** The digits and the tag after a dollar sign, when what follows is a quote or E and a quote. */
  lemma {:induction false} DollarRunsLocal(x: string, y: string, z: string)
    requires SameOpening(y, z) && x != []
    ensures DigitRun((x + y)[1..]) == DigitRun((x + z)[1..]) < |x|
    ensures TagRun((x + y)[1..]) == TagRun((x + z)[1..]) <= |x|
    ensures forall i :: 0 <= i <= |x| ==> (x + y)[i] == (x + z)[i]
    ensures TagRun((x + y)[1..]) >= |x| - 1 ==>
      var k := 1 + TagRun((x + y)[1..]); k < |x + y| && k < |x + z| && (x + y)[k] != '$' && (x + z)[k] != '$'
  {
    assert (x + y)[1..] == x[1..] + y && (x + z)[1..] == x[1..] + z;
    DigitsLocal(x[1..], y, z);
    RunsLocal(x[1..], y, z);
    OpeningFirst(y, z);
    hide SameOpening, DigitRun, IdentRun;
    assert forall i :: 0 <= i < |x| ==> (x + y)[i] == x[i] == (x + z)[i];
    assert forall i :: |x| <= i < |x + y| ==> (x + y)[i] == y[i - |x|];
    assert forall i :: |x| <= i < |x + z| ==> (x + z)[i] == z[i - |x|];
  }

  lemma {:induction false} OpeningFirst(y: string, z: string)
    requires SameOpening(y, z)
    ensures y != [] && z != [] && y[0] == z[0] && y[0] != '$' && !IsDigit(y[0])
  {
  }

  predicate IsPlaceholder(s: string)
    requires s != []
  {
    var d := DigitRun(s[1..]);
    d > 0 && (1 + d == |s| || !IsIdentChar(s[1 + d]))
  }

  lemma {:induction false} PlaceholderLocal(x: string, y: string, z: string)
    requires SameOpening(y, z) && x != [] && x[0] == '$'
    ensures IsPlaceholder(x + y) <==> IsPlaceholder(x + z)
    ensures IsPlaceholder(x + y) ==> DollarPiece(x + z) == DollarPiece(x + y)
  {
    DollarRunsLocal(x, y, z);
    var d := DigitRun((x + y)[1..]);
    assert (x + y)[..1 + d] == x[..1 + d] == (x + z)[..1 + d];
    assert (x + y)[1 + d] == (x + z)[1 + d];
  }

  lemma {:induction false} DollarLocal(x: string, y: string, z: string)
    requires SameOpening(y, z) && x != [] && x[0] == '$'
    requires |DollarPiece(x + y).text| <= |x| && |DollarPiece(x + z).text| <= |x|
    ensures DollarPiece(x + z) == DollarPiece(x + y)
  {
    hide SameOpening, DigitRun, TagRun, Index;
    PlaceholderLocal(x, y, z);
    if !IsPlaceholder(x + y) {
      DollarRunsLocal(x, y, z);
      var k := 1 + TagRun((x + y)[1..]);
      if k < |x| && x[k] == '$' {
        QuoteLocal(x, y, z, k);
      }
    }
  }

  /** A dollar quote that opens in the common beginning, or its dollar sign when nothing closes it. */
  lemma {:induction false} QuoteLocal(x: string, y: string, z: string, k: nat)
    requires 0 < k < |x|
    requires var r := Index((x + y)[k + 1..], (x + y)[..k + 1]); r.Some? ==> k + 1 + r.value + (k + 1) <= |x|
    requires var r := Index((x + z)[k + 1..], (x + z)[..k + 1]); r.Some? ==> k + 1 + r.value + (k + 1) <= |x|
    ensures (x + y)[..k + 1] == (x + z)[..k + 1]
    ensures Index((x + y)[k + 1..], (x + y)[..k + 1]) == Index((x + z)[k + 1..], (x + z)[..k + 1])
    ensures var r := Index((x + y)[k + 1..], (x + y)[..k + 1]);
      r.Some? ==> (x + y)[..k + 1 + r.value + (k + 1)] == (x + z)[..k + 1 + r.value + (k + 1)]
  {
    hide *;
    PrefixOfBoth(x, y, z, k + 1);
    IndexLocal(x[k + 1..], y, z, x[..k + 1]);
    var r := Index((x + y)[k + 1..], x[..k + 1]);
    if r.Some? {
      PrefixOfBoth(x, y, z, k + 1 + r.value + (k + 1));
    }
  }

  lemma {:induction false} PrefixOfBoth(x: string, y: string, z: string, n: nat)
    requires n <= |x|
    ensures (x + y)[..n] == x[..n] && (x + z)[..n] == x[..n]
    ensures (x + y)[n..] == x[n..] + y && (x + z)[n..] == x[n..] + z
  {
  }

  lemma {:induction false} QuotedPieceLocal(x: string, y: string, z: string)
    requires SameOpening(y, z) && x != [] && (x[0] == '\'' || x[0] == '"')
    requires |NextPiece(x + y).text| <= |x|
    ensures NextPiece(x + z) == NextPiece(x + y)
  {
    var s, t := x + y, x + z;
    assert s[1..] == x[1..] + y && t[1..] == x[1..] + z;
    var n := |NextPiece(s).text|;
    assert s[..n] == x[..n] == t[..n];
    if x[0] == '\'' {
      StringLocal(x[1..], y, z);
    } else {
      QuotedLocal(x[1..], y, z);
    }
  }

  lemma {:induction false} EscapePieceLocal(x: string, y: string, z: string)
    requires SameOpening(y, z) && x != []
    requires StartsWith(x + y, 'e', '\'') || StartsWith(x + y, 'E', '\'')
    requires |NextPiece(x + y).text| <= |x|
    ensures NextPiece(x + z) == NextPiece(x + y)
  {
    var s, t := x + y, x + z;
    assert |x| > 1;
    assert s[2..] == x[2..] + y && t[2..] == x[2..] + z;
    StringLocal(x[2..], y, z);
    var n := |NextPiece(s).text|;
    assert s[..n] == x[..n] == t[..n];
  }

  lemma {:induction false} CommentPieceLocal(x: string, y: string, z: string)
    requires SameOpening(y, z) && x != []
    requires StartsWith(x + y, '-', '-') || StartsWith(x + y, '/', '*')
    requires |NextPiece(x + y).text| <= |x|
    ensures NextPiece(x + z) == NextPiece(x + y)
  {
    var s, t := x + y, x + z;
    assert s[|x|] == y[0] == z[0] == t[|x|];
    if StartsWith(s, '-', '-') {
      LineLocal(x, y, z);
    } else {
      BlockLocal(x, y, z, 0);
    }
    var n := |NextPiece(s).text|;
    assert s[..n] == x[..n] == t[..n];
  }

  /** A piece that ends inside the common beginning of two texts is a piece of both, unless a dollar
      quote of the second one swallows the opening. */
  lemma {:induction false} PieceLocal(x: string, y: string, z: string)
    requires SameOpening(y, z) && x != []
    requires |NextPiece(x + y).text| <= |x|
    requires |NextPiece(x + z).text| <= |x| || x[0] != '$'
    ensures NextPiece(x + z) == NextPiece(x + y)
  {
    var s, t := x + y, x + z;
    assert s[|x|] == y[0] == z[0] == t[|x|];
    if x[0] == '\'' || x[0] == '"' {
      QuotedPieceLocal(x, y, z);
    } else if StartsWith(s, '-', '-') || StartsWith(s, '/', '*') {
      CommentPieceLocal(x, y, z);
    } else if x[0] == '$' {
      DollarLocal(x, y, z);
    } else if StartsWith(s, 'e', '\'') || StartsWith(s, 'E', '\'') {
      EscapePieceLocal(x, y, z);
    } else if NextPiece(s).Masked? {
      NumberLocal(x, y, z, false);
      var n := |NextPiece(s).text|;
      assert s[..n] == x[..n] == t[..n];
    }
  }

  /** Both scans take the same step before the opening. */
  lemma {:induction false} StepLocal(x: string, y: string, z: string) returns (p: Piece)
    requires SameOpening(y, z) && x != []
    requires Reaches(x + y, |x|) && Reaches(x + z, |x|)
    ensures 0 < |p.text| <= |x|
    ensures Mask(x + y) == p.Shown() + Mask(x[|p.text|..] + y) && Mask(x + z) == p.Shown() + Mask(x[|p.text|..] + z)
    ensures Reaches(x[|p.text|..] + y, |x| - |p.text|) && Reaches(x[|p.text|..] + z, |x| - |p.text|)
  {
    hide NextPiece;
    PieceLocal(x, y, z);
    p := NextPiece(x + y);
    var n := |p.text|;
    assert (x + y)[n..] == x[n..] + y && (x + z)[n..] == x[n..] + z;
    MaskStep(x + y);
    MaskStep(x + z);
  }

  /** What is shown before the opening is the same in both texts. */
  lemma {:induction false} PrefixLocal(x: string, y: string, z: string) returns (shown: string)
    requires SameOpening(y, z)
    requires Reaches(x + y, |x|) && Reaches(x + z, |x|)
    ensures Mask(x + y) == shown + Mask(y) && Mask(x + z) == shown + Mask(z)
  {
    hide *;
    if x == [] {
      assert x + y == y && x + z == z;
      shown := "";
    } else {
      var p := StepLocal(x, y, z);
      var rest := PrefixLocal(x[|p.text|..], y, z);
      shown := p.Shown() + rest;
      Reassociate(p.Shown(), rest, Mask(y));
      Reassociate(p.Shown(), rest, Mask(z));
    }
  }

  /** literal is the rest of a string literal after its opening quote, when after follows it. */
  predicate IsLiteralBefore(literal: string, after: string) {
    StringLen(literal + after) == |literal|
  }

  lemma {:induction false} LiteralStep(open: string, literal: string, after: string)
    requires IsOpening(open) && IsLiteralBefore(literal, after)
    ensures Mask(open + literal + after) == MASK + Mask(after)
  {
    var s := open + literal + after;
    OpeningPiece(open, literal, after);
    MaskStep(s);
    ThreeParts(open, literal, after);
    hide *;
  }

  /** Two texts that differ only in what the scanner takes for a literal, closed or running to the
      end, whose opening both scans reach, are masked to the same output. */
  lemma {:induction false} ScannedLiteralsDoNotInterfere(before: string, open: string, one: string, two: string,
                                                         after: string)
    requires IsOpening(open)
    requires IsLiteralBefore(one, after) && IsLiteralBefore(two, after)
    requires Reaches(before + (open + one + after), |before|) && Reaches(before + (open + two + after), |before|)
    ensures Mask(before + (open + one + after)) == Mask(before + (open + two + after))
  {
    var y, z := open + one + after, open + two + after;
    assert open <= y && open <= z;
    hide NextPiece, Reaches, Mask;
    var _ := PrefixLocal(before, y, z);
    LiteralStep(open, one, after);
    LiteralStep(open, two, after);
  }

  // ---------- Literals as PostgreSQL defines them ----------

  /** Two texts that differ only in the body of a string literal are masked to the same output, when
      both scans reach its opening and no quote of a body stands after an odd run of backslashes that
      only the scanner takes for an escape. */
  lemma {:induction false} LiteralsDoNotInterfere(before: string, open: string, escapes: bool, one: string, two: string,
                                                  after: string)
    requires IsOpening(open)
    requires IsLiteral(escapes, one, after) && IsLiteral(escapes, two, after)
    requires Seen(escapes, one, after) && Seen(escapes, two, after)
    requires Reaches(before + (open + one + after), |before|) && Reaches(before + (open + two + after), |before|)
    ensures Mask(before + (open + one + after)) == Mask(before + (open + two + after))
  {
    hide Seen, IsLiteral, Reaches, Mask;
    ScannerEndsWithLiteral(escapes, one, after);
    ScannerEndsWithLiteral(escapes, two, after);
    ScannedLiteralsDoNotInterfere(before, open, one, two, after);
  }

  /** The literal is one masked piece of the text. */
  ghost predicate IsOnePiece(before: string, literal: string, after: string) {
    exists ps :: Texts(ps) == before && Pieces(before + (literal + after)) == ps + [Masked(literal)] + Pieces(after)
  }

  /** A literal whose opening the scan reaches is hidden as one piece, no byte of it shown and none
      after it lost, exactly when the scanner sees it as PostgreSQL does. */
  lemma {:induction false} LiteralIsHiddenIff(before: string, open: string, escapes: bool, lit: string, after: string)
    requires IsOpening(open) && IsLiteral(escapes, lit, after)
    requires Reaches(before + (open + lit + after), |before|)
    ensures IsOnePiece(before, open + lit, after) <==> Seen(escapes, lit, after)
  {
    hide Seen, IsLiteral, NextPiece, Reaches, Pieces, Texts;
    var y := open + lit + after;
    ScannerEndsWithLiteral(escapes, lit, after);
    OpeningPiece(open, lit, after);
    var ps := PiecesBefore(before, y);
    if IsLiteralBefore(lit, after) {
      OpeningPieces(open, lit, after);
      assert ps + ([Masked(open + lit)] + Pieces(after)) == ps + [Masked(open + lit)] + Pieces(after);
    }
    if IsOnePiece(before, open + lit, after) {
      var qs :| Texts(qs) == before && Pieces(before + y) == qs + [Masked(open + lit)] + Pieces(after);
      assert Pieces(before + y) == qs + ([Masked(open + lit)] + Pieces(after));
      SamePrefix(ps, Pieces(y), qs, [Masked(open + lit)] + Pieces(after), before + y);
      FirstPiece(y);
      assert Pieces(y)[0] == Masked(open + lit);
    }
  }

  lemma {:induction false} OpeningPiece(open: string, lit: string, after: string)
    requires IsOpening(open)
    ensures open + lit + after != []
    ensures NextPiece(open + lit + after) == Masked((open + lit + after)[..|open| + StringLen(lit + after)])
    ensures NextPiece(open + lit + after) == Masked(open + lit) <==> IsLiteralBefore(lit, after)
  {
    var s := open + lit + after;
    ThreeParts(open, lit, after);
    OpeningNext(open, s);
    hide IsOpening, NextPiece, StringLen;
  }

  lemma {:induction false} OpeningNext(open: string, s: string)
    requires IsOpening(open) && open <= s
    ensures open != [] && NextPiece(s) == Masked(s[..|open| + StringLen(s[|open|..])])
  {
    hide StringLen;
    assert s[0] == open[0] && (|open| > 1 ==> s[1] == open[1]);
  }

  lemma {:induction false} ThreeParts(a: string, b: string, c: string)
    ensures (a + b + c)[|a|..] == b + c && (a + b + c)[..|a| + |b|] == a + b && (a + b + c)[|a| + |b|..] == c
    ensures forall n :: |a| <= n <= |a + b + c| && (a + b + c)[..n] == a + b ==> n == |a| + |b|
  {
  }

  lemma {:induction false} OpeningPieces(open: string, lit: string, after: string)
    requires IsOpening(open) && IsLiteralBefore(lit, after)
    ensures Pieces(open + lit + after) == [Masked(open + lit)] + Pieces(after)
  {
    OpeningPiece(open, lit, after);
    assert (open + lit + after)[|open + lit|..] == after;
    hide NextPiece;
  }

  lemma {:induction false} FirstPiece(s: string)
    requires s != []
    ensures 0 < |NextPiece(s).text| <= |s| && NextPiece(s).text == s[..|NextPiece(s).text|]
    ensures Pieces(s) == [NextPiece(s)] + Pieces(s[|NextPiece(s).text|..])
  {
    PieceAdvances(s);
    hide NextPiece;
  }

  lemma {:induction false} ReachesOn(s: string, i: nat)
    requires Reaches(s, i) && i > 0
    ensures s != [] && var n := |NextPiece(s).text|; n <= i && n <= |s| && Reaches(s[n..], i - n)
  {
    hide NextPiece;
  }

  lemma {:induction false} PiecesBefore(x: string, y: string) returns (ps: seq<Piece>)
    requires Reaches(x + y, |x|)
    ensures Texts(ps) == x && Pieces(x + y) == ps + Pieces(y)
  {
    hide NextPiece, Reaches, Pieces;
    if x == [] {
      assert x + y == y;
      ps := [];
    } else {
      FirstPiece(x + y);
      ReachesOn(x + y, |x|);
      var p := NextPiece(x + y);
      var n := |p.text|;
      assert (x + y)[n..] == x[n..] + y && p.text == x[..n];
      var rest := PiecesBefore(x[n..], y);
      ps := [p] + rest;
      assert ps[1..] == rest && [p] + (rest + Pieces(y)) == ps + Pieces(y);
    }
  }

  /** The pieces of a text are cut off at one length in one way only. */
  lemma {:induction false} SamePrefix(ps: seq<Piece>, a: seq<Piece>, qs: seq<Piece>, b: seq<Piece>, s: string)
    requires Pieces(s) == ps + a == qs + b && Texts(ps) == Texts(qs)
    ensures ps == qs && a == b
    decreases |ps|
  {
    hide Pieces, NextPiece, Texts;
    NonEmptyTexts(ps, a, s);
    NonEmptyTexts(qs, b, s);
    if ps == [] || qs == [] {
      assert [] + a == a && [] + b == b;
    } else {
      FirstOf(ps, a, s);
      FirstOf(qs, b, s);
      var n := |NextPiece(s).text|;
      SamePrefix(ps[1..], a, qs[1..], b, s[n..]);
      assert ps == [ps[0]] + ps[1..] && qs == [qs[0]] + qs[1..];
    }
  }

  lemma {:induction false} FirstOf(ps: seq<Piece>, a: seq<Piece>, s: string)
    requires Pieces(s) == ps + a && ps != []
    ensures s != [] && ps[0] == NextPiece(s) && 0 < |ps[0].text| <= |s|
    ensures Pieces(s[|ps[0].text|..]) == ps[1..] + a
    ensures Texts(ps[1..]) == Texts(ps)[|ps[0].text|..]
  {
    assert s != [];
    FirstPiece(s);
    hide NextPiece;
    assert (ps + a)[0] == ps[0] && (ps + a)[1..] == ps[1..] + a;
    assert Pieces(s)[1..] == Pieces(s[|NextPiece(s).text|..]);
  }

  lemma {:induction false} NonEmptyTexts(ps: seq<Piece>, a: seq<Piece>, s: string)
    requires Pieces(s) == ps + a
    ensures ps == [] <==> Texts(ps) == []
  {
    if ps != [] {
      FirstOf(ps, a, s);
      hide NextPiece, Pieces;
    }
  }

  // ---------- When one scan that reaches the literal is enough ----------

  /** A dollar sign that opens a quote, with no close in the rest of the text. */
  predicate UnclosedDollar(s: string)
    requires s != []
  {
    && s[0] == '$' && !IsPlaceholder(s)
    && var k := 1 + TagRun(s[1..]);
      k < |s| && s[k] == '$' && Index(s[k + 1..], s[..k + 1]).None?
  }

  /** Some piece of the scan that starts before i is such a dollar sign. */
  predicate UnclosedBefore(s: string, i: nat) {
    i > 0 && s != [] && (
      UnclosedDollar(s) ||
      var n := |NextPiece(s).text|;
      0 < n <= i && n <= |s| && UnclosedBefore(s[n..], i - n))
  }

  lemma {:induction false} FirstStays(x: string, y: string, z: string, tag: string)
    requires Index(x + y, tag).Some? && Index(x + y, tag).value + |tag| <= |x|
    ensures Index(x + z, tag) == Index(x + y, tag)
  {
    var r := Index(x + y, tag).value;
    IndexIsFirst(x + y, tag);
    IndexIsFirst(x + z, tag);
    OccursLocal(x, y, z, tag, r);
    forall k: nat | k < r ensures !OccursAt(x + z, tag, k) {
      OccursLocal(x, y, z, tag, k);
    }
  }

  /** A dollar sign that is no unclosed opener begins one piece in both texts. */
  lemma {:induction false} DollarStays(x: string, y: string, z: string)
    requires SameOpening(y, z) && x != [] && x[0] == '$'
    requires |DollarPiece(x + y).text| <= |x| && !UnclosedDollar(x + y)
    ensures DollarPiece(x + z) == DollarPiece(x + y)
  {
    hide SameOpening, DigitRun, TagRun, Index;
    PlaceholderLocal(x, y, z);
    if !IsPlaceholder(x + y) {
      DollarRunsLocal(x, y, z);
      var k := 1 + TagRun((x + y)[1..]);
      if k < |x| && x[k] == '$' {
        ClosedStays(x, y, z, k);
      }
    }
  }

  lemma {:induction false} ClosedStays(x: string, y: string, z: string, k: nat)
    requires 0 < k < |x|
    requires var r := Index((x + y)[k + 1..], (x + y)[..k + 1]); r.Some? && k + 1 + r.value + (k + 1) <= |x|
    ensures (x + y)[..k + 1] == (x + z)[..k + 1]
    ensures var r := Index((x + y)[k + 1..], (x + y)[..k + 1]);
      && Index((x + z)[k + 1..], (x + z)[..k + 1]) == r
      && (x + y)[..k + 1 + r.value + (k + 1)] == (x + z)[..k + 1 + r.value + (k + 1)]
  {
    hide *;
    PrefixOfBoth(x, y, z, k + 1);
    FirstStays(x[k + 1..], y, z, x[..k + 1]);
    PrefixOfBoth(x, y, z, k + 1 + Index((x + y)[k + 1..], x[..k + 1]).value + (k + 1));
  }

  /** Only an unclosed dollar quote can look past the opening of the literal. */
  lemma {:induction false} PieceStays(x: string, y: string, z: string)
    requires SameOpening(y, z) && x != []
    requires |NextPiece(x + y).text| <= |x| && !UnclosedDollar(x + y)
    ensures NextPiece(x + z) == NextPiece(x + y)
  {
    if x[0] == '$' {
      DollarStays(x, y, z);
      assert (x + y)[0] == (x + z)[0] == '$';
    } else {
      PieceLocal(x, y, z);
    }
  }

  lemma {:induction false} ReachedInBoth(x: string, y: string, z: string)
    requires SameOpening(y, z) && Reaches(x + y, |x|) && !UnclosedBefore(x + y, |x|)
    ensures Reaches(x + z, |x|)
  {
    if x != [] {
      PieceStays(x, y, z);
      hide NextPiece, UnclosedDollar, SameOpening;
      var n := |NextPiece(x + y).text|;
      assert (x + y)[n..] == x[n..] + y && (x + z)[n..] == x[n..] + z;
      ReachedInBoth(x[n..], y, z);
    }
  }

  predicate Quiet(s: string) {
    forall i :: 0 <= i < |s| ==> s[i] != '\'' && s[i] != '\\'
  }

  lemma {:induction false} QuietLen(t: string, rest: string)
    requires Quiet(t)
    ensures StringLen(t + rest) == |t| + StringLen(rest)
  {
    if t == [] {
      assert t + rest == rest;
    } else {
      assert (t + rest)[1..] == t[1..] + rest;
      QuietLen(t[1..], rest);
    }
  }

  /** The scanner never stops between two quotes. */
  lemma {:induction false} StopsBeforeNoQuote(s: string)
    ensures StringLen(s) < |s| ==> s[StringLen(s)] != '\''
  {
    if s != [] && (s[0] != '\'' || StartsWith(s, '\'', '\'')) {
      var n := if s[0] == '\\' || s[0] == '\'' then 2 else 1;
      if n <= |s| {
        StopsBeforeNoQuote(s[n..]);
      }
    }
  }

  /** What closes the dollar quote that x opens, as the body of a literal. */
  lemma {:induction false} ClosingLiteral(x: string, y: string, open: string, one: string, after: string)
    returns (two: string)
    requires IsOpening(open) && IsLiteralBefore(one, after) && y == open + one + after
    requires x != [] && UnclosedDollar(x + y)
    ensures IsLiteralBefore(two, after)
    ensures NextPiece(x + (open + two + after)).Masked? && NextPiece(x + y) == Plain("$")
  {
    var k := 1 + TagRun((x + y)[1..]);
    assert open <= y && SameOpening(y, y);
    DollarRunsLocal(x, y, y);
    assert k < |x|;
    var tag := x[..k + 1];
    two := tag + "'";
    var z := open + two + after;
    assert open <= z && SameOpening(y, z);
    TagIsQuiet(x, y, tag, k);
    TagCloses(tag, one, after);
    hide IsOpening, IsLiteralBefore, SameOpening;
    PlaceholderLocal(x, y, z);
    DollarRunsLocal(x, y, z);
    PrefixOfBoth(x, y, z, k + 1);
    TagOccurs(x, open, tag, after, k);
    DollarNext(x + y);
    DollarNext(x + z);
    hide NextPiece, DigitRun, TagRun, Index;
  }

  lemma {:induction false} TagIsQuiet(x: string, y: string, tag: string, k: nat)
    requires x != [] && x[0] == '$' && k == 1 + TagRun((x + y)[1..]) && k < |x| && x[k] == '$' && tag == x[..k + 1]
    ensures Quiet(tag)
  {
    forall i | 0 <= i < |tag| ensures tag[i] != '\'' && tag[i] != '\\' {
      if 0 < i < k {
        assert tag[i] == (x + y)[1..][i - 1] && IsIdentChar((x + y)[1..][i - 1]);
      }
    }
  }

  lemma {:induction false} TagCloses(tag: string, one: string, after: string)
    requires Quiet(tag) && IsLiteralBefore(one, after)
    ensures IsLiteralBefore(tag + "'", after)
  {
    StopsBeforeNoQuote(one + after);
    assert after != [] ==> (one + after)[|one|] == after[0];
    assert tag + "'" + after == tag + ("'" + after);
    QuietLen(tag, "'" + after);
  }

  lemma {:induction false} TagOccurs(x: string, open: string, tag: string, after: string, k: nat)
    requires k < |x| && tag == x[..k + 1]
    ensures var s := x + (open + (tag + "'") + after);
      s[..k + 1] == tag && Index(s[k + 1..], tag).Some?
  {
    var s := x + (open + (tag + "'") + after);
    var i := |x| - (k + 1) + |open|;
    assert s[k + 1..] == x[k + 1..] + open + tag + ("'" + after);
    assert s[k + 1..][i..i + |tag|] == tag;
    IndexIsFirst(s[k + 1..], tag);
    assert OccursAt(s[k + 1..], tag, i);
  }

  /** Behind an unclosed dollar quote some body of the literal changes what is shown. */
  lemma {:induction false} UnclosedTells(x: string, open: string, one: string, after: string) returns (two: string)
    requires IsOpening(open) && IsLiteralBefore(one, after)
    requires Reaches(x + (open + one + after), |x|) && UnclosedBefore(x + (open + one + after), |x|)
    ensures IsLiteralBefore(two, after)
    ensures Mask(x + (open + two + after)) != Mask(x + (open + one + after))
    decreases |x|
  {
    hide NextPiece, UnclosedDollar, IsLiteralBefore;
    var y := open + one + after;
    if UnclosedDollar(x + y) {
      two := ClosingLiteral(x, y, open, one, after);
      MaskStep(x + y);
      MaskStep(x + (open + two + after));
      assert Mask(x + y)[0] == '$' && Mask(x + (open + two + after))[0] == '*';
    } else {
      var n := |NextPiece(x + y).text|;
      assert (x + y)[n..] == x[n..] + y;
      two := UnclosedTells(x[n..], open, one, after);
      var z := open + two + after;
      assert open <= y && open <= z && SameOpening(y, z);
      PieceStays(x, y, z);
      assert (x + z)[n..] == x[n..] + z;
      MaskStep(x + y);
      MaskStep(x + z);
      SameHead(NextPiece(x + y).Shown(), Mask(x[n..] + y), Mask(x[n..] + z));
    }
  }

  lemma {:induction false} SameHead(head: string, a: string, b: string)
    requires a != b
    ensures head + a != head + b
  {
    assert (head + a)[|head|..] == a && (head + b)[|head|..] == b;
  }

  /** When one scan reaches the literal, its body has no influence on the output, whatever body is put
      in its place, exactly when no dollar quote opened before it is left unclosed by the text. */
  lemma {:induction false} BodyDoesNotMatterIff(before: string, open: string, one: string, after: string)
    requires IsOpening(open) && IsLiteralBefore(one, after)
    requires Reaches(before + (open + one + after), |before|)
    ensures
      (forall two :: IsLiteralBefore(two, after) ==>
        Mask(before + (open + two + after)) == Mask(before + (open + one + after)))
      <==> !UnclosedBefore(before + (open + one + after), |before|)
  {
    hide NextPiece, UnclosedDollar, IsLiteralBefore, Mask, Reaches, UnclosedBefore;
    var y := open + one + after;
    if UnclosedBefore(before + y, |before|) {
      var two := UnclosedTells(before, open, one, after);
    } else {
      forall two | IsLiteralBefore(two, after) ensures Mask(before + (open + two + after)) == Mask(before + y) {
        var z := open + two + after;
        assert open <= y && open <= z && SameOpening(y, z);
        ReachedInBoth(before, y, z);
        ScannedLiteralsDoNotInterfere(before, open, one, two, after);
      }
    }
  }

  lemma {:induction false} UnclosedLater(s: string, i: nat)
    requires Reaches(s, i) && i > 0 && UnclosedBefore(s, i) && s != [] && s[0] != '$'
    ensures var n := |NextPiece(s).text|; 0 < n <= i && n <= |s| && UnclosedBefore(s[n..], i - n)
  {
    PieceAdvances(s);
    hide NextPiece, IsPlaceholder, Index, TagRun;
  }

  /** Without a dollar sign none is unclosed; nor is $n, nor a dollar quote that closes. */
  lemma {:induction false} NoDollarNoUnclosed(x: string, y: string)
    requires '$' !in x && Reaches(x + y, |x|)
    ensures !UnclosedBefore(x + y, |x|)
  {
    if x != [] {
      ReachesOn(x + y, |x|);
      assert x[0] in x && (x + y)[0] == x[0];
      hide *;
      var n := |NextPiece(x + y).text|;
      assert (x + y)[n..] == x[n..] + y;
      if UnclosedBefore(x + y, |x|) {
        UnclosedLater(x + y, |x|);
      }
      NoDollarNoUnclosed(x[n..], y);
    }
  }

  // ---------- Texts that show what they should hide ----------

  lemma {:induction false} MaskPlain(c: char, rest: string)
    requires NextPiece([c] + rest) == Plain([c])
    ensures Mask([c] + rest) == [c] + Mask(rest)
  {
    MaskStep([c] + rest);
    assert ([c] + rest)[1..] == rest;
  }

  lemma {:induction false} MaskOpen(lit: string)
    requires StringLen(lit) == |lit|
    ensures Mask("'" + lit) == MASK
  {
    assert "'" + lit + "" == "'" + lit && lit + "" == lit;
    LiteralStep("'", lit, "");
    assert Mask("") == "" && MASK + "" == MASK;
  }

  /** The comment on the scanner says that taking a backslash in a standard literal for an escape can
      only hide too much. It can show too much: behind such a literal the next one is read inside out. */
  lemma {:induction false} BackslashShows()
    ensures IsLiteral(false, "\\'", ", 'q'") && !Seen(false, "\\'", ", 'q'")
    ensures Mask("'" + "\\'" + ", 'q'") == "***q***"
  {
    hide *;
    LoneBackslashLiteral(", 'q'");
    TakesTooMuch();
    QuoteInsideOut();
    LiteralStep("'", "\\', '", "q'");
    SpelledTwice();
  }

  lemma {:induction false} SpelledTwice()
    ensures "'" + "\\', '" + "q'" == "'" + "\\'" + ", 'q'" && MASK + "q***" == "***q***"
  {
  }

  lemma {:induction false} TakesTooMuch()
    ensures IsOpening("'") && IsLiteralBefore("\\', '", "q'")
  {
    StringLenOf();
    hide StringLen;
    assert "\\', '" + "q'" == "\\', 'q'";
  }

  lemma {:induction false} LoneBackslashLiteral(after: string)
    requires after != [] && after[0] != '\''
    ensures IsLiteral(false, "\\'", after) && !Seen(false, "\\'", after)
  {
    var lit := "\\'";
    assert UnitsOk('\'', false, [Other('\\')]) && lit == Body('\'', [Other('\\')]) + ['\''];
    assert OddQuote(lit, 1);
  }

  lemma {:induction false} QuoteInsideOut()
    ensures Mask("q'") == "q***"
  {
    assert "q'" == ['q'] + "'" && "'" == "'" + "";
    assert NextPiece(['q'] + "'") == Plain(['q']);
    hide NextPiece, Mask;
    MaskPlain('q', "'");
    MaskOpen("");
    assert ['q'] + MASK == "q***";
  }

  lemma {:induction false} StringLenOf()
    ensures StringLen("\\', 'q'") == 5
  {
    assert "\\', 'q'"[2..] == ", 'q'" && ", 'q'"[1..] == " 'q'" && " 'q'"[1..] == "'q'";
  }

  /** What a line comment shows is the comment exactly when there is no carriage return in it. */
  lemma {:induction false} LineCommentIff(s: string)
    requires StartsWith(s, '-', '-')
    ensures NextPiece(s) == Copied(LineComment, s[..CommentLen(s)]) <==> '\r' !in NextPiece(s).text
  {
    LineEndsIff(s);
  }

  /** So a literal on the line after a carriage return is shown. */
  lemma {:induction false} CarriageReturnShows()
    ensures CommentLen("--\r'q'") == 2 && Mask("--\r'q'") == "--\r'q'"
  {
    var s := "--\r'q'";
    assert s[1..] == "-\r'q'" && s[2..] == "\r'q'" && s[2..][1..] == "'q'" && "'q'"[1..] == "q'" && "q'"[1..] == "'";
    assert LineLen("'q'") == 3 by {
      assert LineLen("q'") == 1 + LineLen("'");
    }
    assert LineLen("\r'q'") == 4 && LineLen("-\r'q'") == 5;
    assert LineLen(s) == 6;
    assert NextPiece(s) == Copied(LineComment, s);
    MaskStep(s);
    assert s[6..] == "" && Mask("") == "";
  }

  /** A quote between dollar signs with a tag, closed r bytes after its opening. */
  predicate IsDollarQuote(s: string, r: nat) {
    s != [] && s[0] == '$' && var k := 1 + TagLen(s[1..]);
      k < |s| && s[k] == '$' && Index(s[k + 1..], s[..k + 1]) == Some(r)
  }

  /** It is hidden as a whole exactly when its tag is ASCII; otherwise its dollar sign is shown, and
      the body is read as if it were not quoted. */
  lemma {:induction false} DollarQuoteIff(s: string, r: nat)
    requires IsDollarQuote(s, r)
    ensures var k := 1 + TagLen(s[1..]);
      if forall i :: 1 <= i < k ==> s[i] < 128 as char
      then k + 1 + r + (k + 1) <= |s| && NextPiece(s) == Masked(s[..k + 1 + r + (k + 1)])
      else NextPiece(s) == Plain("$")
  {
    var k := 1 + TagLen(s[1..]);
    TagIff(s[1..]);
    TagNotDollar(s[1..]);
    assert DigitRun(s[1..]) == 0;
    DollarNext(s);
    hide NextPiece, DigitRun, TagRun, TagLen, Index;
    assert forall i :: 1 <= i < k ==> s[i] == s[1..][i - 1];
    assert forall i :: 0 <= i < k - 1 ==> s[1..][i] == s[i + 1];
  }

  lemma {:induction false} TagNotDollar(s: string)
    ensures TagRun(s) < TagLen(s) ==> s[TagRun(s)] >= 128 as char
  {
    if s != [] && !IsDigit(s[0]) {
      RunNotDollar(s);
    }
  }

  lemma {:induction false} RunNotDollar(s: string)
    ensures IdentRun(s) < TagChars(s) ==> s[IdentRun(s)] >= 128 as char
  {
    if s != [] && IsIdentChar(s[0]) {
      RunNotDollar(s[1..]);
    }
  }

  /** With a dollar sign the body does show: the literal after an unclosed $$ closes it. */
  lemma {:induction false} DollarSeesLiteral()
    ensures IsLiteralBefore("x'", "") && IsLiteralBefore("$$'", "")
    ensures Mask("$$" + ("'" + "x'" + "")) != Mask("$$" + ("'" + "$$'" + ""))
  {
    assert "x'" + "" == "x'" && "$$'" + "" == "$$'";
    assert IsLiteralBefore("x'", "") by {
      QuietLen("x", "'");
      assert "x" + "'" == "x'";
    }
    assert IsLiteralBefore("$$'", "") by {
      QuietLen("$$", "'");
      assert "$$" + "'" == "$$'";
    }
    hide *;
    assert "$$" + ("'" + "x'" + "") == "$$'x'" && "$$" + ("'" + "$$'" + "") == "$$'$$'";
    UnclosedDollarShows();
    ClosedDollarHides();
  }

  lemma {:induction false} DollarNext(s: string)
    requires s != [] && s[0] == '$'
    ensures NextPiece(s) == DollarPiece(s)
  {
  }

  lemma {:induction false} NotThere(s: string, tag: string)
    requires tag != [] && tag[0] !in s
    ensures Index(s, tag).None?
  {
    IndexIsFirst(s, tag);
    hide Index;
    forall k: nat | k + |tag| <= |s| ensures !OccursAt(s, tag, k) {
      assert s[k..k + |tag|][0] == s[k] != tag[0];
    }
  }

  lemma {:induction false} UnclosedDollarShows()
    ensures Mask("$$'x'") != "" && Mask("$$'x'")[0] == '$'
  {
    var s := "$$'x'";
    assert s[1..] == "$'x'" && s[2..] == "'x'" && s[..2] == "$$";
    NotThere("'x'", "$$");
    DollarNext(s);
    MaskStep(s);
    hide NextPiece, Mask, Index;
    assert DollarPiece(s) == Plain("$");
  }

  lemma {:induction false} ClosedDollarHides()
    ensures Mask("$$'$$'") != "" && Mask("$$'$$'")[0] == '*'
  {
    var s := "$$'$$'";
    assert s[1..] == "$'$$'" && s[2..] == "'$$'" && s[..2] == "$$";
    DollarThere();
    DollarNext(s);
    MaskStep(s);
    hide NextPiece, Mask, Index, OccursAt;
    assert DigitRun(s[1..]) == 0 && TagRun(s[1..]) == 0;
    hide DigitRun, TagRun;
    assert DollarPiece(s).Masked?;
  }

  lemma {:induction false} DollarThere()
    ensures Index("'$$'", "$$").Some?
  {
    IndexIsFirst("'$$'", "$$");
    hide Index;
    assert "'$$'"[1..3] == "$$";
    assert OccursAt("'$$'", "$$", 1);
  }
}
