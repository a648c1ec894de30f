/** What each token of a text comes to in the masker's output (pkg/audit/sqlmask.go): which ones are
    hidden, and that all others are shown as they stand. */
module SqlTokens {
  import opened Basics
  import opened SqlGrammar
  import opened SqlMask
  import opened SqlMaskProperties

  // ---------- What is hidden ----------

  predicate OpensLiteral(s: string) {
    s != [] && (s[0] == '\'' || (|s| > 1 && (s[0] == 'e' || s[0] == 'E') && s[1] == '\''))
  }

  predicate OpensNumber(s: string) {
    s != [] && ('0' <= s[0] <= '9' || (s[0] == '.' && |s| > 1 && '0' <= s[1] <= '9'))
  }

  /** A dollar sign, letters, digits and underscores that do not start with a digit, a dollar sign. */
  predicate IsDollarTag(tag: string) {
    && |tag| >= 2 && tag[0] == '$' && tag[|tag| - 1] == '$'
    && (forall i :: 0 < i < |tag| - 1 ==> IsIdentChar(tag[i]))
    && !IsDigit(tag[1])
  }

  ghost predicate OpensDollarQuote(s: string) {
    exists tag, k :: IsDollarTag(tag) && tag <= s && OccursAt(s[|tag|..], tag, k)
  }

  ghost predicate OpensSecret(s: string) {
    OpensLiteral(s) || OpensNumber(s) || OpensDollarQuote(s)
  }

  /** One scanned literal, with its opening, when after follows. */
  ghost predicate IsScannedLiteral(text: string, after: string) {
    exists open, lit :: IsOpening(open) && text == open + lit && IsLiteralBefore(lit, after)
  }

  /** A tag, a body in which the tag does not occur, the tag. */
  ghost predicate IsClosedDollarQuote(text: string) {
    exists tag, body :: IsDollarTag(tag) && text == tag + (body + tag)
                        && forall k: nat :: k < |body| ==> !OccursAt(body + tag, tag, k)
  }

  /** The longest run of what can belong to a number. */
  ghost predicate IsWholeNumber(text: string, after: string) {
    && OpensNumber(text)
    && (forall i :: 0 <= i < |text| ==> InNumber(text + after, 0, i))
    && !InNumber(text + after, 0, |text|)
  }

  lemma {:induction false} NumberIsRun(s: string, i: nat)
    requires i <= |s|
    ensures var r := i + NumberLen(s[i..], AfterExponent(s, 0, i));
      && r <= |s| && (forall k :: i <= k < r ==> InNumber(s, 0, k)) && !InNumber(s, 0, r)
    decreases |s| - i
  {
    NumberStep(s, 0, i);
    hide NumberLen;
    if InNumber(s, 0, i) {
      NumberIsRun(s, i + 1);
    }
  }

  lemma {:induction false} NumberIsWhole(s: string)
    requires OpensNumber(s)
    ensures NextPiece(s).Masked? && IsWholeNumber(NextPiece(s).text, s[|NextPiece(s).text|..])
  {
    NumberIsRun(s, 0);
    assert s[0..] == s;
    var n := NumberLen(s, false);
    assert NextPiece(s) == Masked(s[..n]);
    hide NextPiece, NumberLen;
    assert s[..n] + s[n..] == s;
    assert InNumber(s, 0, 0);
    assert s[0] == '.' ==> InNumber(s, 0, 1);
  }

  lemma {:induction false} LiteralIsScanned(s: string)
    requires OpensLiteral(s)
    ensures NextPiece(s).Masked? && IsScannedLiteral(NextPiece(s).text, s[|NextPiece(s).text|..])
  {
    var open := if s[0] == '\'' then s[..1] else s[..2];
    var m := StringLen(s[|open|..]);
    var lit := s[|open|..][..m];
    assert IsOpening(open) && open <= s;
    OpeningNext(open, s);
    SplitTwice(s, |open|, m);
    hide NextPiece, IsOpening, StringLen;
    assert IsLiteralBefore(lit, s[|open| + m..]);
  }

  lemma {:induction false} SplitTwice(s: string, a: nat, m: nat)
    requires a + m <= |s|
    ensures s[..a + m] == s[..a] + s[a..][..m] && s[a + m..] == s[a..][m..]
    ensures |s[..a + m]| == a + m && s[a..][..m] + s[a..][m..] == s[a..]
  {
  }

  /** The tag that the scanner reads after a dollar sign is the one that is there. */
  lemma {:induction false} TagRead(s: string, tag: string)
    requires IsDollarTag(tag) && tag <= s
    ensures TagRun(s[1..]) == |tag| - 2 && DigitRun(s[1..]) == 0
  {
    var t := s[1..];
    assert forall i :: 0 <= i < |tag| - 1 ==> t[i] == tag[i + 1];
    assert t[|tag| - 2] == '$' && forall i :: 0 <= i < |tag| - 2 ==> IsIdentChar(t[i]);
  }

  lemma {:induction false} DollarMaskedIff(s: string)
    requires s != [] && s[0] == '$'
    ensures DollarPiece(s).Masked? <==> OpensDollarQuote(s)
    ensures DollarPiece(s).Masked? ==> IsClosedDollarQuote(DollarPiece(s).text)
  {
    if tag, k :| IsDollarTag(tag) && tag <= s && OccursAt(s[|tag|..], tag, k) {
      TagRead(s, tag);
      IndexIsFirst(s[|tag|..], tag);
      hide TagRun, DigitRun, Index, OccursAt;
      assert s[..|tag|] == tag;
      assert DollarPiece(s).Masked?;
    }
    if DollarPiece(s).Masked? {
      MaskedIsClosed(s);
    }
  }

  lemma {:induction false} MaskedIsClosed(s: string)
    requires s != [] && s[0] == '$' && DollarPiece(s).Masked?
    ensures OpensDollarQuote(s) && IsClosedDollarQuote(DollarPiece(s).text)
  {
    var k := 1 + TagRun(s[1..]);
    var tag, rest := s[..k + 1], s[k + 1..];
    var r := Index(rest, tag).value;
    IndexIsFirst(rest, tag);
    RunIsTag(s, k);
    assert DollarPiece(s) == Masked(s[..k + 1 + r + (k + 1)]);
    hide DollarPiece, TagRun, Index, IsDollarTag;
    assert tag <= s && OccursAt(s[|tag|..], tag, r);
    QuoteSplits(s, tag, r);
    forall j: nat | j < r ensures !OccursAt(rest[..r] + tag, tag, j) {
      OccursEarlier(rest, tag, r, j);
    }
  }

  lemma {:induction false} RunIsTag(s: string, k: nat)
    requires s != [] && s[0] == '$' && k == 1 + TagRun(s[1..]) && k < |s| && s[k] == '$'
    ensures IsDollarTag(s[..k + 1])
  {
    forall i | 0 < i < k ensures IsIdentChar(s[i]) {
      assert s[i] == s[1..][i - 1];
    }
    assert !IsDigit(s[1]);
  }

  lemma {:induction false} QuoteSplits(s: string, tag: string, r: nat)
    requires tag <= s && OccursAt(s[|tag|..], tag, r)
    ensures |tag| + r + |tag| <= |s| && s[..|tag| + r + |tag|] == tag + (s[|tag|..][..r] + tag)
  {
    var rest := s[|tag|..];
    assert s[|tag| + r..|tag| + r + |tag|] == rest[r..r + |tag|];
  }

  lemma {:induction false} OccursEarlier(rest: string, tag: string, r: nat, j: nat)
    requires OccursAt(rest, tag, r) && j < r && !OccursAt(rest, tag, j)
    ensures !OccursAt(rest[..r] + tag, tag, j)
  {
    assert rest[..r] + tag == rest[..r + |tag|];
    assert j + |tag| <= r + |tag| ==> rest[..r + |tag|][j..j + |tag|] == rest[j..j + |tag|];
  }

  /** A text is hidden from its beginning exactly when a literal, a number or a closed dollar quote opens
      it. Otherwise its first token is shown as it stands. */
  lemma {:induction false} HiddenIff(s: string)
    requires s != []
    ensures NextPiece(s).Masked? <==> OpensSecret(s)
    ensures var n := |NextPiece(s).text|;
      && 0 < n <= |s|
      && Mask(s) == (if OpensSecret(s) then "***" else s[..n]) + Mask(s[n..])
  {
    MaskStep(s);
    hide *;
    MaskedIff(s);
    ShownText(s);
  }

  lemma {:induction false} ShownText(s: string)
    requires s != [] && NextPiece(s).text <= s
    ensures NextPiece(s).Shown() == if NextPiece(s).Masked? then "***" else s[..|NextPiece(s).text|]
  {
    hide NextPiece;
  }

  lemma {:induction false} MaskedIff(s: string)
    requires s != []
    ensures NextPiece(s).Masked? <==> OpensSecret(s)
  {
    if OpensLiteral(s) {
      LiteralIsScanned(s);
      hide NextPiece, OpensNumber, OpensDollarQuote;
    } else if OpensNumber(s) {
      NumberIsWhole(s);
      hide NextPiece, OpensDollarQuote;
    } else if s[0] == '$' {
      DollarMaskedIff(s);
      DollarNext(s);
      hide NextPiece, DollarPiece, OpensDollarQuote;
    } else {
      NotDollar(s);
      OthersNotMasked(s);
      hide NextPiece, OpensDollarQuote;
    }
  }

  lemma {:induction false} OthersNotMasked(s: string)
    requires s != [] && s[0] != '$' && !OpensLiteral(s) && !OpensNumber(s)
    ensures !NextPiece(s).Masked?
  {
    hide StringLen, QuotedLen, LineLen, BlockLen, NumberLen;
  }

  lemma {:induction false} NotDollar(s: string)
    requires s == [] || s[0] != '$'
    ensures !OpensDollarQuote(s)
  {
  }

  /** Each hidden piece is one such token, as far as it goes. */
  ghost predicate IsSecret(text: string, after: string) {
    IsScannedLiteral(text, after) || IsClosedDollarQuote(text) || IsWholeNumber(text, after)
  }

  lemma {:induction false} MaskedIsSecret(s: string)
    requires s != [] && NextPiece(s).Masked?
    ensures IsSecret(NextPiece(s).text, s[|NextPiece(s).text|..])
  {
    HiddenIff(s);
    if OpensLiteral(s) {
      LiteralIsScanned(s);
    } else if OpensNumber(s) {
      NumberIsWhole(s);
    } else {
      assert s[0] == '$' by {
        if s[0] != '$' {
          NotDollar(s);
        }
      }
      DollarMaskedIff(s);
      DollarNext(s);
    }
  }

  lemma {:induction false} OnlySecretsHidden(s: string, i: nat)
    requires i < |Pieces(s)| && Pieces(s)[i].Masked?
    ensures IsSecret(Pieces(s)[i].text, Texts(Pieces(s)[i + 1..]))
  {
    PieceAdvances(s);
    var n := |NextPiece(s).text|;
    PiecesCoverText(s[n..]);
    assert Pieces(s)[1..] == Pieces(s[n..]);
    hide NextPiece, IsSecret;
    if i == 0 {
      MaskedIsSecret(s);
    } else {
      OnlySecretsHidden(s[n..], i - 1);
      assert Pieces(s)[i + 1..] == Pieces(s[n..])[i..];
    }
  }

  // ---------- What is shown ----------

  /** The piece stands in the text behind before, and takes nothing else with it. */
  ghost predicate StandsIn(before: string, p: Piece, after: string) {
    exists ps :: Texts(ps) == before && Pieces(before + (p.text + after)) == ps + [p] + Pieces(after)
  }

  lemma {:induction false} IdentifierScanned(us: seq<Unit>, after: string)
    requires UnitsOk('"', false, us) && (after == [] || after[0] != '"')
    ensures var t := Body('"', us) + "\"";
      QuotedLen(t + after) == |t|
  {
    var t := Body('"', us) + "\"";
    var s := t + after;
    if us == [] {
      assert t == "\"" && s[0] == '"';
    } else {
      BodyStep('"', us);
      var n := |UnitText('"', us[0])|;
      assert t[n..] == Body('"', us[1..]) + "\"" && s[n..] == t[n..] + after;
      IdentifierScanned(us[1..], after);
    }
  }

  lemma {:induction false} FirstPieces(p: Piece, after: string)
    requires p.text != [] && NextPiece(p.text + after) == p
    ensures Pieces(p.text + after) == [p] + Pieces(after)
    ensures Mask(p.text + after) == p.Shown() + Mask(after)
  {
    MaskStep(p.text + after);
    FirstPiece(p.text + after);
    hide NextPiece, Mask;
    assert (p.text + after)[|p.text|..] == after;
  }

  lemma {:induction false} ReachedStands(before: string, p: Piece, after: string)
    requires p.text != [] && NextPiece(p.text + after) == p
    requires Reaches(before + (p.text + after), |before|)
    ensures StandsIn(before, p, after)
  {
    FirstPieces(p, after);
    hide NextPiece, Reaches, Pieces, Texts;
    var ps := PiecesBefore(before, p.text + after);
    assert ps + ([p] + Pieces(after)) == ps + [p] + Pieces(after);
  }

  /** A quoted identifier is shown as it stands, and what follows is masked as if it stood alone. */
  lemma {:induction false} IdentifierIsShown(t: string, after: string)
    requires Closed('"', false, t, after)
    ensures NextPiece("\"" + t + after) == Copied(Identifier, "\"" + t)
    ensures Mask("\"" + t + after) == "\"" + t + Mask(after)
  {
    var us :| UnitsOk('"', false, us) && t == Body('"', us) + ['"'];
    IdentifierScanned(us, after);
    ThreeParts("\"", t, after);
    hide QuotedLen, Body, UnitsOk;
    var p := Copied(Identifier, "\"" + t);
    assert NextPiece("\"" + t + after) == p;
    FirstPieces(p, after);
  }

  /** So is one in a text, when the scan reaches it. */
  lemma {:induction false} IdentifierStands(before: string, t: string, after: string)
    requires Closed('"', false, t, after) && Reaches(before + ("\"" + t + after), |before|)
    ensures StandsIn(before, Copied(Identifier, "\"" + t), after)
  {
    IdentifierIsShown(t, after);
    hide NextPiece, Mask, Closed, Reaches;
    ReachedStands(before, Copied(Identifier, "\"" + t), after);
  }

  lemma {:induction false} DigitsRead(n: string, after: string)
    requires (forall i :: 0 <= i < |n| ==> IsDigit(n[i])) && (after == [] || !IsDigit(after[0]))
    ensures DigitRun(n + after) == |n|
  {
    assert forall i :: 0 <= i < |n| ==> (n + after)[i] == n[i];
    assert after != [] ==> !IsDigit((n + after)[|n|]);
  }

  /** $n is shown. */
  lemma {:induction false} PlaceholderIsShown(n: string, after: string)
    requires n != [] && (forall i :: 0 <= i < |n| ==> IsDigit(n[i])) && (after == [] || !IsIdentChar(after[0]))
    ensures NextPiece("$" + n + after) == Copied(Placeholder, "$" + n)
    ensures Mask("$" + n + after) == "$" + n + Mask(after)
  {
    DigitsRead(n, after);
    ThreeParts("$", n, after);
    var s := "$" + n + after;
    DollarNext(s);
    hide DigitRun, TagRun, Index, NextPiece;
    assert after != [] ==> s[1 + |n|] == after[0];
    assert DollarPiece(s) == Copied(Placeholder, "$" + n);
    FirstPieces(Copied(Placeholder, "$" + n), after);
  }

  /** A line comment is shown up to the line feed, a block comment up to its matching end. */
  lemma {:induction false} CommentIsShown(s: string)
    requires StartsWith(s, '-', '-') || StartsWith(s, '/', '*')
    ensures var n := if s[0] == '-' then LineLen(s) else BlockLen(s, 0);
      0 < n <= |s| && Mask(s) == s[..n] + Mask(s[n..])
  {
    MaskStep(s);
    hide LineLen, BlockLen, Mask;
  }

  /** A byte that opens no token is shown. */
  lemma {:induction false} OtherByteIsShown(c: char, rest: string)
    requires var s := [c] + rest;
      !OpensSecret(s) && c != '"' && !StartsWith(s, '-', '-') && !StartsWith(s, '/', '*')
    requires c == '$' ==> !IsPlaceholder([c] + rest)
    ensures Mask([c] + rest) == [c] + Mask(rest)
  {
    var s := [c] + rest;
    HiddenIff(s);
    assert s[1..] == rest && [c] == s[..1];
    if c == '$' {
      DollarNext(s);
      DollarMaskedIff(s);
      hide Mask, OpensSecret, Index, TagRun, DigitRun, NextPiece;
      assert DollarPiece(s) == Plain("$");
    } else {
      hide Mask, OpensSecret, StringLen, NumberLen;
      assert NextPiece(s) == Plain([c]) by {
        hide OpensDollarQuote;
      }
    }
  }
}
