/** The tokens the masker has to tell apart, as PostgreSQL defines them (section 4.1 of its
    documentation), and where the scanners of pkg/audit/sqlmask.go end with them. */
module SqlGrammar {
  import opened Basics
  import opened SqlMask

  // ---------- Quoted text: literals in single quotes, identifiers in double quotes ----------

  /** What stands between two quotes: a byte, a quote written twice, or a byte after a backslash. */
  datatype Unit = Other(c: char) | Doubled | Escape(c: char)

  predicate UnitOk(quote: char, escapes: bool, u: Unit) {
    match u
    case Other(c) => c != quote && (escapes ==> c != '\\')
    case Doubled => true
    case Escape(_) => escapes
  }

  function UnitText(quote: char, u: Unit): string {
    match u
    case Other(c) => [c]
    case Doubled => [quote, quote]
    case Escape(c) => ['\\', c]
  }

  predicate UnitsOk(quote: char, escapes: bool, us: seq<Unit>) {
    us == [] || (UnitOk(quote, escapes, us[0]) && UnitsOk(quote, escapes, us[1..]))
  }

  function Body(quote: char, us: seq<Unit>): string {
    if us == [] then [] else UnitText(quote, us[0]) + Body(quote, us[1..])
  }

  /** t is the rest of a quoted text after its opening quote, through its closing one, when after
      follows. Backslashes escape in E'...' only. */
  ghost predicate Closed(quote: char, escapes: bool, t: string, after: string) {
    && (after == [] || after[0] != quote)
    && exists us :: UnitsOk(quote, escapes, us) && t == Body(quote, us) + [quote]
  }

  /** A quoted identifier that the end of the text cuts off. */
  ghost predicate CutOff(quote: char, t: string, after: string) {
    after == [] && exists us :: UnitsOk(quote, false, us) && t == Body(quote, us)
  }

  /** A string literal, standard or with escapes, after its opening quote. */
  ghost predicate IsLiteral(escapes: bool, lit: string, after: string) {
    Closed('\'', escapes, lit, after)
  }

  // ---------- Where the scanner of literals ends ----------

  /** How many backslashes stand directly before position i. */
  function Backslashes(s: string, i: nat): (n: nat)
    requires i <= |s|
    ensures n <= i
  {
    if i > 0 && s[i - 1] == '\\' then 1 + Backslashes(s, i - 1) else 0
  }

  /** A quote with an odd run of backslashes directly before it. */
  predicate OddQuote(s: string, i: nat) {
    i < |s| && s[i] == '\'' && Backslashes(s, i) % 2 == 1
  }

  predicate AllQuotes(s: string) {
    forall i :: 0 <= i < |s| ==> s[i] == '\''
  }

  /** No quote of the literal has an odd run of backslashes before it; or only the first of the quotes
      it ends with has, and nothing follows the literal. */
  ghost predicate QuotesSeen(lit: string, after: string) {
    forall i: nat :: OddQuote(lit, i) ==> after == [] && AllQuotes(lit[i..])
  }

  lemma {:induction false} BackslashesShift(s: string, n: nat, i: nat)
    requires n <= i <= |s|
    requires n == 0 || s[n - 1] != '\\' || (n == 2 && s[0] == '\\')
    ensures Backslashes(s, i) % 2 == Backslashes(s[n..], i - n) % 2
  {
    if i > n {
      BackslashesShift(s, n, i - 1);
      assert s[n..][i - n - 1] == s[i - 1];
    }
  }

  lemma {:induction false} OddQuoteShift(s: string, n: nat, i: nat)
    requires n <= i && n <= |s|
    requires n == 0 || s[n - 1] != '\\' || (n == 2 && s[0] == '\\')
    ensures OddQuote(s, i) <==> OddQuote(s[n..], i - n)
  {
    if i < |s| {
      BackslashesShift(s, n, i);
    }
  }

  /** The condition can be read from a later start when nothing before it is an odd quote. */
  lemma {:induction false} QuotesSeenShift(lit: string, n: nat, after: string)
    requires n <= |lit| && (n == 0 || lit[n - 1] != '\\' || (n == 2 && lit[0] == '\\'))
    requires forall i: nat :: i < n ==> !OddQuote(lit, i)
    ensures QuotesSeen(lit, after) <==> QuotesSeen(lit[n..], after)
  {
    forall i: nat | OddQuote(lit[n..], i) ensures OddQuote(lit, n + i) && lit[n..][i..] == lit[n + i..] {
      OddQuoteShift(lit, n, n + i);
    }
    forall i: nat | OddQuote(lit, i) ensures i >= n && OddQuote(lit[n..], i - n) && lit[n..][i - n..] == lit[i..] {
      OddQuoteShift(lit, n, i);
    }
  }

  /** The scanner has taken the first of two quotes for an escaped one, and stands at the second. */
  lemma {:induction false} HalfDoubled(us: seq<Unit>, after: string)
    requires UnitsOk('\'', false, us) && (after == [] || after[0] != '\'')
    ensures var lit := Body('\'', us) + "'";
      StringLen("'" + lit + after) == 1 + |lit| <==> after == [] && AllQuotes(lit)
  {
    var lit := Body('\'', us) + "'";
    var s := "'" + lit + after;
    if us == [] {
      assert s[2..] == after;
      StringLenPositive(after);
    } else if us[0] == Doubled {
      var rest := Body('\'', us[1..]) + "'";
      assert lit == "''" + rest;
      assert s[2..] == "'" + rest + after;
      HalfDoubled(us[1..], after);
      assert AllQuotes(lit) <==> AllQuotes(rest) by {
        assert forall i :: 0 <= i < |rest| ==> rest[i] == lit[i + 2];
      }
    } else {
      assert s[1] == lit[0] == us[0].c != '\'';
    }
  }

  lemma {:induction false} StringLenPositive(s: string)
    ensures StringLen(s) == 0 <==> s == []
  {
  }

  lemma {:induction false} BodyStep(quote: char, us: seq<Unit>)
    requires us != []
    ensures Body(quote, us) + [quote] == UnitText(quote, us[0]) + (Body(quote, us[1..]) + [quote])
  {
  }

  lemma {:induction false} UnitTaken(u: Unit, rest: string)
    requires UnitOk('\'', false, u) && u != Other('\\')
    ensures var t := UnitText('\'', u);
      && StringLen(t + rest) == |t| + StringLen(rest)
      && (t + rest)[|t| - 1] != '\\' && forall i: nat :: i < |t| ==> !OddQuote(t + rest, i)
  {
    var t := UnitText('\'', u);
    assert (t + rest)[|t|..] == rest;
  }

  lemma {:induction false} UnitThenRest(u: Unit, rest: string, after: string)
    requires UnitOk('\'', false, u) && u != Other('\\')
    ensures var lit := UnitText('\'', u) + rest;
      && (StringLen(lit + after) == |lit| <==> StringLen(rest + after) == |rest|)
      && (QuotesSeen(lit, after) <==> QuotesSeen(rest, after))
  {
    hide *;
    var t := UnitText('\'', u);
    UnitTaken(u, rest + after);
    UnitTaken(u, rest);
    assert t + rest + after == t + (rest + after) && (t + rest)[|t|..] == rest;
    QuotesSeenShift(t + rest, |t|, after);
  }

  lemma {:induction false} EmptyEnds(after: string)
    requires after == [] || after[0] != '\''
    ensures StringLen("'" + after) == 1 && QuotesSeen("'", after)
  {
    assert ("'" + after)[0] == '\'';
  }

  /** On a standard literal the scanner ends with the literal exactly when the condition holds. */
  lemma {:induction false} StandardEnds(us: seq<Unit>, after: string)
    requires UnitsOk('\'', false, us) && (after == [] || after[0] != '\'')
    ensures var lit := Body('\'', us) + "'";
      StringLen(lit + after) == |lit| <==> QuotesSeen(lit, after)
    decreases |us|
  {
    if us == [] {
      EmptyEnds(after);
      assert Body('\'', us) + "'" == "'";
    } else if us[0] == Other('\\') {
      BackslashFirst(us, after);
    } else {
      BodyStep('\'', us);
      StandardEnds(us[1..], after);
      hide QuotesSeen, StringLen, Body;
      UnitThenRest(us[0], Body('\'', us[1..]) + "'", after);
    }
  }

  lemma {:induction false} BackslashFirst(us: seq<Unit>, after: string)
    requires UnitsOk('\'', false, us) && (after == [] || after[0] != '\'') && us != [] && us[0] == Other('\\')
    ensures var lit := Body('\'', us) + "'";
      StringLen(lit + after) == |lit| <==> QuotesSeen(lit, after)
    decreases |us|, 0
  {
    var lit := Body('\'', us) + "'";
    BodyStep('\'', us);
    if |us| == 1 {
      assert lit == "\\'";
      LoneBackslash(after);
    } else {
      BodyStep('\'', us[1..]);
      var rest := Body('\'', us[2..]) + "'";
      assert us[1..][1..] == us[2..] && us[1..][0] == us[1] && UnitsOk('\'', false, us[2..]);
      hide QuotesSeen, StringLen, Body, UnitsOk, AllQuotes;
      if us[1] == Doubled {
        assert lit == "\\''" + rest;
        HalfDoubled(us[2..], after);
        BackslashDoubled(rest, after);
      } else {
        assert lit == "\\" + ([us[1].c] + rest);
        StandardEnds(us[2..], after);
        BackslashOther(us[1].c, rest, after);
      }
    }
  }

  lemma {:induction false} BackslashDoubled(rest: string, after: string)
    ensures var lit := "\\''" + rest;
      && StringLen(lit + after) == 2 + StringLen("'" + rest + after)
      && (QuotesSeen(lit, after) <==> after == [] && AllQuotes(rest))
  {
    hide *;
    assert "\\" + ("''" + rest) == "\\''" + rest && ("''" + rest)[1..] == "'" + rest;
    BackslashLen("''" + rest, after);
    OddBeforeQuotes("\\''" + rest, rest, after);
  }

  lemma {:induction false} BackslashOther(c: char, rest: string, after: string)
    requires c != '\''
    ensures var lit := "\\" + ([c] + rest);
      && StringLen(lit + after) == 2 + StringLen(rest + after)
      && (QuotesSeen(lit, after) <==> QuotesSeen(rest, after))
  {
    var lit := "\\" + ([c] + rest);
    assert lit[2..] == rest && ([c] + rest)[1..] == rest;
    BackslashLen([c] + rest, after);
    hide QuotesSeen, StringLen;
    QuotesSeenShift(lit, 2, after);
  }

  lemma {:induction false} LoneBackslash(after: string)
    ensures StringLen("\\'" + after) == 2 <==> QuotesSeen("\\'", after)
  {
    var lit := "\\'";
    assert (lit + after)[2..] == after && lit[1..] == "'";
    StringLenPositive(after);
    assert OddQuote(lit, 1);
  }

  lemma {:induction false} BackslashLen(t: string, after: string)
    requires t != []
    ensures StringLen("\\" + t + after) == 2 + StringLen(t[1..] + after)
  {
    assert ("\\" + t + after)[2..] == t[1..] + after;
  }

  lemma {:induction false} OddBeforeQuotes(lit: string, rest: string, after: string)
    requires lit == "\\''" + rest
    ensures QuotesSeen(lit, after) <==> after == [] && AllQuotes(rest)
  {
    assert OddQuote(lit, 1) && !OddQuote(lit, 0);
    assert lit[1..] == "''" + rest;
    assert AllQuotes(lit[1..]) <==> AllQuotes(rest) by {
      assert forall i :: 0 <= i < |rest| ==> rest[i] == lit[1..][i + 2];
    }
    if AllQuotes(rest) {
      forall i: nat | OddQuote(lit, i) ensures AllQuotes(lit[i..]) {
        assert forall k :: 0 <= k < |lit[i..]| ==> lit[i..][k] == lit[1..][i - 1 + k];
      }
    }
  }

  /** On a literal with escapes it always does. */
  lemma {:induction false} EscapedEnds(us: seq<Unit>, after: string)
    requires UnitsOk('\'', true, us) && (after == [] || after[0] != '\'')
    ensures var lit := Body('\'', us) + "'";
      StringLen(lit + after) == |lit|
  {
    var lit := Body('\'', us) + "'";
    var s := lit + after;
    if us == [] {
      assert lit == "'" && s[0] == '\'';
    } else {
      BodyStep('\'', us);
      var n := |UnitText('\'', us[0])|;
      assert lit[n..] == Body('\'', us[1..]) + "'" && s[n..] == lit[n..] + after;
      EscapedEnds(us[1..], after);
    }
  }

  /** Whether the scanner sees the literal as PostgreSQL does. */
  ghost predicate Seen(escapes: bool, lit: string, after: string) {
    escapes || QuotesSeen(lit, after)
  }

  lemma {:induction false} ScannerEndsWithLiteral(escapes: bool, lit: string, after: string)
    requires IsLiteral(escapes, lit, after)
    ensures StringLen(lit + after) == |lit| <==> Seen(escapes, lit, after)
  {
    var us :| UnitsOk('\'', escapes, us) && lit == Body('\'', us) + ['\''];
    if escapes {
      EscapedEnds(us, after);
    } else {
      StandardEnds(us, after);
    }
  }

  // ---------- Quoted identifiers ----------

  /** The scanner of identifiers takes a quoted identifier, or one that the end of the text cuts off. */
  lemma {:induction false} QuotedIsIdentifier(s: string)
    ensures var t, after := s[..QuotedLen(s)], s[QuotedLen(s)..];
      Closed('"', false, t, after) || CutOff('"', t, after)
  {
    var t, after := s[..QuotedLen(s)], s[QuotedLen(s)..];
    if s == [] {
      assert UnitsOk('"', false, []) && t == Body('"', []);
    } else if s[0] == '"' && !StartsWith(s, '"', '"') {
      assert UnitsOk('"', false, []) && t == Body('"', []) + ['"'];
    } else {
      var u := if s[0] == '"' then Doubled else Other(s[0]);
      var n := |UnitText('"', u)|;
      assert s[..n] == UnitText('"', u);
      QuotedIsIdentifier(s[n..]);
      hide Closed, CutOff, Body, UnitsOk;
      MoreUnits(u, s[n..][..QuotedLen(s[n..])], after);
      assert t == UnitText('"', u) + s[n..][..QuotedLen(s[n..])] && s[n..][QuotedLen(s[n..])..] == after;
    }
  }

  lemma {:induction false} MoreUnits(u: Unit, t: string, after: string)
    requires UnitOk('"', false, u)
    ensures Closed('"', false, t, after) ==> Closed('"', false, UnitText('"', u) + t, after)
    ensures CutOff('"', t, after) ==> CutOff('"', UnitText('"', u) + t, after)
  {
    if Closed('"', false, t, after) {
      var us :| UnitsOk('"', false, us) && t == Body('"', us) + ['"'];
      BodyStep('"', [u] + us);
      assert ([u] + us)[1..] == us && UnitsOk('"', false, [u] + us);
    }
    if CutOff('"', t, after) {
      var us :| UnitsOk('"', false, us) && t == Body('"', us);
      assert ([u] + us)[1..] == us && UnitsOk('"', false, [u] + us);
      assert Body('"', [u] + us) == UnitText('"', u) + t;
    }
  }

  // ---------- Line comments ----------

  /** PostgreSQL ends a line comment at a line feed or a carriage return. */
  function CommentLen(s: string): (n: nat)
    ensures n <= |s|
  {
    if s == [] || s[0] == '\n' || s[0] == '\r' then 0 else 1 + CommentLen(s[1..])
  }

  /** The scanner ends with the comment exactly when no carriage return comes before the line feed. */
  lemma {:induction false} LineEndsIff(s: string)
    ensures LineLen(s) == CommentLen(s) <==> '\r' !in s[..LineLen(s)]
    ensures CommentLen(s) <= LineLen(s)
  {
    if s != [] && s[0] != '\n' {
      LineEndsIff(s[1..]);
      assert s[..LineLen(s)] == [s[0]] + s[1..][..LineLen(s[1..])];
    }
  }

  // ---------- Tags of dollar quotes ----------

  /** Bytes beyond ASCII are letters to PostgreSQL. */
  predicate IsTagChar(c: char) {
    IsIdentChar(c) || c >= 128 as char
  }

  function TagChars(s: string): (n: nat)
    ensures n <= |s|
  {
    if s == [] || !IsTagChar(s[0]) then 0 else 1 + TagChars(s[1..])
  }

  /** The tag of a dollar quote, after its dollar sign. */
  function TagLen(s: string): (n: nat)
    ensures n <= |s|
  {
    if s != [] && !IsDigit(s[0]) then TagChars(s) else 0
  }

  /** The scanner reads the tag PostgreSQL reads exactly when the tag is ASCII. */
  lemma {:induction false} TagIff(s: string)
    ensures TagRun(s) <= TagLen(s)
    ensures TagRun(s) == TagLen(s) <==> forall i :: 0 <= i < TagLen(s) ==> s[i] < 128 as char
  {
    TagCharsIff(s);
  }

  lemma {:induction false} TagCharsIff(s: string)
    ensures IdentRun(s) <= TagChars(s)
    ensures IdentRun(s) == TagChars(s) <==> forall i :: 0 <= i < TagChars(s) ==> s[i] < 128 as char
  {
    if s != [] && IsTagChar(s[0]) {
      TagCharsIff(s[1..]);
      assert forall i :: 1 <= i < TagChars(s) ==> s[i] == s[1..][i - 1];
      assert forall i :: 0 <= i < TagChars(s[1..]) ==> s[1..][i] == s[i + 1];
    }
  }

  // ---------- Nested block comments ----------

  /** The inside of a block comment and its close: bytes, and comments within the comment. */
  datatype Comment = Close | Text(c: char, rest: Comment) | Nested(inner: Comment, rest: Comment)

  /** The comment written out, with after behind it. */
  function Show(p: Comment, after: string): (s: string)
    ensures |s| >= 2 + |after| && s[0] == First(p)
  {
    match p
    case Close => "*/" + after
    case Text(c, rest) => [c] + Show(rest, after)
    case Nested(inner, rest) => "/*" + Show(inner, Show(rest, after))
  }

  function First(p: Comment): char {
    match p
    case Close => '*'
    case Text(c, _) => c
    case Nested(_, _) => '/'
  }

  /** No byte of the text makes an opening or a close with the byte after it. */
  predicate Proper(p: Comment) {
    match p
    case Close => true
    case Text(c, rest) => !(c == '/' && First(rest) == '*') && !(c == '*' && First(rest) == '/') && Proper(rest)
    case Nested(inner, rest) => Proper(inner) && Proper(rest)
  }

  /** With depth comments open, the scanner consumes exactly one properly nested comment for each. */
  lemma {:induction false} ProperCommentConsumed(p: Comment, after: string, depth: nat)
    requires Proper(p) && depth >= 1
    ensures BlockLen(Show(p, after), depth)
         == |Show(p, after)| - |after| + if depth == 1 then 0 else BlockLen(after, depth - 1)
  {
    var s := Show(p, after);
    match p
    case Close =>
      assert s[2..] == after;
    case Text(c, rest) =>
      assert s[1..] == Show(rest, after);
      ProperCommentConsumed(rest, after, depth);
    case Nested(inner, rest) =>
      assert s[2..] == Show(inner, Show(rest, after));
      ProperCommentConsumed(inner, Show(rest, after), depth + 1);
      ProperCommentConsumed(rest, after, depth);
  }

  /** A block comment is scanned to its matching end, however deep the comments inside it. */
  lemma {:induction false} BlockCommentMatched(p: Comment, after: string)
    requires Proper(p)
    ensures var s := "/*" + Show(p, after);
      NextPiece(s) == Copied(BlockComment, s[..|s| - |after|])
  {
    var s := "/*" + Show(p, after);
    assert s[2..] == Show(p, after);
    ProperCommentConsumed(p, after, 1);
  }

  /** Whether the comments that are open all close within s. */
  predicate Closing(s: string, depth: nat) {
    if depth == 0 then true
    else if s == [] then false
    else if StartsWith(s, '/', '*') then Closing(s[2..], depth + 1)
    else if StartsWith(s, '*', '/') then Closing(s[2..], depth - 1)
    else Closing(s[1..], depth)
  }

  /** Conversely, what the scanner consumes of a comment that closes is one properly nested comment. */
  lemma {:induction false} ClosedIsProper(s: string, depth: nat) returns (p: Comment, after: string)
    requires depth >= 1 && Closing(s, depth)
    ensures Proper(p) && s == Show(p, after)
    ensures Closing(after, depth - 1)
    decreases |s|
  {
    if StartsWith(s, '/', '*') {
      var inner, t := ClosedIsProper(s[2..], depth + 1);
      var rest;
      rest, after := ClosedIsProper(t, depth);
      p := Nested(inner, rest);
      assert s == "/*" + s[2..];
    } else if StartsWith(s, '*', '/') {
      p, after := Close, s[2..];
      assert s == "*/" + s[2..];
    } else {
      var rest;
      rest, after := ClosedIsProper(s[1..], depth);
      p := Text(s[0], rest);
      assert s == [s[0]] + s[1..];
    }
  }

  /** Every block comment that closes is a properly nested comment, and one that does not runs to
      the end of the text. */
  lemma {:induction false} BlockCommentShape(s: string)
    requires StartsWith(s, '/', '*')
    ensures Closing(s[2..], 1) ==> exists p, after ::
      Proper(p) && s == "/*" + Show(p, after) && NextPiece(s) == Copied(BlockComment, s[..|s| - |after|])
    ensures !Closing(s[2..], 1) ==> NextPiece(s) == Copied(BlockComment, s)
  {
    if Closing(s[2..], 1) {
      var p, after := ClosedIsProper(s[2..], 1);
      assert s == "/*" + Show(p, after);
      BlockCommentMatched(p, after);
    } else {
      UnclosedRunsToEnd(s[2..], 1);
    }
  }

  lemma {:induction false} UnclosedRunsToEnd(s: string, depth: nat)
    requires depth >= 1 && !Closing(s, depth)
    ensures BlockLen(s, depth) == |s|
  {
    if StartsWith(s, '/', '*') {
      UnclosedRunsToEnd(s[2..], depth + 1);
    } else if StartsWith(s, '*', '/') {
      UnclosedRunsToEnd(s[2..], depth - 1);
    } else if s != [] {
      UnclosedRunsToEnd(s[1..], depth);
    }
  }

  lemma {:induction false} ShowAppends(p: Comment, after: string)
    ensures Show(p, after) == Show(p, "") + after
  {
    match p
    case Close =>
    case Text(c, rest) => ShowAppends(rest, after);
    case Nested(inner, rest) =>
      ShowAppends(rest, after);
      ShowAppends(inner, Show(rest, after));
      ShowAppends(inner, Show(rest, ""));
  }

  /** A properly nested comment, or one that does not close before the end of the text. */
  ghost predicate IsComment(t: string, after: string) {
    || (exists p :: Proper(p) && t == "/*" + Show(p, ""))
    || (after == [] && StartsWith(t, '/', '*') && !Closing(t[2..], 1))
  }

  lemma {:induction false} BlockIsComment(s: string)
    requires StartsWith(s, '/', '*')
    ensures NextPiece(s).text <= s && IsComment(NextPiece(s).text, s[|NextPiece(s).text|..])
  {
    BlockCommentShape(s);
    if Closing(s[2..], 1) {
      var p, after :| Proper(p) && s == "/*" + Show(p, after)
                      && NextPiece(s) == Copied(BlockComment, s[..|s| - |after|]);
      ShowAppends(p, after);
      hide Closing, NextPiece, Show, Proper;
      assert s == ("/*" + Show(p, "")) + after;
    }
  }
}
