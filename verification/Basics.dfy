/** Option and Result, decimal numerals, and the order of strings: what the other modules share. */
module Basics {

  datatype Option<+T> = None | Some(value: T)

  datatype Result<+T, +E> = Ok(value: T) | Err(error: E)

  type Byte = n: nat | n < 256

  const TWO_TO_THE_64 := 0x1_0000_0000_0000_0000

  // ---------- Decimal numerals ----------

  predicate IsDigit(c: char) {
    '0' <= c <= '9'
  }

  function DigitValue(c: char): (d: nat)
    requires IsDigit(c)
    ensures d < 10
  {
    c as int - '0' as int
  }

  function DigitChar(d: nat): (c: char)
    requires d < 10
    ensures IsDigit(c) && DigitValue(c) == d
  {
    ('0' as int + d) as char
  }

  /** The decimal numeral of n, as %d and strconv print it. */
  function Decimal(n: nat): (s: string)
    ensures s != []
    ensures forall i :: 0 <= i < |s| ==> IsDigit(s[i])
  {
    if n < 10 then [DigitChar(n)] else Decimal(n / 10) + [DigitChar(n % 10)]
  }

  /** The number a string of digits denotes. */
  function DigitsValue(s: string): nat
    requires forall i :: 0 <= i < |s| ==> IsDigit(s[i])
  {
    if s == [] then 0 else DigitsValue(s[..|s| - 1]) * 10 + DigitValue(s[|s| - 1])
  }

  lemma {:induction false} DecimalValue(n: nat)
    ensures DigitsValue(Decimal(n)) == n
  {
    if n >= 10 {
      var s := Decimal(n);
      assert s[..|s| - 1] == Decimal(n / 10);
      DecimalValue(n / 10);
    }
  }

  /** No numeral but that of zero begins with one. */
  lemma {:induction false} DecimalPlain(n: nat)
    ensures Decimal(n)[0] == '0' <==> n == 0
    ensures Decimal(0) == "0"
  {
    if n >= 10 {
      DecimalPlain(n / 10);
    }
  }

  lemma {:induction false} DecimalInjective(m: nat, n: nat)
    requires Decimal(m) == Decimal(n)
    ensures m == n
  {
    DecimalValue(m);
    DecimalValue(n);
  }

  // ---------- The order of strings ----------

  /** Lexicographic order by character, the order of Go's `<` and sort.Strings. */
  predicate LexLess(a: string, b: string) {
    if b == [] then false
    else if a == [] then true
    else if a[0] != b[0] then a[0] < b[0]
    else LexLess(a[1..], b[1..])
  }

  lemma {:induction false} LexIrreflexive(a: string)
    ensures !LexLess(a, a)
  {
    if a != [] {
      LexIrreflexive(a[1..]);
    }
  }

  lemma {:induction false} LexTransitive(a: string, b: string, c: string)
    requires LexLess(a, b) && LexLess(b, c)
    ensures LexLess(a, c)
  {
    if a != [] && b != [] && c != [] && a[0] == b[0] == c[0] {
      LexTransitive(a[1..], b[1..], c[1..]);
    }
  }

  lemma {:induction false} LexTotal(a: string, b: string)
    ensures LexLess(a, b) || a == b || LexLess(b, a)
  {
    if a != [] && b != [] && a[0] == b[0] {
      LexTotal(a[1..], b[1..]);
      assert a == [a[0]] + a[1..] && b == [b[0]] + b[1..];
    }
  }

  /** A shorter beginning comes first; otherwise the first character that differs decides. */
  lemma {:induction false} LexLessIff(a: string, b: string)
    ensures LexLess(a, b) <==>
      a < b || exists i :: 0 <= i < |a| && i < |b| && a[..i] == b[..i] && a[i] < b[i]
  {
    if a != [] && b != [] && a[0] == b[0] {
      LexLessIff(a[1..], b[1..]);
      assert a == [a[0]] + a[1..] && b == [b[0]] + b[1..];
      if i :| 0 <= i < |a| && i < |b| && a[..i] == b[..i] && a[i] < b[i] {
        LexShift(a, b, i - 1);
      }
      if i :| 0 <= i < |a| - 1 && i < |b| - 1 && a[1..][..i] == b[1..][..i] && a[1..][i] < b[1..][i] {
        LexShift(a, b, i);
      }
    } else if a != [] && b != [] {
      assert a[..0] == b[..0];
      assert LexLess(a, b) ==> a[0] < b[0];
    }
  }

  lemma {:induction false} LexShift(a: string, b: string, i: nat)
    requires a != [] && b != [] && a[0] == b[0] && i + 1 < |a| && i + 1 < |b|
    ensures a[..i + 1] == b[..i + 1] <==> a[1..][..i] == b[1..][..i]
    ensures a[1..][i] == a[i + 1] && b[1..][i] == b[i + 1]
  {
    assert a[..i + 1] == [a[0]] + a[1..][..i];
    assert b[..i + 1] == [b[0]] + b[1..][..i];
  }

  // ---------- Pieces of strings ----------

  lemma {:induction false} Reassociate(a: string, b: string, c: string)
    ensures (a + b) + c == a + (b + c)
  {
  }

  function TrimLeft(s: string, cut: set<char>): string {
    if s != [] && s[0] in cut then TrimLeft(s[1..], cut) else s
  }

  function TrimRight(s: string, cut: set<char>): string {
    if s != [] && s[|s| - 1] in cut then TrimRight(s[..|s| - 1], cut) else s
  }

  /** strings.Trim: without the characters of cut at both ends. */
  function TrimChars(s: string, cut: set<char>): string {
    TrimRight(TrimLeft(s, cut), cut)
  }

  /** What is cut off at the two ends consists of such characters, and what is left does not begin or
      end with one. */
  lemma {:induction false} TrimCharsIs(s: string, cut: set<char>) returns (a: string, b: string)
    ensures s == a + (TrimChars(s, cut) + b) && (forall i :: 0 <= i < |a| ==> a[i] in cut)
    ensures forall i :: 0 <= i < |b| ==> b[i] in cut
    ensures var t := TrimChars(s, cut); t == "" || (t[0] !in cut && t[|t| - 1] !in cut)
  {
    a := TrimLeftIs(s, cut);
    b := TrimRightIs(TrimLeft(s, cut), cut);
    hide TrimLeft, TrimRight;
  }

  lemma {:induction false} TrimLeftIs(s: string, cut: set<char>) returns (a: string)
    ensures s == a + TrimLeft(s, cut) && forall i :: 0 <= i < |a| ==> a[i] in cut
    ensures TrimLeft(s, cut) == "" || TrimLeft(s, cut)[0] !in cut
  {
    a := "";
    if s != [] && s[0] in cut {
      var rest := TrimLeftIs(s[1..], cut);
      a := [s[0]] + rest;
    }
  }

  lemma {:induction false} TrimRightIs(s: string, cut: set<char>) returns (b: string)
    ensures s == TrimRight(s, cut) + b && forall i :: 0 <= i < |b| ==> b[i] in cut
    ensures TrimRight(s, cut) == "" || TrimRight(s, cut)[|TrimRight(s, cut)| - 1] !in cut
  {
    b := "";
    if s != [] && s[|s| - 1] in cut {
      var rest := TrimRightIs(s[..|s| - 1], cut);
      b := rest + [s[|s| - 1]];
    }
  }

  /** strings.Join. */
  function Join(parts: seq<string>, sep: string): string {
    if parts == [] then ""
    else if |parts| == 1 then parts[0]
    else parts[0] + (sep + Join(parts[1..], sep))
  }
}
