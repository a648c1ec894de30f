/** The signature field of the audit logs: pkg/middleware/logging/utils.go:222-248. The reference is a
    strict decoder for ITU-T X.690, sections 8.3 (INTEGER) and 10.1 (length in definite, short form). */
module DerSignature {
  import opened Basics

  type Bytes = seq<Byte>

  // ---------- Big-endian numbers ----------

  /** big.Int.Bytes: the absolute value, most significant byte first, none for zero. */
  function BigBytes(n: nat): Bytes {
    if n == 0 then [] else BigBytes(n / 256) + [(n % 256) as Byte]
  }

  function Unsigned(b: Bytes): nat {
    if b == [] then 0 else 256 * Unsigned(b[..|b| - 1]) + b[|b| - 1] as nat
  }

  function Pow256(k: nat): nat {
    if k == 0 then 1 else 256 * Pow256(k - 1)
  }

  lemma {:induction false} BigBytesValue(n: nat)
    ensures Unsigned(BigBytes(n)) == n
    ensures n > 0 ==> BigBytes(n) != [] && BigBytes(n)[0] != 0
  {
    if n > 0 {
      BigBytesValue(n / 256);
    }
  }

  lemma {:induction false} BigBytesLength(n: nat, k: nat)
    ensures n < Pow256(k) <==> |BigBytes(n)| <= k
  {
    if n > 0 && k > 0 {
      BigBytesLength(n / 256, k - 1);
    }
    if k == 0 {
      assert n > 0 ==> |BigBytes(n)| > 0;
    } else if n == 0 {
      PowPositive(k);
    }
  }

  lemma {:induction false} PowPositive(k: nat)
    ensures Pow256(k) > 0
  {
    if k > 0 {
      PowPositive(k - 1);
    }
  }

  lemma {:induction false} BytesOfValue(b: Bytes)
    requires b != [] ==> b[0] != 0
    ensures BigBytes(Unsigned(b)) == b
  {
    if b != [] {
      var front := b[..|b| - 1];
      BytesOfValue(front);
      UnsignedPositive(b);
      assert Unsigned(b) / 256 == Unsigned(front) && Unsigned(b) % 256 == b[|b| - 1] as nat;
      assert b == front + [b[|b| - 1]];
    }
  }

  lemma {:induction false} UnsignedPositive(b: Bytes)
    requires b != [] && b[0] != 0
    ensures Unsigned(b) > 0
  {
    if |b| > 1 {
      UnsignedPositive(b[..|b| - 1]);
    }
  }

  lemma {:induction false} LeadingZero(b: Bytes)
    ensures Unsigned([0] + b) == Unsigned(b)
  {
    if b == [] {
      assert [0] + b == [0];
    } else {
      assert ([0] + b)[..|b|] == [0] + b[..|b| - 1];
      LeadingZero(b[..|b| - 1]);
    }
  }

  lemma {:induction false} UnsignedBound(b: Bytes)
    ensures Unsigned(b) < Pow256(|b|)
  {
    if b != [] {
      UnsignedBound(b[..|b| - 1]);
    }
  }

  // ---------- The code ----------

  function Padded(b: Bytes): Bytes {
    if b != [] && b[0] >= 0x80 then [0] + b else b
  }

  /** Go's conversion of an int to a byte. */
  function LowByte(n: nat): Byte {
    (n % 256) as Byte
  }

  function Integer(b: Bytes): Bytes {
    [0x02, LowByte(|b|)] + b
  }

  function Encoded(r: nat, s: nat): Bytes {
    var rBytes, sBytes := Padded(BigBytes(r)), Padded(BigBytes(s));
    [0x30, LowByte(2 + |rBytes| + 2 + |sBytes|)] + (Integer(rBytes) + Integer(sBytes))
  }

  method EncodeDER(r: nat, s: nat) returns (der: Bytes)
    ensures der == Encoded(r, s)
  {
    hide *;
    var rBytes := BigBytes(r);
    var sBytes := BigBytes(s);
    if |rBytes| > 0 && rBytes[0] >= 0x80 {
      rBytes := [0] + rBytes;
    }
    if |sBytes| > 0 && sBytes[0] >= 0x80 {
      sBytes := [0] + sBytes;
    }
    der := [];
    der := der + [0x30];
    der := der + [LowByte(2 + |rBytes| + 2 + |sBytes|)];
    der := der + [0x02];
    der := der + [LowByte(|rBytes|)];
    der := der + rBytes;
    der := der + [0x02];
    der := der + [LowByte(|sBytes|)];
    der := der + sBytes;
    Assembled(r, s, rBytes, sBytes, der);
  }

  lemma {:induction false} Assembled(r: nat, s: nat, rBytes: Bytes, sBytes: Bytes, der: Bytes)
    requires rBytes == if |BigBytes(r)| > 0 && BigBytes(r)[0] >= 0x80 then [0] + BigBytes(r) else BigBytes(r)
    requires sBytes == if |BigBytes(s)| > 0 && BigBytes(s)[0] >= 0x80 then [0] + BigBytes(s) else BigBytes(s)
    requires der == [] + [0x30] + [LowByte(2 + |rBytes| + 2 + |sBytes|)] + [0x02] + [LowByte(|rBytes|)] + rBytes
                    + [0x02] + [LowByte(|sBytes|)] + sBytes
    ensures der == Encoded(r, s)
  {
    hide BigBytes, LowByte;
    assert rBytes == Padded(BigBytes(r)) && sBytes == Padded(BigBytes(s));
    var l, a, b := LowByte(2 + |rBytes| + 2 + |sBytes|), LowByte(|rBytes|), LowByte(|sBytes|);
    Regroup([0x30], [l], [0x02], [a], rBytes, [b], sBytes);
    assert [0x30, l] == [0x30] + [l] && [0x02, a] == [0x02] + [a] && [0x02, b] == [0x02] + [b];
  }

  lemma {:induction false} Regroup<T>(a: seq<T>, b: seq<T>, c: seq<T>, d: seq<T>, e: seq<T>, f: seq<T>, g: seq<T>)
    ensures [] + a + b + c + d + e + c + f + g == (a + b) + ((c + d + e) + (c + f + g))
  {
    assert [] + a == a;
    var left, right := c + d + e, c + f + g;
    assert a + b + c + d + e == (a + b) + left;
    assert (a + b) + left + c + f + g == (a + b) + left + right;
    assert (a + b) + left + right == (a + b) + (left + right);
  }

  // ---------- A strict decoder ----------

  /** Section 8.3.2: the first nine bits are neither all zero nor all one. */
  predicate Minimal(b: Bytes) {
    |b| >= 1
    && (|b| > 1 ==> !(b[0] == 0 && b[1] < 0x80) && !(b[0] == 0xff && b[1] >= 0x80))
  }

  /** Section 8.3.3: two's complement. */
  function Signed(b: Bytes): int {
    if b != [] && b[0] >= 0x80 then Unsigned(b) - Pow256(|b|) else Unsigned(b)
  }

  datatype Tlv = Tlv(content: Bytes, rest: Bytes)

  /** A value with the given tag and a length in short form, and what follows it. */
  function ReadTlv(tag: Byte, d: Bytes): Option<Tlv> {
    if |d| < 2 || d[0] != tag || d[1] >= 0x80 || |d| < 2 + d[1] as nat then None
    else Some(Tlv(d[2..2 + d[1] as nat], d[2 + d[1] as nat..]))
  }

  function ReadInteger(d: Bytes): Option<Tlv> {
    var v := ReadTlv(0x02, d);
    if v.Some? && Minimal(v.value.content) then v else None
  }

  /** The pair of integers a SEQUENCE of exactly two INTEGERs holds. */
  function Decode(d: Bytes): Option<(int, int)> {
    match ReadTlv(0x30, d)
    case None => None
    case Some(outer) =>
      if outer.rest != [] then None
      else
        match ReadInteger(outer.content)
        case None => None
        case Some(first) =>
          match ReadInteger(first.rest)
          case None => None
          case Some(second) =>
            if second.rest != [] then None
            else Some((Signed(first.content), Signed(second.content)))
  }

  // ---------- Encoder and decoder together ----------

  lemma {:induction false} PaddedIsInteger(n: nat)
    ensures n > 0 ==> Minimal(Padded(BigBytes(n))) && Signed(Padded(BigBytes(n))) == n
    ensures n == 0 ==> Padded(BigBytes(n)) == []
  {
    BigBytesValue(n);
    LeadingZero(BigBytes(n));
  }

  lemma {:induction false} IntegerIsPadded(b: Bytes)
    requires Minimal(b) && Signed(b) > 0
    ensures Padded(BigBytes(Signed(b))) == b
  {
    UnsignedBound(b);
    assert b[0] < 0x80;
    if b[0] == 0 {
      assert b == [0] + b[1..];
      LeadingZero(b[1..]);
      BytesOfValue(b[1..]);
    } else {
      BytesOfValue(b);
    }
  }

  lemma {:induction false} ReadBack(tag: Byte, content: Bytes, rest: Bytes)
    requires |content| < 0x80
    ensures ReadTlv(tag, [tag, LowByte(|content|)] + (content + rest)) == Some(Tlv(content, rest))
  {
    var d := [tag, LowByte(|content|)] + (content + rest);
    assert d[2..2 + |content|] == content && d[2 + |content|..] == rest;
  }

  /** A length that needs more than seven bits is lost, and what is written does not parse. */
  lemma {:induction false} LongIsRefused(tag: Byte, content: Bytes)
    requires |content| >= 0x80
    ensures var v := ReadTlv(tag, [tag, LowByte(|content|)] + content);
            v == None || v.value.rest != []
  {
  }

  lemma {:induction false} ReadIntegerBack(n: nat, rest: Bytes)
    requires |Padded(BigBytes(n))| < 0x80
    ensures ReadInteger(Integer(Padded(BigBytes(n))) + rest) ==
            if n > 0 then Some(Tlv(Padded(BigBytes(n)), rest)) else None
  {
    var b := Padded(BigBytes(n));
    PaddedIsInteger(n);
    assert Integer(b) + rest == [0x02, LowByte(|b|)] + (b + rest);
    ReadBack(0x02, b, rest);
  }

  /** The length of what the outer SEQUENCE holds. */
  function ContentLength(r: nat, s: nat): nat {
    2 + |Padded(BigBytes(r))| + 2 + |Padded(BigBytes(s))|
  }

  /** The decoder gives back r and s exactly when both are positive and the one-byte length does not
      leave the short form; otherwise the encoder's output is no DER pair of integers at all. */
  lemma {:induction false} DecodesIff(r: nat, s: nat)
    ensures Decode(Encoded(r, s)) ==
            if r > 0 && s > 0 && ContentLength(r, s) < 0x80 then Some((r as int, s as int)) else None
  {
    hide ReadTlv, ReadInteger, Signed, BigBytes, Padded, LowByte;
    var first, second := Integer(Padded(BigBytes(r))), Integer(Padded(BigBytes(s)));
    var content := first + second;
    if |content| >= 0x80 {
      LongIsRefused(0x30, content);
    } else {
      assert content + [] == content && second + [] == second;
      ReadBack(0x30, content, []);
      ReadIntegerBack(r, second);
      ReadIntegerBack(s, []);
      PaddedIsInteger(r);
      PaddedIsInteger(s);
    }
  }

  /** What P-256 signatures need: both parts between 1 and 2^256 - 1. */
  lemma {:induction false} SignaturesDecode(r: nat, s: nat)
    requires 0 < r < Pow256(32) && 0 < s < Pow256(32)
    ensures Decode(Encoded(r, s)) == Some((r as int, s as int))
    ensures |Encoded(r, s)| == 2 + ContentLength(r, s) <= 72
  {
    BigBytesLength(r, 32);
    BigBytesLength(s, 32);
    hide BigBytes;
    DecodesIff(r, s);
  }

  lemma {:induction false} ReadTlvWritten(tag: Byte, d: Bytes)
    requires ReadTlv(tag, d).Some?
    ensures var v := ReadTlv(tag, d).value;
            |v.content| < 0x80 && d == [tag, LowByte(|v.content|)] + (v.content + v.rest)
  {
    var v := ReadTlv(tag, d).value;
    assert d == d[..2] + d[2..] && d[..2] == [d[0], d[1]];
    assert d[2..] == v.content + v.rest;
  }

  /** DER is canonical: no other bytes decode to the pair. */
  lemma {:induction false} OnlyEncoding(d: Bytes, r: nat, s: nat)
    requires r > 0 && s > 0 && Decode(d) == Some((r as int, s as int))
    ensures d == Encoded(r, s)
  {
    hide ReadTlv, Signed, BigBytes, Padded, LowByte, Minimal;
    ReadTlvWritten(0x30, d);
    var outer := ReadTlv(0x30, d).value;
    ReadTlvWritten(0x02, outer.content);
    var first := ReadTlv(0x02, outer.content).value;
    ReadTlvWritten(0x02, first.rest);
    var second := ReadTlv(0x02, first.rest).value;
    IntegerIsPadded(first.content);
    IntegerIsPadded(second.content);
    assert outer.content + outer.rest == outer.content && second.content + second.rest == second.content;
    assert Integer(first.content) + first.rest ==
           [0x02, LowByte(|first.content|)] + (first.content + first.rest);
  }
}
