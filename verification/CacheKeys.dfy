/** Keys of the single-record cache and the pattern that invalidates them:
    pkg/localdeps/go-crud/entgo/repository_cache.go. */
module CacheKeys {
  import opened Basics
  import opened CursorCodec

  /** A field mask: the paths, or none. */
  type ViewMask = Option<seq<string>>

  function InsertString(x: string, s: seq<string>): seq<string> {
    if s == [] || !LexLess(s[0], x) then [x] + s else [s[0]] + InsertString(x, s[1..])
  }

  function SortStrings(s: seq<string>): seq<string> {
    if s == [] then [] else InsertString(s[0], SortStrings(s[1..]))
  }

  /** The first eight bytes of MD5, as a parameter. */
  type Hash = string -> seq<Byte>

  ghost predicate HashFits(hash: Hash) {
    forall s :: |hash(s)| == 8
  }

  /** viewMaskFingerprint: the order of the paths does not matter. */
  function Fingerprint(hash: Hash, mask: ViewMask): string {
    if mask.None? || mask.value == [] then "all"
    else
      var sorted := SortStrings(mask.value);
      if sorted == [] then "all" else Hex(hash(Join(sorted, "|")))
  }

  /** %v of an integer id. */
  function IdText(id: int): string {
    if id < 0 then "-" + Decimal(-id) else Decimal(id)
  }

  function After(tenant: nat, user: nat, fp: string, id: string): string {
    "t:" + (Decimal(tenant) + (":u:" + (Decimal(user) + (":m:" + (fp + (":id:" + id))))))
  }

  function CacheKey(prefix: string, tenant: nat, user: nat, fp: string, id: string): string {
    prefix + After(tenant, user, fp, id)
  }

  predicate NoColon(s: string) {
    ':' !in s
  }

  lemma {:induction false} NumbersHaveNoColon(n: nat, id: int)
    ensures NoColon(Decimal(n)) && NoColon(IdText(id))
  {
    forall i | 0 <= i < |IdText(id)|
      ensures IdText(id)[i] != ':'
    {
    }
  }

  lemma {:induction false} HexHasNoColon(b: seq<Byte>)
    ensures NoColon(Hex(b))
  {
    if b != [] {
      HexHasNoColon(b[1..]);
    }
  }

  lemma {:induction false} FingerprintHasNoColon(hash: Hash, mask: ViewMask)
    ensures NoColon(Fingerprint(hash, mask))
  {
    if mask.Some? && mask.value != [] && SortStrings(mask.value) != [] {
      HexHasNoColon(hash(Join(SortStrings(mask.value), "|")));
    }
  }

  /** A field without colons, followed by a colon, is delimited. */
  lemma {:induction false} FieldDelimited(a: string, s: string, b: string, t: string)
    requires NoColon(a) && NoColon(b) && a + (":" + s) == b + (":" + t)
    ensures a == b && s == t
  {
    var x, y := a + (":" + s), b + (":" + t);
    assert x[|a|] == ':' && y[|b|] == ':';
    assert forall i :: 0 <= i < |a| ==> x[i] == a[i];
    assert forall i :: 0 <= i < |b| ==> y[i] == b[i];
    assert |a| == |b|;
    assert a == x[..|a|] && b == y[..|b|];
    assert s == x[|a| + 1..] && t == y[|b| + 1..];
  }

  /** The key determines tenant, user, mask fingerprint and id. */
  lemma {:induction false} KeyInjective(prefix: string, t1: nat, u1: nat, f1: string, i1: string,
                                        t2: nat, u2: nat, f2: string, i2: string)
    requires NoColon(f1) && NoColon(f2)
    requires CacheKey(prefix, t1, u1, f1, i1) == CacheKey(prefix, t2, u2, f2, i2)
    ensures t1 == t2 && u1 == u2 && f1 == f2 && i1 == i2
  {
    var k1, k2 := After(t1, u1, f1, i1), After(t2, u2, f2, i2);
    assert k1 == CacheKey(prefix, t1, u1, f1, i1)[|prefix|..] && k2 == CacheKey(prefix, t2, u2, f2, i2)[|prefix|..];
    NumbersHaveNoColon(t1, 0);
    NumbersHaveNoColon(t2, 0);
    NumbersHaveNoColon(u1, 0);
    NumbersHaveNoColon(u2, 0);
    hide Decimal;
    Peel("t:", k1, k2, Decimal(t1), ":u:", Decimal(u1) + (":m:" + (f1 + (":id:" + i1))),
         Decimal(t2), Decimal(u2) + (":m:" + (f2 + (":id:" + i2))));
    Peel("", Decimal(u1) + (":m:" + (f1 + (":id:" + i1))), Decimal(u2) + (":m:" + (f2 + (":id:" + i2))),
         Decimal(u1), ":m:", f1 + (":id:" + i1), Decimal(u2), f2 + (":id:" + i2));
    Peel("", f1 + (":id:" + i1), f2 + (":id:" + i2), f1, ":id:", i1, f2, i2);
    DecimalInjective(t1, t2);
    DecimalInjective(u1, u2);
  }

  /** Two equal texts of the shape head, field, separator, rest have equal fields and rests. */
  lemma {:induction false} Peel(head: string, x: string, y: string, a: string, sep: string, s: string,
                                b: string, t: string)
    requires x == y && x == head + (a + (sep + s)) && y == head + (b + (sep + t))
    requires NoColon(a) && NoColon(b) && sep != [] && sep[0] == ':'
    ensures a == b && s == t
  {
    var rest := sep[1..];
    assert sep == ":" + rest;
    assert sep + s == ":" + (rest + s) && sep + t == ":" + (rest + t);
    assert x[|head|..] == a + (":" + (rest + s)) && y[|head|..] == b + (":" + (rest + t));
    FieldDelimited(a, rest + s, b, rest + t);
    assert (rest + s)[|rest|..] == s && (rest + t)[|rest|..] == t;
  }

  // ---------- Fingerprints ----------

  lemma {:induction false} HexInjective(a: seq<Byte>, b: seq<Byte>)
    requires Hex(a) == Hex(b)
    ensures a == b
  {
    if a == [] {
      assert |Hex(b)| == 0;
    } else {
      assert b != [] by {
        assert |Hex(a)| > 0;
      }
      assert Hex(a)[0] == HexDigit(a[0] / 16) && Hex(a)[1] == HexDigit(a[0] % 16);
      assert Hex(b)[0] == HexDigit(b[0] / 16) && Hex(b)[1] == HexDigit(b[0] % 16);
      assert Hex(a)[2..] == Hex(a[1..]) && Hex(b)[2..] == Hex(b[1..]);
      HexInjective(a[1..], b[1..]);
      assert a == [a[0]] + a[1..] && b == [b[0]] + b[1..];
    }
  }

  lemma {:induction false} JoinBars(a: seq<string>)
    requires a != [] && forall p :: p in a ==> '|' !in p
    ensures |a| > 1 <==> '|' in Join(a, "|")
  {
    if |a| > 1 {
      assert Join(a, "|")[|a[0]|] == '|';
    } else {
      assert a[0] in a;
    }
  }

  lemma {:induction false} JoinInjective(a: seq<string>, b: seq<string>)
    requires a != [] && b != [] && Join(a, "|") == Join(b, "|")
    requires forall p :: p in a || p in b ==> '|' !in p
    ensures a == b
  {
    assert a[0] in a && b[0] in b;
    JoinBars(a);
    JoinBars(b);
    if |a| == 1 {
      assert a == [a[0]] && b == [b[0]];
    } else {
      var x, y := a[0] + ("|" + Join(a[1..], "|")), b[0] + ("|" + Join(b[1..], "|"));
      assert x[|a[0]|] == '|' && y[|b[0]|] == '|';
      assert forall i :: 0 <= i < |a[0]| ==> x[i] == a[0][i];
      assert forall i :: 0 <= i < |b[0]| ==> y[i] == b[0][i];
      assert |a[0]| == |b[0]|;
      assert a[0] == x[..|a[0]|] && b[0] == y[..|b[0]|];
      assert Join(a[1..], "|") == x[|a[0]| + 1..] && Join(b[1..], "|") == y[|b[0]| + 1..];
      JoinInjective(a[1..], b[1..]);
      assert a == [a[0]] + a[1..] && b == [b[0]] + b[1..];
    }
  }

  lemma {:induction false} InsertMembers(x: string, s: seq<string>)
    ensures forall p :: p in InsertString(x, s) <==> p == x || p in s
    ensures InsertString(x, s) != []
  {
    if s != [] && LexLess(s[0], x) {
      InsertMembers(x, s[1..]);
    }
  }

  lemma {:induction false} SortMembers(s: seq<string>)
    ensures forall p :: p in SortStrings(s) <==> p in s
    ensures s != [] ==> SortStrings(s) != []
  {
    if s != [] {
      SortMembers(s[1..]);
      InsertMembers(s[0], SortStrings(s[1..]));
    }
  }

  lemma {:induction false} InsertTwice(x: string, y: string, s: seq<string>)
    ensures InsertString(x, InsertString(y, s)) == InsertString(y, InsertString(x, s))
  {
    LexTotal(x, y);
    OrderFacts(x, y);
    if s != [] {
      OrderFacts(x, s[0]);
      OrderFacts(y, s[0]);
      LexTotal(x, s[0]);
      LexTotal(y, s[0]);
      Between(x, s[0], y);
      Between(y, s[0], x);
      InsertTwice(x, y, s[1..]);
    }
    hide LexLess;
  }

  lemma {:induction false} OrderFacts(x: string, y: string)
    ensures !(LexLess(x, y) && LexLess(y, x)) && !LexLess(x, x)
  {
    LexIrreflexive(x);
    if LexLess(x, y) && LexLess(y, x) {
      LexTransitive(x, y, x);
    }
  }

  lemma {:induction false} Between(x: string, y: string, z: string)
    ensures LexLess(x, y) && LexLess(y, z) ==> LexLess(x, z)
  {
    if LexLess(x, y) && LexLess(y, z) {
      LexTransitive(x, y, z);
    }
  }

  lemma {:induction false} SortMoves(a: seq<string>, x: string, b: seq<string>)
    ensures SortStrings(a + ([x] + b)) == InsertString(x, SortStrings(a + b))
  {
    if a == [] {
      assert a + ([x] + b) == [x] + b && a + b == b;
    } else {
      assert (a + ([x] + b))[1..] == a[1..] + ([x] + b) && (a + b)[1..] == a[1..] + b;
      SortMoves(a[1..], x, b);
      InsertTwice(a[0], x, SortStrings(a[1..] + b));
    }
    hide LexLess, InsertString;
  }

  lemma {:induction false} InsertBag(x: string, s: seq<string>)
    ensures multiset(InsertString(x, s)) == multiset(s) + multiset{x}
  {
    if s != [] && LexLess(s[0], x) {
      InsertBag(x, s[1..]);
      assert s == [s[0]] + s[1..];
    }
  }

  lemma {:induction false} SortBag(s: seq<string>)
    ensures multiset(SortStrings(s)) == multiset(s)
  {
    if s != [] {
      SortBag(s[1..]);
      InsertBag(s[0], SortStrings(s[1..]));
      assert s == [s[0]] + s[1..];
    }
  }

  lemma {:induction false} BagOf(a: seq<string>, x: string, b: seq<string>)
    ensures multiset(a + ([x] + b)) == multiset(a + b) + multiset{x}
  {
    assert multiset([x] + b) == multiset{x} + multiset(b);
    assert multiset(a + ([x] + b)) == multiset(a) + multiset([x] + b);
    assert multiset(a + b) == multiset(a) + multiset(b);
  }

  lemma {:induction false} SameRest(a: multiset<string>, b: multiset<string>, x: string)
    requires a + multiset{x} == b + multiset{x}
    ensures a == b
  {
    assert a == (a + multiset{x}) - multiset{x};
    assert b == (b + multiset{x}) - multiset{x};
  }

  lemma {:induction false} IndexIn(b: seq<string>, x: string) returns (k: nat)
    requires x in multiset(b)
    ensures k < |b| && b == b[..k] + ([x] + b[k + 1..])
  {
    k :| 0 <= k < |b| && b[k] == x;
  }

  /** The first of a list is somewhere in any list with the same members. */
  lemma {:induction false} TakeOut(a: seq<string>, b: seq<string>) returns (k: nat)
    requires a != [] && multiset(a) == multiset(b)
    ensures k < |b| && b == b[..k] + ([a[0]] + b[k + 1..])
    ensures multiset(a[1..]) == multiset(b[..k] + b[k + 1..])
  {
    assert a[0] in multiset(a);
    k := IndexIn(b, a[0]);
    assert a == [] + ([a[0]] + a[1..]) && [] + a[1..] == a[1..];
    BagOf([], a[0], a[1..]);
    BagOf(b[..k], a[0], b[k + 1..]);
    hide *;
    SameRest(multiset(a[1..]), multiset(b[..k] + b[k + 1..]), a[0]);
  }

  lemma {:induction false} SameBagSorts(a: seq<string>, b: seq<string>)
    requires multiset(a) == multiset(b)
    ensures SortStrings(a) == SortStrings(b)
    decreases |a|
  {
    if a == [] {
      assert |multiset(b)| == 0;
    } else {
      var k := TakeOut(a, b);
      SameBagSorts(a[1..], b[..k] + b[k + 1..]);
      SortMoves(b[..k], a[0], b[k + 1..]);
      hide InsertString;
    }
  }

  /** The sorted paths say which paths are listed, and how often, and nothing of their order. */
  lemma {:induction false} SortIff(a: seq<string>, b: seq<string>)
    ensures SortStrings(a) == SortStrings(b) <==> multiset(a) == multiset(b)
  {
    SortBag(a);
    SortBag(b);
    hide SortStrings;
    if multiset(a) == multiset(b) {
      SameBagSorts(a, b);
    }
  }

  /** They stand in lexicographic order. */
  lemma {:induction false} SortedInOrder(s: seq<string>)
    ensures forall i, j :: 0 <= i < j < |SortStrings(s)| ==> !LexLess(SortStrings(s)[j], SortStrings(s)[i])
  {
    if s != [] {
      SortedInOrder(s[1..]);
      InsertInOrder(s[0], SortStrings(s[1..]));
    }
  }

  lemma {:induction false} InsertInOrder(x: string, s: seq<string>)
    requires forall i, j :: 0 <= i < j < |s| ==> !LexLess(s[j], s[i])
    ensures forall i, j :: 0 <= i < j < |InsertString(x, s)| ==> !LexLess(InsertString(x, s)[j], InsertString(x, s)[i])
  {
    hide LexLess;
    if s == [] || !LexLess(s[0], x) {
      forall j | 0 <= j < |s| ensures !LexLess(s[j], x) {
        Between(s[j], x, s[0]);
        LexTotal(s[0], x);
        OrderFacts(s[j], s[0]);
      }
    } else {
      InsertInOrder(x, s[1..]);
      OrderFacts(x, s[0]);
      InsertMembers(x, s[1..]);
      forall j | 0 <= j < |InsertString(x, s[1..])| ensures !LexLess(InsertString(x, s[1..])[j], s[0]) {
        var y := InsertString(x, s[1..])[j];
        assert y in InsertString(x, s[1..]);
        if y != x {
          var k :| 0 <= k < |s[1..]| && s[1..][k] == y;
          assert s[k + 1] == y;
        }
      }
    }
  }

  /** The paths of a mask in sorted order; a missing mask has none. */
  function SortedPaths(mask: ViewMask): seq<string> {
    if mask.None? then [] else SortStrings(mask.value)
  }

  /** What is hashed. */
  function Joined(mask: ViewMask): string {
    Join(SortedPaths(mask), "|")
  }

  /** The hash does not collide on what these two masks hash. */
  ghost predicate NoCollision(hash: Hash, m1: ViewMask, m2: ViewMask) {
    SortedPaths(m1) != [] && SortedPaths(m2) != [] && hash(Joined(m1)) == hash(Joined(m2)) ==> Joined(m1) == Joined(m2)
  }

  lemma {:induction false} FingerprintOf(hash: Hash, mask: ViewMask)
    ensures Fingerprint(hash, mask) == if SortedPaths(mask) == [] then "all" else Hex(hash(Joined(mask)))
  {
    if mask.Some? {
      SortMembers(mask.value);
    }
  }

  /** Where the hash does not collide, masks share a fingerprint exactly when neither lists a path, or
      both do and the sorted paths, joined with bars, are one text. */
  lemma {:induction false} FingerprintIff(hash: Hash, m1: ViewMask, m2: ViewMask)
    requires HashFits(hash) && NoCollision(hash, m1, m2)
    ensures Fingerprint(hash, m1) == Fingerprint(hash, m2) <==>
      (SortedPaths(m1) == [] <==> SortedPaths(m2) == []) && Joined(m1) == Joined(m2)
  {
    FingerprintOf(hash, m1);
    FingerprintOf(hash, m2);
    FingerprintLength(hash, m1);
    FingerprintLength(hash, m2);
    hide Fingerprint, SortedPaths;
    if SortedPaths(m1) != [] && SortedPaths(m2) != [] && Fingerprint(hash, m1) == Fingerprint(hash, m2) {
      HexInjective(hash(Joined(m1)), hash(Joined(m2)));
    }
  }

  predicate NoBars(mask: ViewMask) {
    forall p :: p in SortedPaths(mask) ==> '|' !in p
  }

  /** So if no path has a bar in it, exactly when they list the same paths. */
  lemma {:induction false} FingerprintInjective(hash: Hash, m1: ViewMask, m2: ViewMask)
    requires HashFits(hash) && NoCollision(hash, m1, m2) && NoBars(m1) && NoBars(m2)
    ensures Fingerprint(hash, m1) == Fingerprint(hash, m2) <==> SortedPaths(m1) == SortedPaths(m2)
  {
    FingerprintIff(hash, m1, m2);
    hide Fingerprint, HashFits, NoCollision;
    if SortedPaths(m1) != [] && SortedPaths(m2) != [] && Joined(m1) == Joined(m2) {
      JoinInjective(SortedPaths(m1), SortedPaths(m2));
    }
  }

  /** The order in which a mask lists its paths has no influence on its fingerprint, whatever the hash. */
  lemma {:induction false} OrderHasNoInfluence(hash: Hash, a: seq<string>, b: seq<string>)
    requires multiset(a) == multiset(b)
    ensures Fingerprint(hash, Some(a)) == Fingerprint(hash, Some(b))
  {
    SortIff(a, b);
    FingerprintOf(hash, Some(a));
    FingerprintOf(hash, Some(b));
  }

  /** With a bar, whatever the hash, they need not. */
  lemma {:induction false} BarsCollide(hash: Hash)
    ensures SortedPaths(Some(["a|b"])) != SortedPaths(Some(["a", "b"]))
    ensures Fingerprint(hash, Some(["a|b"])) == Fingerprint(hash, Some(["a", "b"]))
  {
    assert ["a", "b"][1..] == ["b"] && ["a|b"][1..] == [];
    assert SortStrings(["b"]) == ["b"] && SortStrings(["a|b"]) == ["a|b"];
    assert LexLess("a", "b") && !LexLess("b", "a");
    assert SortStrings(["a", "b"]) == ["a", "b"];
    assert Join(["a", "b"], "|") == "a" + "|" + Join(["b"], "|") == "a|b" == Join(["a|b"], "|");
  }

  /** The word for "no mask" is never a hash. */
  lemma {:induction false} FingerprintLength(hash: Hash, mask: ViewMask)
    requires HashFits(hash)
    ensures |Fingerprint(hash, mask)| == if SortedPaths(mask) == [] then 3 else 16
  {
    if mask.Some? {
      SortMembers(mask.value);
    }
  }

  // ---------- Patterns ----------

  predicate Special(c: char) {
    c == '\\' || c == '*' || c == '?' || c == '[' || c == ']'
  }

  /** escapeScanPattern. */
  function Escape(s: string): string {
    if s == [] then [] else (if Special(s[0]) then ['\\', s[0]] else [s[0]]) + Escape(s[1..])
  }

  /** Redis MATCH, without character classes: a bracket that is not escaped matches nothing here. */
  predicate Matches(p: string, s: string)
    decreases |p| + |s|
  {
    if p == [] then s == []
    else if p[0] == '*' then Matches(p[1..], s) || (s != [] && Matches(p, s[1..]))
    else if s == [] then false
    else if p[0] == '?' then Matches(p[1..], s[1..])
    else if p[0] == '\\' && |p| > 1 then p[1] == s[0] && Matches(p[2..], s[1..])
    else if p[0] == '[' then false
    else p[0] == s[0] && Matches(p[1..], s[1..])
  }

  function Pattern(prefix: string, id: string): string {
    prefix + ("t:" + ("*" + (":u:" + ("*" + (":m:" + ("*" + (":id:" + Escape(id))))))))
  }

  predicate Literal(s: string) {
    forall i :: 0 <= i < |s| ==> !Special(s[i])
  }

  /** A prefix that, read as a pattern, matches at least itself: a star or question mark does no harm. */
  predicate SafePrefix(s: string) {
    forall i :: 0 <= i < |s| ==> s[i] != '[' && s[i] != '\\'
  }

  lemma {:induction false} LiteralMatch(a: string, p: string, s: string)
    requires Literal(a)
    ensures Matches(a + p, s) <==> a <= s && Matches(p, s[|a|..])
  {
    if a == [] {
      assert a + p == p && s[0..] == s;
    } else {
      assert (a + p)[1..] == a[1..] + p;
      if s != [] && s[0] == a[0] {
        LiteralMatch(a[1..], p, s[1..]);
        assert a <= s <==> a[1..] <= s[1..];
        assert a[1..] <= s[1..] ==> s[1..][|a[1..]|..] == s[|a|..];
      }
    }
  }

  /** Escaping makes any text match exactly itself. */
  lemma {:induction false} EscapeMatchesItself(a: string, s: string)
    ensures Matches(Escape(a), s) <==> s == a
  {
    if a != [] && s != [] {
      var e := Escape(a);
      assert Special(a[0]) ==> e[2..] == Escape(a[1..]) && e[0] == '\\' && e[1] == a[0];
      assert !Special(a[0]) ==> e[1..] == Escape(a[1..]) && e[0] == a[0];
      EscapeMatchesItself(a[1..], s[1..]);
      assert s == [s[0]] + s[1..] && a == [a[0]] + a[1..];
    }
  }

  lemma {:induction false} StarSkips(p: string, a: string, s: string)
    requires Matches(p, s)
    ensures Matches("*" + p, a + s)
  {
    assert ("*" + p)[1..] == p;
    if a == [] {
      assert a + s == s;
    } else {
      assert (a + s)[1..] == a[1..] + s;
      StarSkips(p, a[1..], s);
    }
  }

  /** What a pattern without brackets and backslashes leaves of the text, the rest of the pattern matches. */
  lemma {:induction false} SafeSplits(a: string, p: string, s: string) returns (k: nat)
    requires SafePrefix(a) && Matches(a + p, s)
    ensures k <= |s| && Matches(p, s[k..])
    decreases |a| + |s|
  {
    if a == [] {
      k := 0;
      assert a + p == p && s[0..] == s;
    } else {
      assert (a + p)[1..] == a[1..] + p && (a + p)[0] == a[0];
      if a[0] == '*' && Matches(a[1..] + p, s) {
        k := SafeSplits(a[1..], p, s);
      } else {
        k := SafeSplits(if a[0] == '*' then a else a[1..], p, s[1..]);
        k := k + 1;
        assert s[1..][k - 1..] == s[k..];
      }
    }
  }

  /** Such a pattern matches itself, as a text. */
  lemma {:induction false} SafeThenRest(a: string, p: string, s: string)
    requires SafePrefix(a) && Matches(p, s)
    ensures Matches(a + p, a + s)
  {
    if a == [] {
      assert a + p == p && a + s == s;
    } else {
      assert (a + p)[1..] == a[1..] + p && (a + s)[1..] == a[1..] + s;
      SafeThenRest(a[1..], p, s);
      if a[0] == '*' {
        assert a + p == "*" + (a[1..] + p);
        StarSkips(a[1..] + p, "*", a[1..] + s);
        assert a + s == "*" + (a[1..] + s);
      }
    }
  }

  /** The invalidation pattern of an id matches a cached key of this repository exactly when it is a
      key of that id, whatever the tenant, the user and the mask. */
  lemma {:induction false} PatternIsExact(prefix: string, id: int, tenant: nat, user: nat, fp: string, other: int)
    requires SafePrefix(prefix)
    ensures Matches(Pattern(prefix, IdText(id)), CacheKey(prefix, tenant, user, fp, IdText(other))) <==> id == other
  {
    hide Matches, Pattern, CacheKey, IdText;
    if id == other {
      PatternCoversId(prefix, IdText(id), tenant, user, fp);
    }
    if Matches(Pattern(prefix, IdText(id)), CacheKey(prefix, tenant, user, fp, IdText(other))) {
      PatternEndsInId(prefix, IdText(id), CacheKey(prefix, tenant, user, fp, IdText(other)));
      SameEnd(prefix, tenant, user, fp, id, other);
    }
  }

  /** A backslash in the prefix does harm: the pattern then misses the repository's own keys. */
  lemma {:induction false} BackslashMisses(id: string, tenant: nat, user: nat, fp: string)
    ensures !Matches(Pattern("\\", id), CacheKey("\\", tenant, user, fp, id))
  {
    assert Pattern("\\", id)[1] == 't' && CacheKey("\\", tenant, user, fp, id)[0] == '\\';
  }

  lemma {:induction false} PatternCoversId(prefix: string, id: string, tenant: nat, user: nat, fp: string)
    requires SafePrefix(prefix)
    ensures Matches(Pattern(prefix, id), CacheKey(prefix, tenant, user, fp, id))
  {
    EscapeMatchesItself(id, id);
    hide Matches, Escape, Decimal;
    LiteralThenRest(":id:", Escape(id), id);
    StarSkips(":id:" + Escape(id), fp, ":id:" + id);
    LiteralThenRest(":m:", "*" + (":id:" + Escape(id)), fp + (":id:" + id));
    StarSkips(":m:" + ("*" + (":id:" + Escape(id))), Decimal(user), ":m:" + (fp + (":id:" + id)));
    LiteralThenRest(":u:", "*" + (":m:" + ("*" + (":id:" + Escape(id)))),
                    Decimal(user) + (":m:" + (fp + (":id:" + id))));
    StarSkips(":u:" + ("*" + (":m:" + ("*" + (":id:" + Escape(id))))), Decimal(tenant),
              ":u:" + (Decimal(user) + (":m:" + (fp + (":id:" + id)))));
    LiteralThenRest("t:", "*" + (":u:" + ("*" + (":m:" + ("*" + (":id:" + Escape(id)))))),
                    Decimal(tenant) + (":u:" + (Decimal(user) + (":m:" + (fp + (":id:" + id))))));
    SafeThenRest(prefix, "t:" + ("*" + (":u:" + ("*" + (":m:" + ("*" + (":id:" + Escape(id))))))),
                 After(tenant, user, fp, id));
  }

  lemma {:induction false} LiteralThenRest(a: string, p: string, s: string)
    requires Literal(a) && Matches(p, s)
    ensures Matches(a + p, a + s)
  {
    assert (a + s)[|a|..] == s;
    LiteralMatch(a, p, a + s);
  }

  /** What the pattern matches ends in ":id:" and the id. */
  lemma {:induction false} PatternEndsInId(prefix: string, id: string, key: string)
    requires SafePrefix(prefix) && Matches(Pattern(prefix, id), key)
    ensures |key| >= 4 + |id| && key[|key| - |id| - 4..] == ":id:" + id
  {
    var head := prefix + "t:*:u:*:m:*";
    hide Matches, Escape;
    assert Pattern(prefix, id) == head + (":id:" + Escape(id));
    var k := SafeSplits(head, ":id:" + Escape(id), key);
    LiteralMatch(":id:", Escape(id), key[k..]);
    EscapeMatchesItself(id, key[k..][4..]);
    assert key[k..] == ":id:" + id by {
      assert key[k..] == key[k..][..4] + key[k..][4..];
    }
  }

  /** The last colon of a text divides it. */
  lemma {:induction false} LastField(x: string, a: string, y: string, b: string)
    requires NoColon(a) && NoColon(b)
    ensures x + (":" + a) == y + (":" + b) ==> a == b && x == y
  {
    var key, other := x + (":" + a), y + (":" + b);
    assert key[|x|] == ':' && other[|y|] == ':';
    assert forall i :: |x| < i < |key| ==> key[i] == a[i - |x| - 1] != ':';
    assert forall i :: |y| < i < |other| ==> other[i] == b[i - |y| - 1] != ':';
    assert key[..|x|] == x && key[|x| + 1..] == a && other[..|y|] == y && other[|y| + 1..] == b;
  }

  lemma {:induction false} TailSplits(key: string, a: string)
    requires |key| >= 4 + |a|
    ensures key[|key| - |a| - 4..] == ":id:" + a ==> key == key[..|key| - |a| - 4] + ":id" + (":" + a)
  {
    assert ":id" + (":" + a) == ":id:" + a;
    assert key == key[..|key| - |a| - 4] + key[|key| - |a| - 4..];
  }

  lemma {:induction false} SameEnd(prefix: string, tenant: nat, user: nat, fp: string, id: int, other: int)
    requires var key := CacheKey(prefix, tenant, user, fp, IdText(other));
      |key| >= 4 + |IdText(id)| && key[|key| - |IdText(id)| - 4..] == ":id:" + IdText(id)
    ensures id == other
  {
    var key := CacheKey(prefix, tenant, user, fp, IdText(other));
    var a, b := IdText(id), IdText(other);
    NumbersHaveNoColon(0, id);
    NumbersHaveNoColon(0, other);
    var head := prefix + ("t:" + (Decimal(tenant) + (":u:" + (Decimal(user) + (":m:" + (fp + ":id"))))));
    hide Decimal, IdText;
    assert key == head + (":" + b);
    TailSplits(key, a);
    LastField(key[..|key| - |a| - 4] + ":id", a, head, b);
    SameIdText(id, other);
  }

  lemma {:induction false} SameIdText(id: int, other: int)
    requires IdText(id) == IdText(other)
    ensures id == other
  {
    IdSign(id);
    IdSign(other);
    if id < 0 {
      assert Decimal(-id) == IdText(id)[1..] && Decimal(-other) == IdText(other)[1..];
      DecimalInjective(-id, -other);
    } else {
      DecimalInjective(id, other);
    }
  }

  lemma {:induction false} IdSign(id: int)
    ensures IdText(id) != [] && (IdText(id)[0] == '-' <==> id < 0)
  {
    assert id >= 0 ==> IsDigit(IdText(id)[0]);
  }

  /** Keys of cached lists end in a hash: they are not matched, */
  lemma {:induction false} PatternSkipsHashes(prefix: string, id: int, sum: seq<Byte>)
    requires SafePrefix(prefix)
    ensures !Matches(Pattern(prefix, IdText(id)), prefix + ("list:" + Hex(sum)))
  {
    var key, a, b := prefix + ("list:" + Hex(sum)), IdText(id), Hex(sum);
    HexHasNoColon(sum);
    NumbersHaveNoColon(0, id);
    hide Matches, IdText, Hex;
    if Matches(Pattern(prefix, a), key) {
      PatternEndsInId(prefix, a, key);
      ListKeyEnds(prefix, a, b);
    }
  }

  lemma {:induction false} ListKeyEnds(prefix: string, a: string, b: string)
    requires NoColon(a) && NoColon(b)
    ensures var key := prefix + ("list:" + b); |key| >= 4 + |a| ==> key[|key| - |a| - 4..] != ":id:" + a
  {
    var key := prefix + ("list:" + b);
    if |key| >= 4 + |a| {
      var x, y := key[..|key| - |a| - 4] + ":id", prefix + "list";
      assert x[|x| - 1] == 'd' && y[|y| - 1] == 't';
      assert key == y + (":" + b);
      TailSplits(key, a);
      LastField(x, a, y, b);
    }
  }

  /** nor is anything else behind "list:", after a prefix without pattern characters. */
  lemma {:induction false} PatternSkipsLists(prefix: string, id: string, rest: string)
    requires Literal(prefix)
    ensures !Matches(Pattern(prefix, id), prefix + ("list:" + rest))
  {
    var p := "t:" + ("*" + (":u:" + ("*" + (":m:" + ("*" + (":id:" + Escape(id)))))));
    var key := prefix + ("list:" + rest);
    LiteralMatch(prefix, p, key);
    assert key[|prefix|..] == "list:" + rest;
    LiteralMatch("t:", p[2..], "list:" + rest);
    assert p == "t:" + p[2..];
    assert ("list:" + rest)[0] == 'l';
  }
}
