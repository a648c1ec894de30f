/** Which routes share a normal form, and so what the resolver finds for them and which routes are
    exempt: pkg/permcode/permcode.go. */
module RouteForms {
  import opened Basics
  import opened Permcode

  // ---------- Path templates ----------

  /** Literal pieces with parameters between them, the names in braces. */
  function Spell(ls: seq<string>, ns: seq<string>): string
    requires |ls| == |ns| + 1
  {
    if ns == [] then ls[0] else ls[0] + ("{" + (ns[0] + ("}" + Spell(ls[1..], ns[1..]))))
  }

  predicate AllBraceFree(ls: seq<string>) {
    forall i :: 0 <= i < |ls| ==> BraceFree(ls[i])
  }

  /** Braces that are opened are closed, and depth more are. */
  predicate Balanced(s: string, depth: nat) {
    if s == [] then depth == 0
    else if s[0] == '{' then Balanced(s[1..], depth + 1)
    else if s[0] == '}' then depth > 0 && Balanced(s[1..], depth - 1)
    else Balanced(s[1..], depth)
  }

  predicate AllBalanced(ns: seq<string>) {
    forall i :: 0 <= i < |ns| ==> Balanced(ns[i], 0)
  }

  /** Whatever stands in balanced braces within braces is dropped. */
  lemma {:induction false} BalancedSkipped(name: string, depth: nat, rest: string, open: nat)
    requires Balanced(name, depth) && open > 0
    ensures NormalizedFrom(name + rest, open + depth) == NormalizedFrom(rest, open)
  {
    if name == [] {
      assert name + rest == rest;
    } else {
      assert (name + rest)[1..] == name[1..] + rest;
      var next := if name[0] == '{' then depth + 1 else if name[0] == '}' then depth - 1 else depth;
      BalancedSkipped(name[1..], next, rest, open);
    }
  }

  lemma {:induction false} BraceFreeBalanced(name: string)
    requires BraceFree(name)
    ensures Balanced(name, 0)
  {
    if name != [] {
      assert name[0] in name;
      BraceFreeBalanced(name[1..]);
    }
  }

  lemma {:induction false} OneGroup(name: string, rest: string)
    requires Balanced(name, 0)
    ensures NormalizedFrom("{" + (name + ("}" + rest)), 0) == "{}" + NormalizedFrom(rest, 0)
  {
    var s := "{" + (name + ("}" + rest));
    assert s[1..] == name + ("}" + rest);
    BalancedSkipped(name, 0, "}" + rest, 1);
    assert ("}" + rest)[1..] == rest;
  }

  lemma {:induction false} SpellNormalFrom(ls: seq<string>, ns: seq<string>, tail: string)
    requires |ls| == |ns| + 1 && AllBraceFree(ls) && AllBalanced(ns)
    ensures NormalizedFrom(Spell(ls, ns) + tail, 0) == Join(ls, "{}") + NormalizedFrom(tail, 0)
  {
    hide NormalizedFrom, Balanced, BraceFree;
    if ns == [] {
      PlainPrefix(ls[0], tail);
      assert ls == [ls[0]];
    } else {
      var rest, more := Spell(ls[1..], ns[1..]), NormalizedFrom(tail, 0);
      SpellNormalFrom(ls[1..], ns[1..], tail);
      OneGroup(ns[0], rest + tail);
      PlainPrefix(ls[0], "{" + (ns[0] + ("}" + (rest + tail))));
      assert Spell(ls, ns) + tail == ls[0] + ("{" + (ns[0] + ("}" + (rest + tail))));
      assert ls[0] + ("{}" + (Join(ls[1..], "{}") + more)) == (ls[0] + ("{}" + Join(ls[1..], "{}"))) + more;
    }
  }

  lemma {:induction false} PlainAlone(s: string)
    requires BraceFree(s)
    ensures NormalizedFrom(s, 0) == s
  {
    PlainPrefix(s, "");
    assert s + "" == s && NormalizedFrom("", 0) == "" && s + NormalizedFrom("", 0) == s;
  }

  lemma {:induction false} NoBraceNormal(s: string)
    requires '{' !in s && BraceFree(s)
    ensures NormalizedFrom(s, 0) == Normalized(s)
  {
    PlainAlone(s);
  }

  /** A template normalises to its literal pieces, joined by empty braces. */
  lemma {:induction false} SpellNormal(ls: seq<string>, ns: seq<string>)
    requires |ls| == |ns| + 1 && AllBraceFree(ls) && AllBalanced(ns)
    ensures Normalized(Spell(ls, ns)) == Join(ls, "{}")
  {
    SpellNormalFrom(ls, ns, "");
    assert Spell(ls, ns) + "" == Spell(ls, ns) && NormalizedFrom("", 0) == "" && Join(ls, "{}") + "" == Join(ls, "{}");
    if ns == [] {
      NoBraceNormal(ls[0]);
    } else {
      assert Spell(ls, ns)[|ls[0]|] == '{';
    }
    hide NormalizedFrom, Balanced;
  }

  lemma {:induction false} JoinedFormsDiffer(ls: seq<string>, ms: seq<string>)
    requires ls != [] && ms != [] && AllBraceFree(ls) && AllBraceFree(ms) && Join(ls, "{}") == Join(ms, "{}")
    ensures ls == ms
  {
    var a, b := Join(ls, "{}"), Join(ms, "{}");
    FirstBrace(ls);
    FirstBrace(ms);
    assert |ls[0]| == |ms[0]|;
    assert ls[0] == a[..|ls[0]|] && ms[0] == b[..|ms[0]|];
    if |ls| > 1 {
      assert a[|ls[0]| + 2..] == Join(ls[1..], "{}") && b[|ms[0]| + 2..] == Join(ms[1..], "{}");
      JoinedFormsDiffer(ls[1..], ms[1..]);
      assert ls == [ls[0]] + ls[1..] && ms == [ms[0]] + ms[1..];
    }
  }

  /** The first piece of a form ends at its first brace. */
  lemma {:induction false} FirstBrace(ls: seq<string>)
    requires ls != [] && AllBraceFree(ls)
    ensures var s := Join(ls, "{}");
      && ls[0] <= s && (forall i :: 0 <= i < |ls[0]| ==> s[i] != '{')
      && (if |ls| == 1 then s == ls[0] else |s| >= |ls[0]| + 2 && s[|ls[0]|] == '{')
  {
    assert forall i :: 0 <= i < |ls[0]| ==> ls[0][i] in ls[0];
  }

  /** Two templates have one normal form exactly when their literal pieces agree. */
  lemma {:induction false} SameFormIff(ls: seq<string>, ns: seq<string>, ms: seq<string>, os: seq<string>)
    requires |ls| == |ns| + 1 && AllBraceFree(ls) && AllBalanced(ns)
    requires |ms| == |os| + 1 && AllBraceFree(ms) && AllBalanced(os)
    ensures Normalized(Spell(ls, ns)) == Normalized(Spell(ms, os)) <==> ls == ms
  {
    SpellNormal(ls, ns);
    SpellNormal(ms, os);
    hide Normalized, Join, Balanced;
    if Join(ls, "{}") == Join(ms, "{}") {
      JoinedFormsDiffer(ls, ms);
    }
  }

  /** A brace that is never closed takes the rest of the path with it. */
  predicate Unclosed(s: string, depth: nat) {
    depth > 0 &&
    if s == [] then true
    else if s[0] == '{' then Unclosed(s[1..], depth + 1)
    else if s[0] == '}' then Unclosed(s[1..], depth - 1)
    else Unclosed(s[1..], depth)
  }

  lemma {:induction false} UnclosedNormal(ls: seq<string>, ns: seq<string>, rest: string)
    requires |ls| == |ns| + 1 && AllBraceFree(ls) && AllBalanced(ns) && Unclosed(rest, 1)
    ensures Normalized(Spell(ls, ns) + ("{" + rest)) == Join(ls, "{}") + "{}"
  {
    SpellNormalFrom(ls, ns, "{" + rest);
    UnclosedDropped(rest, 1);
    assert ("{" + rest)[1..] == rest && (Spell(ls, ns) + ("{" + rest))[|Spell(ls, ns)|] == '{';
    hide Spell, Balanced, Unclosed;
    assert NormalizedFrom("{" + rest, 0) == "{}";
  }

  lemma {:induction false} UnclosedDropped(s: string, depth: nat)
    requires Unclosed(s, depth)
    ensures NormalizedFrom(s, depth) == ""
  {
    if s != [] {
      UnclosedDropped(s[1..], if s[0] == '{' then depth + 1 else if s[0] == '}' then depth - 1 else depth);
    }
  }

  /** A closing brace outside of all braces is dropped, when the path has an opening one at all. */
  lemma {:induction false} StrayDropped(s: string, rest: string)
    requires BraceFree(s)
    ensures NormalizedFrom(s + ("}" + rest), 0) == s + NormalizedFrom(rest, 0)
  {
    PlainPrefix(s, "}" + rest);
    assert ("}" + rest)[1..] == rest;
  }

  // ---------- What the resolver finds ----------

  /** A route is missing exactly when no key of the tables has its normal form. */
  lemma {:induction false} MissingIff(r: Resolver, verb: string, path: string)
    requires r.Valid() && BraceFree(Method(verb))
    ensures Resolve(r, verb, path) == Err(MissingError(Key(verb, path))) <==>
      forall k :: Listed(r.tables, k) ==> Normalized(k) != NormalKey(verb, path)
  {
    NormalKeyIsNormalized(verb, path);
    hide Key, NormalKey, Normalized;
    var n := NormalKey(verb, path);
    assert n in r.management <==> exists k :: k in r.tables.management && Normalized(k) == n;
    assert n in r.capability <==> exists k :: k in r.tables.capability && Normalized(k) == n;
  }

  lemma {:induction false} MissingKey(r: Resolver, verb: string, path: string)
    ensures Resolve(r, verb, path).Err? && Resolve(r, verb, path).error.MissingError? <==>
      Resolve(r, verb, path) == Err(MissingError(Key(verb, path)))
  {
    hide Key, NormalKey;
  }

  /** The key is a template with these literal pieces. */
  ghost predicate HasPieces(k: string, ls: seq<string>) {
    AllBraceFree(ls) && exists ns :: |ls| == |ns| + 1 && AllBalanced(ns) && k == Spell(ls, ns)
  }

  lemma {:induction false} PiecesDecide(k: string, ls: seq<string>, j: string, ms: seq<string>)
    requires HasPieces(k, ls) && HasPieces(j, ms)
    ensures Normalized(k) == Normalized(j) <==> ls == ms
  {
    var ns :| |ls| == |ns| + 1 && AllBalanced(ns) && k == Spell(ls, ns);
    var os :| |ms| == |os| + 1 && AllBalanced(os) && j == Spell(ms, os);
    SameFormIff(ls, ns, ms, os);
  }

  /** The keys of the tables are templates. */
  ghost predicate KeysAreTemplates(t: Tables) {
    forall k :: Listed(t, k) ==> exists ms :: HasPieces(k, ms)
  }

  /** So it is missing exactly when no key of the tables has its literal pieces. */
  lemma {:induction false} MissingByPieces(r: Resolver, verb: string, path: string, ls: seq<string>)
    requires r.Valid() && BraceFree(Method(verb)) && KeysAreTemplates(r.tables) && HasPieces(Key(verb, path), ls)
    ensures Resolve(r, verb, path) == Err(MissingError(Key(verb, path))) <==>
      forall k :: Listed(r.tables, k) ==> !HasPieces(k, ls)
  {
    MissingIff(r, verb, path);
    NormalKeyIsNormalized(verb, path);
    hide Resolve, Key, NormalKey, Normalized, HasPieces, Resolver.Valid, Listed;
    forall k | Listed(r.tables, k) ensures Normalized(k) == NormalKey(verb, path) <==> HasPieces(k, ls) {
      var ms :| HasPieces(k, ms);
      PiecesDecide(k, ms, Key(verb, path), ls);
      if HasPieces(k, ls) {
        PiecesDecide(k, ls, Key(verb, path), ls);
      }
    }
  }

  /** And without conflicts it has a code exactly when some key with its literal pieces has it. */
  lemma {:induction false} CodeByPieces(r: Resolver, verb: string, path: string, ls: seq<string>, code: string)
    requires r.Valid() && NoConflicts(r.tables) && BraceFree(Method(verb))
    requires KeysAreTemplates(r.tables) && HasPieces(Key(verb, path), ls)
    ensures (Resolve(r, verb, path).Ok? && Resolve(r, verb, path).value.entry.code == code) <==>
      || (exists k :: k in r.tables.management && HasPieces(k, ls) && r.tables.management[k].code == code)
      || (exists k :: k in r.tables.capability && HasPieces(k, ls) && r.tables.capability[k].code == code)
  {
    ResolveIsAssigned(r, verb, path, code);
    NormalKeyIsNormalized(verb, path);
    hide Resolve, Key, NormalKey, Normalized, HasPieces, Resolver.Valid, NoConflicts;
    forall k | Listed(r.tables, k) ensures Normalized(k) == NormalKey(verb, path) <==> HasPieces(k, ls) {
      var ms :| HasPieces(k, ms);
      PiecesDecide(k, ms, Key(verb, path), ls);
      if HasPieces(k, ls) {
        PiecesDecide(k, ls, Key(verb, path), ls);
      }
    }
  }

  // ---------- The exempt list ----------

  /** SplitKey: what stands before and after the first space. */
  function SplitKey(k: string): (string, string) {
    if ' ' !in k then (k, "") else SplitAtSpace(k)
  }

  function SplitAtSpace(k: string): (r: (string, string))
    requires ' ' in k
    ensures ' ' !in r.0 && k == r.0 + " " + r.1
  {
    if k[0] == ' ' then ("", k[1..])
    else
      var r := SplitAtSpace(k[1..]);
      ([k[0]] + r.0, r.1)
  }

  function FormOfKey(k: string): string {
    NormalKey(SplitKey(k).0, SplitKey(k).1)
  }

  /** The loop of init over the exempt list, in any order. */
  method IndexExempt(exempt: map<string, string>) returns (index: set<string>)
    ensures index == set k | k in exempt :: FormOfKey(k)
  {
    hide FormOfKey;
    index := {};
    var todo := exempt.Keys;
    while todo != {}
      invariant todo <= exempt.Keys
      invariant index == set k | k in exempt && k !in todo :: FormOfKey(k)
      decreases todo
    {
      var k :| k in todo;
      var (method_, path) := SplitKey(k);
      index := index + {NormalKey(method_, path)};
      assert NormalKey(method_, path) == FormOfKey(k) by { FormIs(k); }
      todo := todo - {k};
    }
  }

  lemma {:induction false} FormIs(k: string)
    ensures FormOfKey(k) == NormalKey(SplitKey(k).0, SplitKey(k).1)
  {
  }

  lemma {:induction false} SplitUnique(a: string, b: string)
    requires ' ' !in a
    ensures SplitKey(a + " " + b) == (a, b)
  {
    var k := a + " " + b;
    assert k[|a|] == ' ';
    var r := SplitKey(k);
    assert forall i :: 0 <= i < |a| ==> k[i] == a[i];
    assert k[|r.0|] == ' ' && forall i :: 0 <= i < |r.0| ==> k[i] == r.0[i];
    assert |r.0| == |a|;
    assert r.0 == k[..|a|] == a && r.1 == k[|a| + 1..] == b;
  }

  lemma {:induction false} TrimEnds(s: string)
    ensures Trim(s) == "" || (Trim(s)[0] !in SPACES && Trim(s)[|Trim(s)| - 1] !in SPACES)
  {
    var _, _ := TrimCharsIs(s, SPACES);
  }

  lemma {:induction false} TrimDone(s: string)
    requires s == "" || (s[0] !in SPACES && s[|s| - 1] !in SPACES)
    ensures Trim(s) == s
  {
  }

  /** A key split and put together again is the key. */
  lemma {:induction false} KeyAgain(verb: string, path: string)
    requires ' ' !in Method(verb)
    ensures FormOfKey(Key(verb, path)) == NormalKey(verb, path)
  {
    var m, p := Method(verb), Trim(path);
    SplitUnique(m, p);
    TrimEnds(verb);
    TrimEnds(path);
    UpperKeepsEnds(Trim(verb));
    TrimDone(m);
    TrimDone(p);
    UpperTwice(Trim(verb));
    hide Normalized, Trim, Upper, SplitKey;
  }

  lemma {:induction false} UpperKeepsEnds(s: string)
    ensures |Upper(s)| == |s| && forall i :: 0 <= i < |s| ==> (Upper(s)[i] in SPACES <==> s[i] in SPACES)
  {
  }

  lemma {:induction false} UpperTwice(s: string)
    ensures Upper(Upper(s)) == Upper(s)
  {
  }

  /** A route is exempt exactly when a key of the exempt list has its normal form. */
  lemma {:induction false} ExemptIff(t: Tables, index: set<string>, verb: string, path: string)
    requires index == (set k | k in t.exempt :: FormOfKey(k)) && ' ' !in Method(verb)
    ensures IsExempt(t, index, verb, path) <==> exists k :: k in t.exempt && FormOfKey(k) == NormalKey(verb, path)
  {
    KeyAgain(verb, path);
    hide Key, NormalKey, FormOfKey;
  }

  // ---------- The spelling of methods ----------

  predicate SameLetter(a: char, b: char) {
    a == b || ('a' <= a <= 'z' && b as int == a as int - 32) || ('a' <= b <= 'z' && a as int == b as int - 32)
  }

  /** Equal but for the case of ASCII letters. */
  predicate SameLetters(v: string, w: string) {
    |v| == |w| && forall i :: 0 <= i < |v| ==> SameLetter(v[i], w[i])
  }

  predicate AllSpaces(s: string) {
    forall i :: 0 <= i < |s| ==> s[i] in SPACES
  }

  lemma {:induction false} SameUpper(v: string, w: string)
    ensures Upper(v) == Upper(w) <==> SameLetters(v, w)
    ensures forall i :: 0 <= i < |Upper(v)| ==> !('a' <= Upper(v)[i] <= 'z')
  {
    if |v| == |w| {
      forall i | 0 <= i < |v| ensures Upper(v)[i] == Upper(w)[i] <==> SameLetter(v[i], w[i]) {
      }
    }
  }

  lemma {:induction false} TrimPadded(a: string, s: string, b: string)
    requires AllSpaces(a) && AllSpaces(b)
    ensures Trim(a + (s + b)) == Trim(s)
  {
    if a != [] {
      assert (a + (s + b))[1..] == a[1..] + (s + b);
      TrimPadded(a[1..], s, b);
    } else {
      assert a + (s + b) == s + b;
      TrimPaddedRight(s, b);
    }
  }

  lemma {:induction false} TrimPaddedRight(s: string, b: string)
    requires AllSpaces(b)
    ensures Trim(s + b) == Trim(s)
    decreases |s| + |b|
  {
    if b == [] {
      assert s + b == s;
    } else if s != [] && s[0] in SPACES {
      assert (s + b)[1..] == s[1..] + b;
      TrimPaddedRight(s[1..], b);
    } else if s == [] {
      assert s + b == b && b[1..] == [] + b[1..];
      TrimPaddedRight([], b[1..]);
    } else {
      var t := s + b;
      assert TrimLeft(t, SPACES) == t && TrimLeft(s, SPACES) == s;
      assert t[..|t| - 1] == s + b[..|b| - 1];
      TrimPaddedRight(s, b[..|b| - 1]);
    }
  }

  /** The case of a method, and spaces around method or path, make no difference to what is found. */
  lemma {:induction false} SpellingIsFree(r: Resolver, verb: string, path: string, other: string, a: string, b: string,
                                          c: string, d: string)
    requires SameLetters(verb, other) && AllSpaces(a) && AllSpaces(b) && AllSpaces(c) && AllSpaces(d)
    ensures Method(verb) == Method(a + (other + b))
    ensures Key(verb, path) == Key(a + (other + b), c + (path + d))
    ensures Hits(r, verb, path) == Hits(r, a + (other + b), c + (path + d))
  {
    TrimPadded(a, other, b);
    TrimPadded(c, path, d);
    TrimSameLetters(verb, other);
    SameUpper(Trim(verb), Trim(other));
    hide Trim, Upper, Normalized;
  }

  lemma {:induction false} TrimSameLetters(v: string, w: string)
    requires SameLetters(v, w)
    ensures SameLetters(Trim(v), Trim(w))
  {
    LeftSameLetters(v, w);
    RightSameLetters(TrimLeft(v, SPACES), TrimLeft(w, SPACES));
    hide TrimLeft, TrimRight, SameLetters;
  }

  lemma {:induction false} LeftSameLetters(v: string, w: string)
    requires SameLetters(v, w)
    ensures SameLetters(TrimLeft(v, SPACES), TrimLeft(w, SPACES))
  {
    if v != [] && v[0] in SPACES {
      assert SameLetter(v[0], w[0]);
      LeftSameLetters(v[1..], w[1..]);
    } else if v != [] {
      assert SameLetter(v[0], w[0]);
    }
  }

  lemma {:induction false} RightSameLetters(v: string, w: string)
    requires SameLetters(v, w)
    ensures SameLetters(TrimRight(v, SPACES), TrimRight(w, SPACES))
  {
    if v != [] {
      assert SameLetter(v[|v| - 1], w[|w| - 1]);
      if v[|v| - 1] in SPACES {
        RightSameLetters(v[..|v| - 1], w[..|w| - 1]);
      }
    }
  }
}
