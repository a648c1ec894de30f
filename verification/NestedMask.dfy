/** Field masks over protobuf messages: pkg/localdeps/go-utils/fieldmaskutil/nested_mask.go, on
    message values. MessageTree.dfy has the operations that change messages in place. */
module NestedMask {
  import opened Basics

  /** A mask as a recursive map; a nil mask and an empty one behave alike, and mean "all of it". */
  datatype Mask = Mask(m: map<string, Mask>)

  const ALL := Mask(map[])

  /** Where a value sits in its field: alone, at an index of a list, or under a key of a map. */
  datatype Slot = Single | At(index: nat) | Key(key: string)

  /** A message: its populated fields, each with its values by slot; a value is a scalar or a message. */
  datatype Msg = Msg(fields: map<string, map<Slot, Item>>)

  datatype Item = Leaf(value: int) | Child(msg: Msg)

  // ---------- Masks from paths ----------

  type Path = seq<string>

  function IndexOfDot(s: string): (r: Option<nat>)
    ensures r.Some? ==> r.value < |s| && s[r.value] == '.' && '.' !in s[..r.value]
    ensures r.None? ==> '.' !in s
  {
    if s == [] then None
    else if s[0] == '.' then Some(0)
    else
      var r := IndexOfDot(s[1..]);
      if r.None? then None
      else
        assert s[..r.value + 1] == [s[0]] + s[1..][..r.value];
        Some(r.value + 1)
  }

  function Sub(m: Mask, field: string): Mask {
    if field in m.m then m.m[field] else ALL
  }

  /** The closure add of NestedMaskFromPaths. */
  function Add(path: string, mask: Mask): Mask
    decreases |path|
  {
    if path == [] then mask
    else match IndexOfDot(path)
      case None => Mask(mask.m[path := ALL])
      case Some(dot) =>
        if dot == 0 then mask
        else Mask(mask.m[path[..dot] := Add(path[dot + 1..], Sub(mask, path[..dot]))])
  }

  method NestedMaskFromPaths(paths: seq<string>) returns (mask: Mask)
    ensures mask == FromPaths(paths)
  {
    mask := ALL;
    for i := 0 to |paths|
      invariant mask == FromPaths(paths[..i])
    {
      assert paths[..i + 1][..i] == paths[..i];
      mask := Add(paths[i], mask);
    }
    assert paths[..|paths|] == paths;
  }

  function FromPaths(paths: seq<string>): Mask {
    if paths == [] then ALL else Add(paths[|paths| - 1], FromPaths(paths[..|paths| - 1]))
  }

  /** A path whose segments are not empty, written with dots. */
  predicate ProperPath(p: Path) {
    p != [] && forall i :: 0 <= i < |p| ==> p[i] != [] && '.' !in p[i]
  }

  function Dotted(p: Path): string
    requires p != []
  {
    if |p| == 1 then p[0] else p[0] + ("." + Dotted(p[1..]))
  }

  /** Add on segments. */
  function AddPath(p: Path, mask: Mask): Mask
    requires p != []
  {
    if |p| == 1 then Mask(mask.m[p[0] := ALL])
    else Mask(mask.m[p[0] := AddPath(p[1..], Sub(mask, p[0]))])
  }

  lemma {:induction false} FirstDot(a: string, s: string)
    requires '.' !in a
    ensures IndexOfDot(a + ("." + s)) == Some(|a|)
  {
    if a != [] {
      assert (a + ("." + s))[1..] == a[1..] + ("." + s);
      FirstDot(a[1..], s);
    }
  }

  lemma {:induction false} AddIsAddPath(p: Path, mask: Mask)
    requires ProperPath(p)
    ensures Add(Dotted(p), mask) == AddPath(p, mask)
  {
    if |p| > 1 {
      FirstDot(p[0], Dotted(p[1..]));
      var s := Dotted(p);
      assert s[..|p[0]|] == p[0] && s[|p[0]| + 1..] == Dotted(p[1..]);
      AddIsAddPath(p[1..], Sub(mask, p[0]));
    }
  }

  /** p is one of the paths the mask stands for: it ends where the mask does. */
  predicate HasPath(mask: Mask, p: Path) {
    p != [] && p[0] in mask.m &&
    if |p| == 1 then mask.m[p[0]] == ALL else HasPath(mask.m[p[0]], p[1..])
  }

  /** Two paths neither of which begins with the other. */
  predicate Incomparable(p: Path, q: Path) {
    !(p <= q) && !(q <= p)
  }

  /** Adding a path replaces the paths it extends and the paths that extend it, and no others. */
  lemma {:induction false} AddReplacesComparable(p: Path, mask: Mask, q: Path)
    requires p != []
    ensures HasPath(AddPath(p, mask), q) <==> q == p || (HasPath(mask, q) && Incomparable(p, q))
  {
    var added := AddPath(p, mask);
    if q != [] {
      if q[0] == p[0] {
        if |p| == 1 {
          assert p <= q;
          assert |q| == 1 ==> q == p;
        } else if |q| == 1 {
          assert q <= p;
          assert AddPath(p[1..], Sub(mask, p[0])).m != map[] by {
            assert p[1] in AddPath(p[1..], Sub(mask, p[0])).m;
          }
        } else {
          AddReplacesComparable(p[1..], Sub(mask, p[0]), q[1..]);
          assert p <= q <==> p[1..] <= q[1..];
          assert q <= p <==> q[1..] <= p[1..];
          assert p == q <==> p[1..] == q[1..] by {
            assert p == [p[0]] + p[1..] && q == [q[0]] + q[1..];
          }
        }
      }
    }
  }

  // ---------- What a set of paths comes to ----------

  ghost predicate PrefixFree(ps: seq<Path>) {
    forall i, j :: 0 <= i < j < |ps| ==> Incomparable(ps[i], ps[j]) || ps[i] == ps[j]
  }

  ghost predicate AllProper(ps: seq<Path>) {
    forall i :: 0 <= i < |ps| ==> ProperPath(ps[i])
  }

  function AllDotted(ps: seq<Path>): seq<string>
    requires AllProper(ps)
  {
    seq(|ps|, i requires 0 <= i < |ps| => Dotted(ps[i]))
  }

  /** The last path that could hide p, if it comes after p, does hide it. */
  ghost predicate Survives(ps: seq<Path>, p: Path) {
    exists i :: 0 <= i < |ps| && ps[i] == p && Unhidden(ps, i, p)
  }

  ghost predicate Unhidden(ps: seq<Path>, i: int, p: Path) {
    forall j :: 0 <= j < |ps| && i < j ==> Incomparable(ps[j], p)
  }

  /** For any paths: what is left is each path that no later comparable path replaced. */
  lemma {:induction false} MaskOfPaths(ps: seq<Path>, q: Path)
    requires AllProper(ps)
    ensures HasPath(FromPaths(AllDotted(ps)), q) <==> Survives(ps, q)
  {
    if ps != [] {
      var k := |ps| - 1;
      var last, front := ps[k], ps[..k];
      assert AllDotted(ps)[..k] == AllDotted(front);
      assert AllDotted(ps)[k] == Dotted(last);
      AddIsAddPath(last, FromPaths(AllDotted(front)));
      AddReplacesComparable(last, FromPaths(AllDotted(front)), q);
      MaskOfPaths(front, q);
      SurvivesStep(ps, q);
    }
  }

  lemma {:induction false} SurvivesStep(ps: seq<Path>, q: Path)
    requires ps != []
    ensures Survives(ps, q) <==>
      q == ps[|ps| - 1] || (Survives(ps[..|ps| - 1], q) && Incomparable(ps[|ps| - 1], q))
  {
    var k := |ps| - 1;
    if Survives(ps, q) {
      var i :| 0 <= i < |ps| && ps[i] == q && Unhidden(ps, i, q);
      assert i < k ==> ps[..k][i] == q;
    }
    if Survives(ps[..k], q) && Incomparable(ps[k], q) {
      var i :| 0 <= i < k && ps[..k][i] == q && Unhidden(ps[..k], i, q);
      assert ps[i] == q;
      assert forall j :: i < j < k ==> ps[..k][j] == ps[j];
    }
    assert Unhidden(ps, k, q);
  }

  lemma {:induction false} LastIndex(ps: seq<Path>, q: Path) returns (i: nat)
    requires q in ps
    ensures i < |ps| && ps[i] == q && forall j :: i < j < |ps| ==> ps[j] != q
  {
    var k := |ps| - 1;
    if ps[k] == q {
      i := k;
    } else {
      assert ps == ps[..k] + [ps[k]];
      i := LastIndex(ps[..k], q);
    }
  }

  /** For prefix-free paths the mask stands for exactly the paths. */
  lemma {:induction false} PrefixFreePathsAreKept(ps: seq<Path>, q: Path)
    requires AllProper(ps) && PrefixFree(ps)
    ensures HasPath(FromPaths(AllDotted(ps)), q) <==> q in ps
  {
    MaskOfPaths(ps, q);
    if q in ps {
      var i := LastIndex(ps, q);
      assert Unhidden(ps, i, q);
    }
  }

  /** Every path is kept exactly when none of them begins with another one. */
  lemma {:induction false} AllKeptIffPrefixFree(ps: seq<Path>)
    requires AllProper(ps)
    ensures (forall q :: q in ps ==> HasPath(FromPaths(AllDotted(ps)), q)) <==> PrefixFree(ps)
  {
    if PrefixFree(ps) {
      forall q | q in ps ensures HasPath(FromPaths(AllDotted(ps)), q) {
        PrefixFreePathsAreKept(ps, q);
      }
    } else {
      var i, j :| 0 <= i < j < |ps| && !Incomparable(ps[i], ps[j]) && ps[i] != ps[j];
      MaskOfPaths(ps, ps[i]);
      MaskOfPaths(ps, ps[j]);
      NotBothSurvive(ps, ps[i], ps[j]);
      assert ps[i] in ps && ps[j] in ps;
    }
  }

  lemma {:induction false} NotBothSurvive(ps: seq<Path>, p: Path, q: Path)
    requires p != q && !Incomparable(p, q)
    ensures !(Survives(ps, p) && Survives(ps, q))
  {
    forall i, k | 0 <= i < |ps| && 0 <= k < |ps| && ps[i] == p && ps[k] == q
      ensures !(Unhidden(ps, i, p) && Unhidden(ps, k, q))
    {
      assert i < k || k < i;
    }
  }

  /** A mask that is not empty has a path. */
  lemma {:induction false} SomePath(mask: Mask) returns (p: Path)
    requires mask != ALL
    ensures HasPath(mask, p)
  {
    assert mask.m != map[];
    var f :| f in mask.m;
    if mask.m[f] == ALL {
      p := [f];
    } else {
      var rest := SomePath(mask.m[f]);
      p := [f] + rest;
      assert p[1..] == rest && rest != [];
    }
  }

  /** A mask is its set of paths. */
  lemma {:induction false} SamePathsSameMask(a: Mask, b: Mask)
    requires forall p :: HasPath(a, p) <==> HasPath(b, p)
    ensures a == b
    decreases a
  {
    SameFields(a, b);
    SameFields(b, a);
    forall f | f in a.m ensures a.m[f] == b.m[f] {
      forall p ensures HasPath(a.m[f], p) <==> HasPath(b.m[f], p) {
        if p != [] {
          assert ([f] + p)[1..] == p;
          assert HasPath(a, [f] + p) <==> HasPath(b, [f] + p);
          BelowField(a, f, p);
          BelowField(b, f, p);
        }
      }
      SamePathsSameMask(a.m[f], b.m[f]);
    }
    assert a.m == b.m;
  }

  lemma {:induction false} BelowField(mask: Mask, f: string, p: Path)
    requires f in mask.m && p != []
    ensures HasPath(mask, [f] + p) <==> HasPath(mask.m[f], p)
  {
    assert ([f] + p)[1..] == p;
  }

  lemma {:induction false} SameFields(a: Mask, b: Mask)
    requires forall p :: HasPath(a, p) <==> HasPath(b, p)
    ensures forall f :: f in a.m ==> f in b.m
  {
    forall f | f in a.m ensures f in b.m {
      if a.m[f] == ALL {
        assert HasPath(a, [f]);
      } else {
        var p := SomePath(a.m[f]);
        BelowField(a, f, p);
        assert HasPath(b, [f] + p);
      }
    }
  }

  /** Two lists of the same prefix-free paths give the same mask, whatever their order and repetitions. */
  lemma {:induction false} OrderDoesNotMatter(ps: seq<Path>, qs: seq<Path>)
    requires AllProper(ps) && AllProper(qs) && PrefixFree(ps)
    requires forall p :: p in ps <==> p in qs
    ensures FromPaths(AllDotted(ps)) == FromPaths(AllDotted(qs))
  {
    forall i, j | 0 <= i < j < |qs| ensures Incomparable(qs[i], qs[j]) || qs[i] == qs[j] {
      assert qs[i] in ps && qs[j] in ps;
      var k :| 0 <= k < |ps| && ps[k] == qs[i];
      var l :| 0 <= l < |ps| && ps[l] == qs[j];
    }
    forall p ensures HasPath(FromPaths(AllDotted(ps)), p) <==> HasPath(FromPaths(AllDotted(qs)), p) {
      PrefixFreePathsAreKept(ps, p);
      PrefixFreePathsAreKept(qs, p);
    }
    SamePathsSameMask(FromPaths(AllDotted(ps)), FromPaths(AllDotted(qs)));
  }
}
