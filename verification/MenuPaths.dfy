/** Full paths of a menu tree: pkg/utils/converter/menu.go:75-140. */
module MenuPaths {
  import opened Basics

  // ---------- The computation, for every parent graph ----------

  /** What the computation reads of a menu; a missing path or parent id reads as "" or 0. */
  datatype Entry = Entry(parent: nat, path: string)

  type Tree = map<nat, Entry>

  datatype Done = Done(path: string, memo: map<nat, string>)

  function TrimSlashes(s: string): string {
    TrimChars(s, {'/'})
  }

  predicate HasParent(tree: Tree, id: nat) {
    id in tree && tree[id].parent != 0 && tree[id].parent != id && tree[id].parent in tree
  }

  function Combine(parentFull: string, part: string): string {
    if parentFull == "" then part
    else if part == "" then parentFull
    else parentFull + "/" + part
  }

  function PathBelow(tree: Tree, memo: map<nat, string>, seen: set<nat>, id: nat): (r: Done)
    requires seen <= tree.Keys
    ensures id in r.memo && r.memo[id] == r.path
    ensures forall k :: k in memo ==> k in r.memo && r.memo[k] == memo[k]
    decreases tree.Keys - seen
  {
    if id in memo then Done(memo[id], memo)
    else if id in seen then
      var own := TrimSlashes(tree[id].path);
      Done(own, memo[id := own])
    else if id !in tree then Done("", memo[id := ""])
    else if !HasParent(tree, id) then Done(tree[id].path, memo[id := tree[id].path])
    else
      var above := PathBelow(tree, memo, seen + {id}, tree[id].parent);
      var full := Combine(above.path, tree[id].path);
      Done(full, above.memo[id := full])
  }

  function ComputeAll(tree: Tree, ids: seq<nat>): (memo: map<nat, string>)
    ensures forall id :: id in ids ==> id in memo
  {
    if ids == [] then map[]
    else
      var last := |ids| - 1;
      assert ids == ids[..last] + [ids[last]];
      PathBelow(tree, ComputeAll(tree, ids[..last]), {}, ids[last]).memo
  }

  // ---------- Menus whose parent chain ends ----------

  /** From a menu without a parent down to a menu, each the parent of the next. */
  predicate IsLineage(tree: Tree, line: seq<nat>) {
    && line != [] && line[0] in tree && !HasParent(tree, line[0])
    && forall i :: 0 < i < |line| ==> HasParent(tree, line[i]) && tree[line[i]].parent == line[i - 1]
  }

  predicate LineageOf(tree: Tree, line: seq<nat>, id: nat) {
    IsLineage(tree, line) && line[|line| - 1] == id
  }

  function PathsOf(tree: Tree, line: seq<nat>): seq<string>
    requires forall i :: 0 <= i < |line| ==> line[i] in tree
  {
    seq(|line|, i requires 0 <= i < |line| => tree[line[i]].path)
  }

  function NonEmpty(parts: seq<string>): seq<string> {
    if parts == [] then []
    else (if parts[0] == "" then [] else [parts[0]]) + NonEmpty(parts[1..])
  }

  /** What the full path of a menu should be. */
  function FullPath(tree: Tree, line: seq<nat>): string
    requires IsLineage(tree, line)
  {
    InTree(tree, line);
    Join(NonEmpty(PathsOf(tree, line)), "/")
  }

  lemma {:induction false} InTree(tree: Tree, line: seq<nat>)
    requires IsLineage(tree, line)
    ensures forall i :: 0 <= i < |line| ==> line[i] in tree
  {
  }

  lemma {:induction false} NonEmptyAppend(a: seq<string>, b: seq<string>)
    ensures NonEmpty(a + b) == NonEmpty(a) + NonEmpty(b)
  {
    if a == [] {
      assert a + b == b;
    } else {
      assert (a + b)[1..] == a[1..] + b;
      NonEmptyAppend(a[1..], b);
    }
  }

  lemma {:induction false} JoinAppend(a: seq<string>, p: string)
    requires p != "" && forall i :: 0 <= i < |a| ==> a[i] != ""
    ensures Join(a + [p], "/") == Combine(Join(a, "/"), p)
    ensures a != [] ==> Join(a, "/") != ""
  {
    if |a| > 1 {
      assert (a + [p])[1..] == a[1..] + [p];
      JoinAppend(a[1..], p);
    }
  }

  lemma {:induction false} NonEmptyParts(a: seq<string>)
    ensures forall i :: 0 <= i < |NonEmpty(a)| ==> NonEmpty(a)[i] != ""
  {
    if a != [] {
      NonEmptyParts(a[1..]);
    }
  }

  lemma {:induction false} FullPathStep(tree: Tree, line: seq<nat>)
    requires IsLineage(tree, line) && |line| > 1
    ensures IsLineage(tree, line[..|line| - 1])
    ensures FullPath(tree, line) ==
            Combine(FullPath(tree, line[..|line| - 1]), tree[line[|line| - 1]].path)
  {
    var n := |line| - 1;
    var a, p := PathsOf(tree, line[..n]), tree[line[n]].path;
    assert PathsOf(tree, line) == a + [p];
    NonEmptyAppend(a, [p]);
    NonEmptyParts(a);
    if p != "" {
      JoinAppend(NonEmpty(a), p);
      assert NonEmpty([p]) == [p];
    } else {
      assert NonEmpty(a) + NonEmpty([p]) == NonEmpty(a);
    }
  }

  lemma {:induction false} LineageIsUnique(tree: Tree, a: seq<nat>, b: seq<nat>)
    requires IsLineage(tree, a) && IsLineage(tree, b) && a[|a| - 1] == b[|b| - 1]
    ensures a == b
  {
    var n, k := |a| - 1, |b| - 1;
    if n > 0 && k > 0 {
      LineageIsUnique(tree, a[..n], b[..k]);
      assert a == a[..n] + [a[n]] && b == b[..k] + [b[k]];
    }
  }

  /** What is remembered of menus whose chain ends is right. */
  ghost predicate MemoRight(tree: Tree, memo: map<nat, string>) {
    forall line :: IsLineage(tree, line) && line[|line| - 1] in memo
      ==> memo[line[|line| - 1]] == FullPath(tree, line)
  }

  /** Menus on the way down to which id is being computed have longer chains than id has. */
  ghost predicate SeenBelow(tree: Tree, seen: set<nat>, id: nat) {
    forall line, lower :: LineageOf(tree, line, id) && IsLineage(tree, lower) && lower[|lower| - 1] in seen
      ==> |line| < |lower|
  }

  lemma {:induction false} Remember(tree: Tree, memo: map<nat, string>, id: nat, path: string)
    requires MemoRight(tree, memo)
    requires forall line :: LineageOf(tree, line, id) ==> FullPath(tree, line) == path
    ensures MemoRight(tree, memo[id := path])
  {
    hide FullPath;
    forall line | IsLineage(tree, line) && line[|line| - 1] in memo[id := path]
      ensures memo[id := path][line[|line| - 1]] == FullPath(tree, line)
    {
      assert line[|line| - 1] == id ==> LineageOf(tree, line, id);
    }
  }

  lemma {:induction false} TopMenu(tree: Tree, id: nat, line: seq<nat>)
    requires LineageOf(tree, line, id) && !HasParent(tree, id)
    ensures FullPath(tree, line) == tree[id].path
  {
    var p := tree[id].path;
    assert PathsOf(tree, line) == [p];
    assert NonEmpty([p]) == if p == "" then [] else [p];
  }

  lemma {:induction false} SeenBelowParent(tree: Tree, seen: set<nat>, id: nat)
    requires SeenBelow(tree, seen, id) && HasParent(tree, id)
    ensures SeenBelow(tree, seen + {id}, tree[id].parent)
  {
    var p := tree[id].parent;
    forall line, lower | LineageOf(tree, line, p) && IsLineage(tree, lower)
                         && lower[|lower| - 1] in seen + {id}
      ensures |line| < |lower|
    {
      assert LineageOf(tree, line + [id], id);
      if lower[|lower| - 1] == id {
        LineageIsUnique(tree, lower, line + [id]);
      }
    }
  }

  lemma {:induction false} NotSeen(tree: Tree, seen: set<nat>, id: nat, line: seq<nat>)
    requires SeenBelow(tree, seen, id) && LineageOf(tree, line, id)
    ensures id !in seen && id in tree
  {
  }

  lemma {:induction false} ComputeKeepsMemoRight(tree: Tree, memo: map<nat, string>, seen: set<nat>, id: nat)
    requires seen <= tree.Keys && MemoRight(tree, memo) && SeenBelow(tree, seen, id)
    ensures MemoRight(tree, PathBelow(tree, memo, seen, id).memo)
    decreases tree.Keys - seen
  {
    hide MemoRight, SeenBelow, IsLineage, FullPath, Combine, TrimSlashes;
    var r := PathBelow(tree, memo, seen, id);
    if id in memo {
    } else if id in seen || id !in tree || !HasParent(tree, id) {
      forall line | LineageOf(tree, line, id) ensures FullPath(tree, line) == r.path {
        NotSeen(tree, seen, id, line);
        TopMenu(tree, id, line);
      }
      Remember(tree, memo, id, r.path);
    } else {
      var p := tree[id].parent;
      SeenBelowParent(tree, seen, id);
      ComputeKeepsMemoRight(tree, memo, seen + {id}, p);
      var above := PathBelow(tree, memo, seen + {id}, p);
      forall line | LineageOf(tree, line, id) ensures FullPath(tree, line) == r.path {
        OneDown(tree, above.memo, id, line);
      }
      Remember(tree, above.memo, id, r.path);
    }
  }

  lemma {:induction false} OneDown(tree: Tree, memo: map<nat, string>, id: nat, line: seq<nat>)
    requires HasParent(tree, id) && LineageOf(tree, line, id)
    requires MemoRight(tree, memo) && tree[id].parent in memo
    ensures FullPath(tree, line) == Combine(memo[tree[id].parent], tree[id].path)
  {
    FullPathStep(tree, line);
    hide FullPath, Combine;
    assert line[..|line| - 1][|line| - 2] == tree[id].parent;
  }

  /** Every menu whose parent chain ends gets the non-empty paths along the chain, joined by slashes. */
  lemma {:induction false} ComposedIsFullPath(tree: Tree, ids: seq<nat>)
    ensures MemoRight(tree, ComputeAll(tree, ids))
  {
    if ids != [] {
      var last := |ids| - 1;
      ComposedIsFullPath(tree, ids[..last]);
      ComputeKeepsMemoRight(tree, ComputeAll(tree, ids[..last]), {}, ids[last]);
    }
  }

  /** So the order in which the menus are listed makes no difference to such a menu. */
  lemma {:induction false} OrderDoesNotMatter(tree: Tree, ids: seq<nat>, jds: seq<nat>, line: seq<nat>)
    requires IsLineage(tree, line)
    requires line[|line| - 1] in ids && line[|line| - 1] in jds
    ensures ComputeAll(tree, ids)[line[|line| - 1]] == ComputeAll(tree, jds)[line[|line| - 1]]
  {
    ComposedIsFullPath(tree, ids);
    ComposedIsFullPath(tree, jds);
  }

  // ---------- Cycles ----------

  /** Each is the parent of the one before it, and the first that of the last. */
  ghost predicate IsCycle(tree: Tree, c: seq<nat>) {
    && c != []
    && (forall i :: 0 <= i < |c| ==> HasParent(tree, c[i]))
    && (forall i :: 0 < i < |c| ==> tree[c[i - 1]].parent == c[i])
    && tree[c[|c| - 1]].parent == c[0]
  }

  ghost predicate IsClimb(tree: Tree, climb: seq<nat>) {
    && (forall i :: 0 <= i < |climb| ==> HasParent(tree, climb[i]))
    && (forall i :: 0 < i < |climb| ==> tree[climb[i - 1]].parent == climb[i])
    && (forall i, j :: 0 <= i < j < |climb| ==> climb[i] != climb[j])
  }

  lemma {:induction false} ChainEnds(tree: Tree, climb: seq<nat>, left: set<nat>, id: nat) returns (line: seq<nat>)
    requires id in tree && IsClimb(tree, climb)
    requires forall k :: k in tree ==> k in left || k in climb
    requires climb != [] ==> tree[climb[|climb| - 1]].parent == id
    requires forall c :: !IsCycle(tree, c)
    ensures LineageOf(tree, line, id)
    decreases left
  {
    if !HasParent(tree, id) {
      line := [id];
    } else {
      forall i | 0 <= i < |climb| ensures climb[i] != id {
        if climb[i] == id {
          assert IsCycle(tree, climb[i..]);
        }
      }
      var above := ChainEnds(tree, climb + [id], left - {id}, tree[id].parent);
      line := above + [id];
    }
  }

  /** Without cycles other than self-parents, every menu's chain ends; with one, those on it have none. */
  lemma {:induction false} EveryChainEndsIffNoCycle(tree: Tree)
    ensures (forall c :: !IsCycle(tree, c)) <==>
            (forall id :: id in tree ==> exists line :: LineageOf(tree, line, id))
  {
    if forall c :: !IsCycle(tree, c) {
      forall id | id in tree ensures exists line :: LineageOf(tree, line, id) {
        var line := ChainEnds(tree, [], tree.Keys, id);
      }
    }
    forall c | IsCycle(tree, c) ensures c[0] in tree && !exists line :: LineageOf(tree, line, c[0]) {
      forall line ensures !LineageOf(tree, line, c[0]) {
        NoLineageOnCycle(tree, c, line, 0);
      }
    }
  }

  lemma {:induction false} NoLineageOnCycle(tree: Tree, c: seq<nat>, line: seq<nat>, i: nat)
    requires IsCycle(tree, c) && i < |c|
    ensures !LineageOf(tree, line, c[i])
    decreases |line|
  {
    if |line| > 1 {
      NoLineageOnCycle(tree, c, line[..|line| - 1], if i + 1 < |c| then i + 1 else 0);
    }
  }
}
