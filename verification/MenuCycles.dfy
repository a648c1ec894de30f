/** What the menu computation makes of parent cycles, for every tree and every order of the menus:
    pkg/utils/converter/menu.go:75-140. */
module MenuCycles {
  import opened Basics
  import opened MenuPaths

  /** A climb that comes back to its own menu j: a cycle when j is 0, a way into one otherwise. */
  ghost predicate IsLasso(tree: Tree, climb: seq<nat>, j: nat) {
    IsClimb(tree, climb) && j < |climb| && tree[climb[|climb| - 1]].parent == climb[j]
  }

  lemma {:induction false} ClimbEnds(tree: Tree, climb: seq<nat>, left: set<nat>, id: nat)
    returns (line: seq<nat>, lasso: seq<nat>, j: nat)
    requires id in tree && IsClimb(tree, climb)
    requires forall k :: k in tree ==> k in left || k in climb
    requires climb != [] ==> tree[climb[|climb| - 1]].parent == id
    ensures LineageOf(tree, line, id) || (IsLasso(tree, lasso, j) && lasso[0] == (climb + [id])[0])
    decreases left
  {
    line, lasso, j := [id], climb, 0;
    if HasParent(tree, id) {
      if id in climb {
        j :| 0 <= j < |climb| && climb[j] == id;
      } else {
        var p := tree[id].parent;
        line, lasso, j := ClimbEnds(tree, climb + [id], left - {id}, p);
        if LineageOf(tree, line, p) {
          line := line + [id];
        }
      }
    }
  }

  // ---------- Ancestors, and the cycles among them ----------

  /** The n-th ancestor, or the last one when there are fewer. */
  function Up(tree: Tree, id: nat, n: nat): nat
    decreases n
  {
    if n == 0 || !HasParent(tree, id) then id else Up(tree, tree[id].parent, n - 1)
  }

  ghost predicate Reaches(tree: Tree, id: nat, above: nat) {
    exists n: nat :: Up(tree, id, n) == above
  }

  ghost predicate OnCycle(tree: Tree, id: nat) {
    HasParent(tree, id) && Reaches(tree, tree[id].parent, id)
  }

  lemma {:induction false} UpAdd(tree: Tree, id: nat, m: nat, n: nat)
    ensures Up(tree, Up(tree, id, m), n) == Up(tree, id, m + n)
    decreases m
  {
    if m > 0 && HasParent(tree, id) {
      UpAdd(tree, tree[id].parent, m - 1, n);
    }
  }

  lemma {:induction false} ReachesOn(tree: Tree, id: nat, mid: nat, above: nat)
    requires Reaches(tree, id, mid) && Reaches(tree, mid, above)
    ensures Reaches(tree, id, above)
  {
    var m: nat :| Up(tree, id, m) == mid;
    var n: nat :| Up(tree, mid, n) == above;
    UpAdd(tree, id, m, n);
  }

  lemma {:induction false} ReachesParent(tree: Tree, id: nat, k: nat)
    requires Reaches(tree, id, k) && HasParent(tree, k)
    ensures Reaches(tree, id, tree[k].parent)
  {
    assert Up(tree, k, 1) == tree[k].parent;
    ReachesOn(tree, id, k, tree[k].parent);
  }

  /** From a menu that comes back to itself. */
  lemma {:induction false} ComesBack(tree: Tree, id: nat, n: nat)
    requires n > 0 && Up(tree, id, n) == id && HasParent(tree, id)
    ensures OnCycle(tree, id)
  {
    assert Up(tree, tree[id].parent, n - 1) == id;
  }

  /** All ancestors of a menu on a cycle are on it. */
  lemma {:induction false} AncestorsOnCycle(tree: Tree, id: nat, n: nat)
    requires OnCycle(tree, id)
    ensures OnCycle(tree, Up(tree, id, n)) && Reaches(tree, Up(tree, id, n), id)
  {
    if n == 0 {
      assert Up(tree, id, 0) == id;
    } else {
      var below, above := Up(tree, id, n - 1), Up(tree, id, n);
      AncestorsOnCycle(tree, id, n - 1);
      UpAdd(tree, id, n - 1, 1);
      assert Up(tree, below, 1) == above == tree[below].parent;
      var j: nat :| Up(tree, below, j) == id;
      assert Reaches(tree, above, id) by {
        assert j > 0 ==> Up(tree, above, j - 1) == id;
      }
      var i: nat :| Up(tree, above, i) == id;
      UpAdd(tree, above, i, n);
      assert Up(tree, above, i + n) == above;
      ComesBack(tree, above, i + n);
    }
  }

  lemma {:induction false} ReachedOnCycle(tree: Tree, id: nat, above: nat)
    requires OnCycle(tree, id) && Reaches(tree, id, above)
    ensures OnCycle(tree, above) && Reaches(tree, above, id)
  {
    var n: nat :| Up(tree, id, n) == above;
    AncestorsOnCycle(tree, id, n);
  }

  /** A menu is on a cycle in this sense exactly when a cycle of menus begins with it. */
  lemma {:induction false} OnCycleIff(tree: Tree, id: nat)
    ensures OnCycle(tree, id) <==> exists c :: IsCycle(tree, c) && c[0] == id
  {
    if OnCycle(tree, id) {
      var n: nat :| Up(tree, tree[id].parent, n) == id;
      var c := seq(n + 1, i requires 0 <= i <= n => Up(tree, id, i));
      forall i | 0 <= i <= n ensures HasParent(tree, c[i]) && tree[c[i]].parent == Up(tree, id, i + 1) {
        AncestorsOnCycle(tree, id, i);
        UpAdd(tree, id, i, 1);
      }
      assert Up(tree, id, n + 1) == id;
      assert IsCycle(tree, c) && c[0] == id;
    }
    if c :| IsCycle(tree, c) && c[0] == id {
      CycleUp(tree, c, |c| - 1);
      UpAdd(tree, id, |c| - 1, 1);
      ComesBack(tree, id, |c|);
    }
  }

  lemma {:induction false} CycleUp(tree: Tree, c: seq<nat>, i: nat)
    requires IsCycle(tree, c) && i < |c|
    ensures Up(tree, c[0], i) == c[i]
  {
    if i > 0 {
      CycleUp(tree, c, i - 1);
      UpAdd(tree, c[0], i - 1, 1);
      assert Up(tree, c[i - 1], 1) == c[i];
    }
  }

  // ---------- Where the first climb into a cycle closes ----------

  ghost predicate MeetsAt(tree: Tree, id: nat, n: nat) {
    OnCycle(tree, Up(tree, id, n)) && forall m: nat :: m < n ==> !OnCycle(tree, Up(tree, id, m))
  }

  /** The first menu on a cycle that the parents of id lead to. */
  ghost predicate FirstOnCycle(tree: Tree, id: nat, e: nat) {
    exists n: nat :: Up(tree, id, n) == e && MeetsAt(tree, id, n)
  }

  ghost predicate EntryOf(tree: Tree, ids: seq<nat>, e: nat, i: nat) {
    i < |ids| && FirstOnCycle(tree, ids[i], e) && forall h: nat :: h < i ==> !Reaches(tree, ids[h], e)
  }

  /** Of the listed menus whose parents lead to a cycle, the first meets it in e. */
  ghost predicate EntersAt(tree: Tree, ids: seq<nat>, e: nat) {
    exists i: nat :: EntryOf(tree, ids, e, i)
  }

  /** The menu on the cycle whose parent that is. */
  ghost predicate Cut(tree: Tree, ids: seq<nat>, id: nat) {
    OnCycle(tree, id) && EntersAt(tree, ids, tree[id].parent)
  }

  ghost predicate Asked(tree: Tree, ids: seq<nat>, id: nat) {
    exists h: nat :: h < |ids| && Reaches(tree, ids[h], id)
  }

  lemma {:induction false} EntryUnique(tree: Tree, ids: seq<nat>, e: nat, f: nat)
    requires EntersAt(tree, ids, e) && EntersAt(tree, ids, f) && Reaches(tree, e, f)
    ensures e == f
  {
    var i: nat :| EntryOf(tree, ids, e, i);
    var j: nat :| EntryOf(tree, ids, f, j);
    var m: nat :| Up(tree, ids[i], m) == e && MeetsAt(tree, ids[i], m);
    var n: nat :| Up(tree, ids[j], n) == f && MeetsAt(tree, ids[j], n);
    ReachedOnCycle(tree, e, f);
    ReachesOn(tree, ids[i], e, f);
    ReachesOn(tree, ids[j], f, e);
    assert i == j;
    assert m == n;
  }

  /** On a cycle no two menus have one parent. */
  lemma {:induction false} SamePrevious(tree: Tree, e: nat, a: nat, b: nat)
    requires HasParent(tree, Up(tree, e, a)) && tree[Up(tree, e, a)].parent == e
    requires HasParent(tree, Up(tree, e, b)) && tree[Up(tree, e, b)].parent == e
    ensures Up(tree, e, a) == Up(tree, e, b)
    decreases a + b
  {
    if a < b {
      UpAdd(tree, e, a, 1);
      UpAdd(tree, e, a + 1, b - a - 1);
      SamePrevious(tree, e, a, b - a - 1);
    } else if b < a {
      UpAdd(tree, e, b, 1);
      UpAdd(tree, e, b + 1, a - b - 1);
      SamePrevious(tree, e, a - b - 1, b);
    }
  }

  /** Every cycle has one such menu at most. */
  lemma {:induction false} OneCut(tree: Tree, ids: seq<nat>, j: nat, k: nat)
    requires Cut(tree, ids, j) && Cut(tree, ids, k) && Reaches(tree, j, k)
    ensures j == k
  {
    var e, f := tree[j].parent, tree[k].parent;
    ReachesParent(tree, j, j) by { assert Up(tree, j, 0) == j; }
    ReachesOn(tree, e, j, k);
    ReachesParent(tree, e, k);
    EntryUnique(tree, ids, e, f);
    var a: nat :| Up(tree, e, a) == j;
    var b: nat :| Up(tree, e, b) == k;
    SamePrevious(tree, e, a, b);
  }

  // ---------- What one call computes ----------

  /** The menus from id up that have no path yet, to where the computation turns around: nxt has a
      path, or no parent, or is on the climb itself. */
  ghost predicate TurnsAt(tree: Tree, memo: map<nat, string>, climb: seq<nat>, id: nat, nxt: nat) {
    && IsClimb(tree, climb) && (forall i :: 0 <= i < |climb| ==> climb[i] !in memo)
    && (if climb == [] then nxt == id else climb[0] == id && tree[climb[|climb| - 1]].parent == nxt)
    && (nxt in memo || nxt in climb || !HasParent(tree, nxt))
  }

  /** What the computation takes for the path of nxt. */
  function Top(tree: Tree, memo: map<nat, string>, climb: seq<nat>, nxt: nat): string {
    if nxt in memo then memo[nxt]
    else if nxt !in tree then ""
    else if nxt in climb then TrimSlashes(tree[nxt].path)
    else tree[nxt].path
  }

  function Fold(tree: Tree, top: string, climb: seq<nat>, i: nat): string
    requires i <= |climb| && forall k :: i <= k < |climb| ==> climb[k] in tree
    decreases |climb| - i
  {
    if i == |climb| then top else Combine(Fold(tree, top, climb, i + 1), tree[climb[i]].path)
  }

  lemma {:induction false} ClimbTurns(tree: Tree, memo: map<nat, string>, climb: seq<nat>, left: set<nat>, id: nat)
    returns (more: seq<nat>, nxt: nat)
    requires IsClimb(tree, climb) && (forall i :: 0 <= i < |climb| ==> climb[i] !in memo)
    requires forall k :: k in tree ==> k in left || k in climb
    requires climb != [] ==> tree[climb[|climb| - 1]].parent == id
    ensures TurnsAt(tree, memo, more, (climb + [id])[0], nxt)
    decreases left
  {
    more, nxt := climb, id;
    if id !in memo && id !in climb && HasParent(tree, id) {
      more, nxt := ClimbTurns(tree, memo, climb + [id], left - {id}, tree[id].parent);
    }
  }

  /** The call for the i-th menu of the climb, or for nxt above it. */
  lemma {:induction false} ClimbComputed(tree: Tree, memo: map<nat, string>, seen: set<nat>, climb: seq<nat>, id: nat,
                                         nxt: nat, i: nat)
    requires TurnsAt(tree, memo, climb, id, nxt) && i <= |climb| && seen <= tree.Keys
    requires (forall k :: 0 <= k < |climb| ==> (climb[k] in seen <==> k < i)) && (nxt in seen ==> nxt in climb)
    ensures var top := Top(tree, memo, climb, nxt);
      var r := PathBelow(tree, memo, seen, if i < |climb| then climb[i] else nxt);
      && (forall k :: 0 <= k < |climb| ==> climb[k] in tree)
      && r.path == Fold(tree, top, climb, i)
      && (forall k :: i <= k < |climb| ==> climb[k] in r.memo && r.memo[climb[k]] == Fold(tree, top, climb, k))
      && nxt in r.memo && (nxt !in climb[i..] ==> r.memo[nxt] == top)
      && (forall k :: k in r.memo ==> k in memo || k == nxt || k in climb)
    decreases |climb| - i
  {
    hide Combine, TrimSlashes;
    if i < |climb| {
      assert HasParent(tree, climb[i]);
      assert i + 1 < |climb| ==> tree[climb[i + 1 - 1]].parent == climb[i + 1];
      ClimbComputed(tree, memo, seen + {climb[i]}, climb, id, nxt, i + 1);
      assert climb[i..] == [climb[i]] + climb[i + 1..];
    }
  }

  ghost predicate JoinsNext(tree: Tree, after: map<nat, string>, climb: seq<nat>, top: string, i: nat)
    requires i < |climb|
  {
    && climb[i] in tree && climb[i] in after && (i + 1 < |climb| ==> climb[i + 1] in after)
    && after[climb[i]] == Combine(if i + 1 < |climb| then after[climb[i + 1]] else top, tree[climb[i]].path)
  }

  /** What one more listed menu adds: each menu of the climb gets the path of the next one joined with
      its own, and the last one takes what counts as the path of nxt. */
  ghost predicate Added(tree: Tree, memo: map<nat, string>, after: map<nat, string>, climb: seq<nat>, id: nat,
                        nxt: nat) {
    && TurnsAt(tree, memo, climb, id, nxt)
    && (forall k :: k in after <==> k in memo || k == nxt || k in climb)
    && (forall k :: k in memo ==> after[k] == memo[k])
    && (nxt !in climb ==> after[nxt] == Top(tree, memo, climb, nxt))
    && forall i :: 0 <= i < |climb| ==> JoinsNext(tree, after, climb, Top(tree, memo, climb, nxt), i)
  }

  lemma {:induction false} OneMoreAdded(tree: Tree, memo: map<nat, string>, id: nat) returns (climb: seq<nat>, nxt: nat)
    ensures Added(tree, memo, PathBelow(tree, memo, {}, id).memo, climb, id, nxt)
  {
    climb, nxt := ClimbTurns(tree, memo, [], tree.Keys, id);
    ClimbComputed(tree, memo, {}, climb, id, nxt, 0);
    assert climb[0..] == climb;
    hide PathBelow, Combine, Top;
    var after, top := PathBelow(tree, memo, {}, id).memo, Top(tree, memo, climb, nxt);
    forall i | 0 <= i < |climb| ensures JoinsNext(tree, after, climb, top, i) {
      assert after[climb[i]] == Fold(tree, top, climb, i);
      assert i + 1 < |climb| ==> after[climb[i + 1]] == Fold(tree, top, climb, i + 1);
    }
  }

  lemma {:induction false} ClimbIsUp(tree: Tree, climb: seq<nat>, i: nat, n: nat)
    requires IsClimb(tree, climb) && i + n < |climb|
    ensures Up(tree, climb[i], n) == climb[i + n]
    decreases n
  {
    if n > 0 {
      assert tree[climb[i + 1 - 1]].parent == climb[i + 1];
      ClimbIsUp(tree, climb, i + 1, n - 1);
    }
  }

  lemma {:induction false} ClimbReachesNext(tree: Tree, memo: map<nat, string>, climb: seq<nat>, id: nat, nxt: nat,
                                            i: nat)
    requires TurnsAt(tree, memo, climb, id, nxt) && i <= |climb|
    ensures Up(tree, if i < |climb| then climb[i] else nxt, |climb| - i) == nxt
    decreases |climb| - i
  {
    if i < |climb| {
      assert HasParent(tree, climb[i]);
      assert i + 1 < |climb| ==> tree[climb[i + 1 - 1]].parent == climb[i + 1];
      ClimbReachesNext(tree, memo, climb, id, nxt, i + 1);
    }
  }

  // ---------- What all calls compute ----------

  ghost predicate UpClosed(tree: Tree, memo: map<nat, string>) {
    forall k :: k in memo && HasParent(tree, k) ==> tree[k].parent in memo
  }

  lemma {:induction false} UpStaysIn(tree: Tree, memo: map<nat, string>, id: nat, n: nat)
    requires UpClosed(tree, memo) && id in memo
    ensures Up(tree, id, n) in memo
    decreases n
  {
    if n > 0 && HasParent(tree, id) {
      UpStaysIn(tree, memo, tree[id].parent, n - 1);
    }
  }

  /** The menus with a path are the listed ones and their ancestors. */
  ghost predicate HasAsked(tree: Tree, ids: seq<nat>, memo: map<nat, string>) {
    forall k :: k in memo <==> Asked(tree, ids, k)
  }

  /** A menu's path is that of its parent joined with its own; but where the first climb into a cycle
      closed, the path of the parent is the one it came with, trimmed. */
  ghost predicate StepRight(tree: Tree, ids: seq<nat>, memo: map<nat, string>, k: nat)
    requires HasParent(tree, k)
  {
    var p := tree[k].parent;
    p in memo && k in memo
    && memo[k] == Combine(if Cut(tree, ids, k) then TrimSlashes(tree[p].path) else memo[p], tree[k].path)
  }

  lemma {:induction false} AskedClosed(tree: Tree, ids: seq<nat>, memo: map<nat, string>)
    requires HasAsked(tree, ids, memo)
    ensures UpClosed(tree, memo)
  {
    forall k | k in memo && HasParent(tree, k) ensures tree[k].parent in memo {
      var h: nat :| h < |ids| && Reaches(tree, ids[h], k);
      ReachesParent(tree, ids[h], k);
      assert Asked(tree, ids, tree[k].parent);
    }
  }

  lemma {:induction false} AskedMore(tree: Tree, ids: seq<nat>, id: nat, k: nat)
    ensures Asked(tree, ids + [id], k) <==> Asked(tree, ids, k) || Reaches(tree, id, k)
  {
    hide Reaches;
    var more := ids + [id];
    if Asked(tree, ids, k) {
      var h: nat :| h < |ids| && Reaches(tree, ids[h], k);
      assert more[h] == ids[h];
    }
    assert more[|ids|] == id;
  }

  lemma {:induction false} AddedClosed(tree: Tree, memo: map<nat, string>, after: map<nat, string>, climb: seq<nat>,
                                       id: nat, nxt: nat)
    requires UpClosed(tree, memo) && Added(tree, memo, after, climb, id, nxt)
    ensures UpClosed(tree, after)
  {
    hide Top, Combine;
    forall k | k in after && HasParent(tree, k) ensures tree[k].parent in after {
      if k !in memo && k in climb {
        var i :| 0 <= i < |climb| && climb[i] == k;
        assert i + 1 < |climb| ==> tree[climb[i + 1 - 1]].parent == climb[i + 1];
      }
    }
  }

  lemma {:induction false} AddedAsked(tree: Tree, ids: seq<nat>, memo: map<nat, string>, after: map<nat, string>,
                                      climb: seq<nat>, id: nat, nxt: nat)
    requires HasAsked(tree, ids, memo) && Added(tree, memo, after, climb, id, nxt)
    ensures HasAsked(tree, ids + [id], after)
  {
    AskedClosed(tree, ids, memo);
    AddedClosed(tree, memo, after, climb, id, nxt);
    hide UpClosed, Asked, Top, Combine;
    forall k ensures k in after <==> Asked(tree, ids + [id], k) {
      AskedMore(tree, ids, id, k);
      if k in climb {
        var i :| 0 <= i < |climb| && climb[i] == k;
        ClimbIsUp(tree, climb, 0, i);
      }
      if k == nxt {
        ClimbReachesNext(tree, memo, climb, id, nxt, 0);
      }
      if Reaches(tree, id, k) {
        var n: nat :| Up(tree, id, n) == k;
        UpStaysIn(tree, after, id, n);
      }
    }
  }

  lemma {:induction false} NotOnCycle(tree: Tree, memo: map<nat, string>, climb: seq<nat>, id: nat, nxt: nat, i: nat)
    requires UpClosed(tree, memo) && TurnsAt(tree, memo, climb, id, nxt) && nxt !in climb && i < |climb|
    ensures !OnCycle(tree, climb[i])
  {
    if OnCycle(tree, climb[i]) {
      ClimbReachesNext(tree, memo, climb, id, nxt, i);
      AncestorsOnCycle(tree, climb[i], |climb| - i);
      var n: nat :| Up(tree, nxt, n) == climb[i];
      if nxt in memo {
        UpStaysIn(tree, memo, nxt, n);
      }
    }
  }

  /** From a menu at or above the j-th, where the climb turns around, one stays there. */
  lemma {:induction false} StaysAbove(tree: Tree, memo: map<nat, string>, climb: seq<nat>, id: nat, nxt: nat, j: nat,
                                      i: nat, n: nat) returns (k: nat)
    requires TurnsAt(tree, memo, climb, id, nxt) && j <= i < |climb| && climb[j] == nxt
    ensures j <= k < |climb| && Up(tree, climb[i], n) == climb[k]
    decreases n
  {
    if n == 0 {
      k := i;
    } else {
      assert HasParent(tree, climb[i]);
      assert i + 1 < |climb| ==> tree[climb[i + 1 - 1]].parent == climb[i + 1];
      k := StaysAbove(tree, memo, climb, id, nxt, j, if i + 1 < |climb| then i + 1 else j, n - 1);
    }
  }

  lemma {:induction false} MeetsWhereItTurns(tree: Tree, memo: map<nat, string>, climb: seq<nat>, id: nat, nxt: nat,
                                             j: nat)
    requires TurnsAt(tree, memo, climb, id, nxt) && j < |climb| && climb[j] == nxt
    ensures Up(tree, id, j) == nxt && MeetsAt(tree, id, j) && OnCycle(tree, climb[|climb| - 1])
  {
    ClimbReachesNext(tree, memo, climb, id, nxt, j);
    ComesBack(tree, nxt, |climb| - j);
    ClimbIsUp(tree, climb, 0, j);
    ClimbIsUp(tree, climb, j, |climb| - 1 - j);
    AncestorsOnCycle(tree, nxt, |climb| - 1 - j);
    hide HasParent;
    forall m: nat | m < j ensures !OnCycle(tree, Up(tree, id, m)) {
      ClimbIsUp(tree, climb, 0, m);
      if OnCycle(tree, climb[m]) {
        ClimbIsUp(tree, climb, m, j - m);
        ReachedOnCycle(tree, climb[m], nxt);
        var n: nat :| Up(tree, nxt, n) == climb[m];
        var k := StaysAbove(tree, memo, climb, id, nxt, j, j, n);
      }
    }
  }

  lemma {:induction false} NotAskedBefore(tree: Tree, ids: seq<nat>, memo: map<nat, string>, id: nat, e: nat, h: nat)
    requires HasAsked(tree, ids, memo) && e !in memo && h < |ids|
    ensures !Reaches(tree, (ids + [id])[h], e)
  {
    assert (ids + [id])[h] == ids[h];
    assert !Asked(tree, ids, e);
  }

  lemma {:induction false} LastIsCut(tree: Tree, ids: seq<nat>, memo: map<nat, string>, climb: seq<nat>, id: nat,
                                     nxt: nat)
    requires HasAsked(tree, ids, memo) && TurnsAt(tree, memo, climb, id, nxt) && nxt in climb
    ensures Cut(tree, ids + [id], climb[|climb| - 1])
  {
    var j :| 0 <= j < |climb| && climb[j] == nxt;
    MeetsWhereItTurns(tree, memo, climb, id, nxt, j);
    forall h: nat | h < |ids| ensures !Reaches(tree, (ids + [id])[h], nxt) {
      NotAskedBefore(tree, ids, memo, id, nxt, h);
    }
    hide OnCycle, MeetsAt, Reaches, HasAsked, IsClimb;
    assert FirstOnCycle(tree, id, nxt) && (ids + [id])[|ids|] == id;
    assert EntryOf(tree, ids + [id], nxt, |ids|);
  }

  lemma {:induction false} OthersAreNot(tree: Tree, ids: seq<nat>, memo: map<nat, string>, climb: seq<nat>, id: nat,
                                        nxt: nat, k: nat)
    requires HasAsked(tree, ids, memo) && TurnsAt(tree, memo, climb, id, nxt) && k + 1 < |climb|
    ensures !Cut(tree, ids + [id], climb[k])
  {
    assert tree[climb[k + 1 - 1]].parent == climb[k + 1];
    if Cut(tree, ids + [id], climb[k]) {
      var h: nat :| EntryOf(tree, ids + [id], climb[k + 1], h);
      var n: nat :| Up(tree, (ids + [id])[h], n) == climb[k + 1] && MeetsAt(tree, (ids + [id])[h], n);
      if h < |ids| {
        NotAskedBefore(tree, ids, memo, id, climb[k + 1], h);
      } else {
        ClimbIsUp(tree, climb, 0, k);
        if n <= k {
          ClimbIsUp(tree, climb, 0, n);
        }
      }
    }
  }

  /** Later calls move no entry of a cycle that has its paths. */
  lemma {:induction false} CutStays(tree: Tree, ids: seq<nat>, memo: map<nat, string>, id: nat, k: nat)
    requires HasAsked(tree, ids, memo) && UpClosed(tree, memo) && k in memo
    ensures Cut(tree, ids + [id], k) <==> Cut(tree, ids, k)
  {
    if OnCycle(tree, k) {
      var e, more := tree[k].parent, ids + [id];
      assert Asked(tree, ids, e);
      var h: nat :| h < |ids| && Reaches(tree, ids[h], e);
      hide OnCycle, Reaches, FirstOnCycle;
      assert forall i: nat :: i < |ids| ==> more[i] == ids[i];
      if EntersAt(tree, ids, e) {
        var i: nat :| EntryOf(tree, ids, e, i);
        assert EntryOf(tree, more, e, i);
      }
      if EntersAt(tree, more, e) {
        var i: nat :| EntryOf(tree, more, e, i);
        assert i < |ids|;
        assert EntryOf(tree, ids, e, i);
      }
    }
  }

  ghost predicate StepsRight(tree: Tree, ids: seq<nat>, memo: map<nat, string>) {
    forall k :: k in memo && HasParent(tree, k) ==> StepRight(tree, ids, memo, k)
  }

  lemma {:induction false} NewStepRight(tree: Tree, ids: seq<nat>, memo: map<nat, string>, after: map<nat, string>,
                                        climb: seq<nat>, id: nat, nxt: nat, i: nat)
    requires HasAsked(tree, ids, memo) && Added(tree, memo, after, climb, id, nxt) && i < |climb|
    ensures HasParent(tree, climb[i]) && StepRight(tree, ids + [id], after, climb[i])
  {
    AskedClosed(tree, ids, memo);
    hide Cut, Combine, TrimSlashes, HasAsked, UpClosed;
    assert JoinsNext(tree, after, climb, Top(tree, memo, climb, nxt), i);
    if i + 1 < |climb| {
      assert tree[climb[i + 1 - 1]].parent == climb[i + 1];
      OthersAreNot(tree, ids, memo, climb, id, nxt, i);
    } else if nxt in climb {
      var j :| 0 <= j < |climb| && climb[j] == nxt;
      assert nxt !in memo;
      LastIsCut(tree, ids, memo, climb, id, nxt);
    } else {
      NotOnCycle(tree, memo, climb, id, nxt, i);
      NoCut(tree, ids + [id], climb[i]);
    }
  }

  lemma {:induction false} NoCut(tree: Tree, ids: seq<nat>, id: nat)
    requires !OnCycle(tree, id)
    ensures !Cut(tree, ids, id)
  {
  }

  lemma {:induction false} AddedRight(tree: Tree, ids: seq<nat>, memo: map<nat, string>, after: map<nat, string>,
                                      climb: seq<nat>, id: nat, nxt: nat)
    requires HasAsked(tree, ids, memo) && StepsRight(tree, ids, memo) && Added(tree, memo, after, climb, id, nxt)
    ensures StepsRight(tree, ids + [id], after)
  {
    AskedClosed(tree, ids, memo);
    hide Cut, Combine, TrimSlashes, HasAsked, UpClosed;
    forall k | k in after && HasParent(tree, k) ensures StepRight(tree, ids + [id], after, k) {
      if k in memo {
        CutStays(tree, ids, memo, id, k);
        assert StepRight(tree, ids, memo, k);
      } else {
        var i :| 0 <= i < |climb| && climb[i] == k;
        NewStepRight(tree, ids, memo, after, climb, id, nxt, i);
      }
    }
  }

  /** On every parent graph, in every order: the menus with a path are the listed ones and those above
      them, and each path is that of the parent joined with the menu's own, but for one menu on each
      cycle, whose parent counts with its own path alone. */
  lemma {:induction false} EveryStepRight(tree: Tree, ids: seq<nat>)
    ensures HasAsked(tree, ids, ComputeAll(tree, ids)) && StepsRight(tree, ids, ComputeAll(tree, ids))
  {
    if ids != [] {
      var last := |ids| - 1;
      var memo := ComputeAll(tree, ids[..last]);
      EveryStepRight(tree, ids[..last]);
      assert ids == ids[..last] + [ids[last]];
      hide HasAsked, StepsRight, PathBelow, Added;
      var climb, nxt := OneMoreAdded(tree, memo, ids[last]);
      AddedAsked(tree, ids[..last], memo, ComputeAll(tree, ids), climb, ids[last], nxt);
      AddedRight(tree, ids[..last], memo, ComputeAll(tree, ids), climb, ids[last], nxt);
    }
  }

  // ---------- The paths of menus on a cycle, and below one ----------

  /** From a menu up to the first one whose parent counts with its own path alone. */
  ghost predicate CutClimb(tree: Tree, ids: seq<nat>, climb: seq<nat>) {
    && climb != [] && IsClimb(tree, climb) && Cut(tree, ids, climb[|climb| - 1])
    && forall i :: 0 <= i < |climb| - 1 ==> !Cut(tree, ids, climb[i])
  }

  /** The paths down to the i-th menu of the climb; first that of the parent of the last one, without
      slashes at the ends. */
  function Down(tree: Tree, climb: seq<nat>, i: nat): seq<string>
    requires climb != [] && IsClimb(tree, climb) && i <= |climb|
    decreases |climb| - i
  {
    if i == |climb| then [ParentPath(tree, climb[|climb| - 1])]
    else
      assert HasParent(tree, climb[i]);
      Down(tree, climb, i + 1) + [tree[climb[i]].path]
  }

  function ParentPath(tree: Tree, id: nat): string
    requires HasParent(tree, id)
  {
    TrimSlashes(tree[tree[id].parent].path)
  }

  function CutPath(tree: Tree, climb: seq<nat>): string
    requires climb != [] && IsClimb(tree, climb)
  {
    Join(NonEmpty(Down(tree, climb, 0)), "/")
  }

  lemma {:induction false} JoinStep(a: seq<string>, p: string)
    ensures Join(NonEmpty(a + [p]), "/") == Combine(Join(NonEmpty(a), "/"), p)
  {
    NonEmptyAppend(a, [p]);
    NonEmptyParts(a);
    if p != "" {
      JoinAppend(NonEmpty(a), p);
      assert NonEmpty([p]) == [p];
    } else {
      assert NonEmpty(a) + NonEmpty([p]) == NonEmpty(a);
    }
  }

  lemma {:induction false} JoinOne(t: string)
    ensures Join(NonEmpty([t]), "/") == t
  {
    assert NonEmpty([t]) == if t == "" then [] else [t];
  }

  lemma {:induction false} CutPathFrom(tree: Tree, ids: seq<nat>, climb: seq<nat>, i: nat)
    requires CutClimb(tree, ids, climb) && i < |climb|
    requires StepsRight(tree, ids, ComputeAll(tree, ids)) && climb[i] in ComputeAll(tree, ids)
    ensures ComputeAll(tree, ids)[climb[i]] == Join(NonEmpty(Down(tree, climb, i)), "/")
    decreases |climb| - i
  {
    hide Cut, Combine, TrimSlashes, ComputeAll, NonEmpty, Join;
    assert HasParent(tree, climb[i]) && StepRight(tree, ids, ComputeAll(tree, ids), climb[i]);
    if i + 1 < |climb| {
      assert tree[climb[i + 1 - 1]].parent == climb[i + 1];
      CutPathFrom(tree, ids, climb, i + 1);
    } else {
      JoinOne(ParentPath(tree, climb[i]));
    }
    JoinStep(Down(tree, climb, i + 1), tree[climb[i]].path);
  }

  /** The path that a menu on a cycle or below one gets, whatever the order of the menus. */
  lemma {:induction false} CutPathComputed(tree: Tree, ids: seq<nat>, climb: seq<nat>)
    requires CutClimb(tree, ids, climb) && climb[0] in ComputeAll(tree, ids)
    ensures ComputeAll(tree, ids)[climb[0]] == CutPath(tree, climb)
  {
    EveryStepRight(tree, ids);
    CutPathFrom(tree, ids, climb, 0);
  }

  /** The least number with a property. */
  lemma {:induction false} Least(p: nat -> bool, n: nat) returns (m: nat)
    requires p(n)
    ensures m <= n && p(m) && forall k: nat :: k < m ==> !p(k)
  {
    m := n;
    if k: nat :| k < n && p(k) {
      m := Least(p, k);
    }
  }

  /** A cycle that the listed menus lead to has an entry. */
  lemma {:induction false} EntryExists(tree: Tree, ids: seq<nat>, k: nat) returns (e: nat)
    requires OnCycle(tree, k) && Asked(tree, ids, k)
    ensures EntersAt(tree, ids, e) && Reaches(tree, k, e)
  {
    hide OnCycle;
    var g: nat :| g < |ids| && Reaches(tree, ids[g], k);
    var leads := (i: nat) => i < |ids| && Reaches(tree, ids[i], k);
    var h := Least(leads, g);
    var n: nat :| Up(tree, ids[h], n) == k;
    var meets := (i: nat) => OnCycle(tree, Up(tree, ids[h], i));
    var m := Least(meets, n);
    e := Up(tree, ids[h], m);
    UpAdd(tree, ids[h], m, n - m);
    ReachedOnCycle(tree, e, k);
    forall i: nat | i < h ensures !Reaches(tree, ids[i], e) {
      assert !leads(i);
      if Reaches(tree, ids[i], e) {
        ReachesOn(tree, ids[i], e, k);
      }
    }
    forall i: nat | i < m ensures !OnCycle(tree, Up(tree, ids[h], i)) {
      assert !meets(i);
    }
    assert MeetsAt(tree, ids[h], m) && FirstOnCycle(tree, ids[h], e);
    assert EntryOf(tree, ids, e, h);
  }

  /** The climb into a cycle, as far as the menu whose parent is the entry. */
  lemma {:induction false} LassoCut(tree: Tree, ids: seq<nat>, lasso: seq<nat>, j: nat) returns (climb: seq<nat>)
    requires IsLasso(tree, lasso, j) && Asked(tree, ids, lasso[0])
    ensures CutClimb(tree, ids, climb) && climb[0] == lasso[0]
  {
    var last := |lasso| - 1;
    assert TurnsAt(tree, map[], lasso, lasso[0], lasso[j]);
    MeetsWhereItTurns(tree, map[], lasso, lasso[0], lasso[j], j);
    ClimbIsUp(tree, lasso, 0, last);
    AskedAbove(tree, ids, lasso[0], lasso[last]);
    var e := EntryExists(tree, ids, lasso[last]);
    var m: nat :| Up(tree, lasso[last], m) == e;
    var q := StaysAbove(tree, map[], lasso, lasso[0], lasso[j], j, last, m);
    var i := if q > j then q - 1 else last;
    assert tree[lasso[i]].parent == e by {
      assert q > 0 ==> tree[lasso[q - 1]].parent == lasso[q];
    }
    ClimbIsUp(tree, lasso, j, i - j);
    AncestorsOnCycle(tree, lasso[j], i - j);
    hide OnCycle, EntersAt, Asked;
    var cuts := (k: nat) => k < |lasso| && Cut(tree, ids, lasso[k]);
    var k := Least(cuts, i);
    climb := lasso[..k + 1];
    forall i | 0 <= i < k ensures !Cut(tree, ids, climb[i]) {
      assert !cuts(i);
    }
  }

  lemma {:induction false} AskedAbove(tree: Tree, ids: seq<nat>, id: nat, above: nat)
    requires Asked(tree, ids, id) && Reaches(tree, id, above)
    ensures Asked(tree, ids, above)
  {
    var h: nat :| h < |ids| && Reaches(tree, ids[h], id);
    ReachesOn(tree, ids[h], id, above);
  }

  ghost predicate Ends(tree: Tree, id: nat) {
    exists line :: LineageOf(tree, line, id)
  }

  ghost predicate LeadsToCut(tree: Tree, ids: seq<nat>, id: nat) {
    exists climb :: CutClimb(tree, ids, climb) && climb[0] == id
  }

  /** Every menu with a path is of one of two kinds: its chain of parents ends, or it leads to a menu
      whose parent counts with its own path alone. */
  lemma {:induction false} EndsOrCut(tree: Tree, ids: seq<nat>, id: nat)
    requires id in tree && id in ComputeAll(tree, ids)
    ensures Ends(tree, id) || LeadsToCut(tree, ids, id)
  {
    EveryStepRight(tree, ids);
    var line, lasso, j := ClimbEnds(tree, [], tree.Keys, id);
    if !LineageOf(tree, line, id) {
      var climb := LassoCut(tree, ids, lasso, j);
    }
  }

  lemma {:induction false} DownEmpty(tree: Tree, climb: seq<nat>, i: nat)
    requires climb != [] && IsClimb(tree, climb) && i <= |climb|
    ensures Join(NonEmpty(Down(tree, climb, i)), "/") == "" <==>
      ParentPath(tree, climb[|climb| - 1]) == "" && forall k :: i <= k < |climb| ==> tree[climb[k]].path == ""
    decreases |climb| - i
  {
    hide TrimSlashes, Join, NonEmpty;
    if i == |climb| {
      JoinOne(ParentPath(tree, climb[|climb| - 1]));
    } else {
      assert HasParent(tree, climb[i]);
      DownEmpty(tree, climb, i + 1);
      JoinStep(Down(tree, climb, i + 1), tree[climb[i]].path);
    }
  }

  /** All paths but that of the menu itself are empty, and the one that counts alone is empty or slashes. */
  predicate NothingAbove(tree: Tree, climb: seq<nat>)
    requires climb != [] && IsClimb(tree, climb)
  {
    ParentPath(tree, climb[|climb| - 1]) == "" && forall k :: 1 <= k < |climb| ==> tree[climb[k]].path == ""
  }

  /** The comment in the code says that such a menu falls back to its own path. It does exactly when
      there is nothing else to join. */
  lemma {:induction false} KeepsOwnPathIff(tree: Tree, climb: seq<nat>)
    requires climb != [] && IsClimb(tree, climb)
    ensures CutPath(tree, climb) == tree[climb[0]].path <==> NothingAbove(tree, climb)
  {
    assert HasParent(tree, climb[0]);
    JoinStep(Down(tree, climb, 1), tree[climb[0]].path);
    DownEmpty(tree, climb, 1);
  }

  lemma {:induction false} LineEmpty(tree: Tree, line: seq<nat>)
    requires IsLineage(tree, line)
    ensures FullPath(tree, line) == "" <==> forall i :: 0 <= i < |line| ==> tree[line[i]].path == ""
    decreases |line|
  {
    hide FullPath;
    var n := |line| - 1;
    if n == 0 {
      TopMenu(tree, line[0], line);
    } else {
      FullPathStep(tree, line);
      LineEmpty(tree, line[..n]);
    }
  }

  /** A menu whose chain ends keeps its own path exactly when all others on the chain are empty. */
  lemma {:induction false} LineKeepsOwnPathIff(tree: Tree, line: seq<nat>)
    requires IsLineage(tree, line)
    ensures FullPath(tree, line) == tree[line[|line| - 1]].path <==>
      forall i :: 0 <= i < |line| - 1 ==> tree[line[i]].path == ""
  {
    hide FullPath;
    if |line| == 1 {
      TopMenu(tree, line[0], line);
    } else {
      FullPathStep(tree, line);
      LineEmpty(tree, line[..|line| - 1]);
    }
  }

  lemma {:induction false} EndsComputed(tree: Tree, ids: seq<nat>)
    ensures forall id, line :: id in ids && LineageOf(tree, line, id) ==>
      ComputeAll(tree, ids)[id] == FullPath(tree, line)
  {
    hide FullPath, IsLineage, ComputeAll;
    ComposedIsFullPath(tree, ids);
  }

  /** What is said of climbs into cycles, for all listed menus. */
  lemma {:induction false} CutsComputed(tree: Tree, ids: seq<nat>)
    ensures forall id, climb :: id in ids && CutClimb(tree, ids, climb) && climb[0] == id ==>
      && ComputeAll(tree, ids)[id] == CutPath(tree, climb)
      && id in tree && (ComputeAll(tree, ids)[id] == tree[id].path <==> NothingAbove(tree, climb))
  {
    hide Cut, CutPath, ComputeAll, NothingAbove;
    forall id, climb | id in ids && CutClimb(tree, ids, climb) && climb[0] == id
      ensures ComputeAll(tree, ids)[id] == CutPath(tree, climb)
      ensures id in tree && (ComputeAll(tree, ids)[id] == tree[id].path <==> NothingAbove(tree, climb))
    {
      assert HasParent(tree, climb[0]);
      CutPathComputed(tree, ids, climb);
      KeepsOwnPathIff(tree, climb);
    }
  }

  /** Two menus that are each the parent of the other, the first listed first. */
  lemma {:induction false} CycleOfTwo(tree: Tree, x: nat, y: nat)
    requires x != 0 && y != 0 && x != y && {x, y} <= tree.Keys
    requires tree[x].parent == y && tree[y].parent == x
    ensures var memo := ComputeAll(tree, [x, y]);
      && memo[y] == Combine(TrimSlashes(tree[x].path), tree[y].path)
      && memo[x] == Combine(memo[y], tree[x].path)
  {
    assert Up(tree, y, 1) == x && Up(tree, x, 1) == y && Up(tree, x, 0) == x;
    assert OnCycle(tree, x) && OnCycle(tree, y) && Reaches(tree, x, y);
    assert MeetsAt(tree, x, 0) && EntryOf(tree, [x, y], x, 0);
    assert Cut(tree, [x, y], y);
    if Cut(tree, [x, y], x) {
      OneCut(tree, [x, y], x, y);
    }
    EveryStepRight(tree, [x, y]);
    hide Cut, ComputeAll, Combine, TrimSlashes;
    assert StepRight(tree, [x, y], ComputeAll(tree, [x, y]), x) && StepRight(tree, [x, y], ComputeAll(tree, [x, y]), y);
  }

  /** So there the order of the menus does matter. */
  lemma {:induction false} CycleDependsOnOrder()
    ensures var tree: Tree := map[1 := Entry(2, "a"), 2 := Entry(1, "b")];
            ComputeAll(tree, [1, 2])[1] == "a/b/a" && ComputeAll(tree, [2, 1])[1] == "b/a"
  {
    var tree: Tree := map[1 := Entry(2, "a"), 2 := Entry(1, "b")];
    assert TrimSlashes("a") == "a" && TrimSlashes("b") == "b";
    assert Combine("a", "b") == "a/b" && Combine("a/b", "a") == "a/b/a" && Combine("b", "a") == "b/a";
    hide Combine, TrimSlashes, ComputeAll;
    CycleOfTwo(tree, 1, 2);
    CycleOfTwo(tree, 2, 1);
  }
}
