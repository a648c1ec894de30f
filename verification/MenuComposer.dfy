/** The menus as objects, whose paths are overwritten: pkg/utils/converter/menu.go:75-140. */
module MenuComposer {
  import opened Basics
  import opened MenuPaths
  import opened MenuCycles

  class Menu {
    const id: nat
    const parentId: nat
    var path: string

    constructor (id: nat, parentId: nat, path: string)
      ensures this.id == id && this.parentId == parentId && this.path == path
    {
      this.id, this.parentId, this.path := id, parentId, path;
    }
  }

  /** The menus as the computation finds them; of two with one id, the later counts. */
  function TreeOf(menus: seq<Menu>): (tree: Tree)
    reads menus
    ensures forall i :: 0 <= i < |menus| ==> menus[i].id in tree
  {
    if menus == [] then map[]
    else
      var last := |menus| - 1;
      TreeOf(menus[..last])[menus[last].id := Entry(menus[last].parentId, menus[last].path)]
  }

  function Ids(menus: seq<Menu>): (ids: seq<nat>)
    ensures |ids| == |menus| && forall i :: 0 <= i < |ids| ==> ids[i] == menus[i].id
  {
    seq(|menus|, i requires 0 <= i < |menus| => menus[i].id)
  }

  class Composer {
    var m: map<nat, Menu>
    var memo: map<nat, string>
    var seen: set<nat>

    constructor (m: map<nat, Menu>)
      ensures this.m == m && memo == map[] && seen == {}
    {
      this.m, memo, seen := m, map[], {};
    }

    /** A menu whose path is not known yet still has the path it came with. */
    ghost predicate Reads(tree: Tree)
      reads this, m.Values
    {
      && m.Keys == tree.Keys && seen <= m.Keys
      && forall k :: k in m ==>
           && m[k].id == k && m[k].parentId == tree[k].parent
           && (k !in memo ==> m[k].path == tree[k].path)
    }

    /** The closure compute. */
    method Compute(id: nat, ghost tree: Tree) returns (path: string)
      requires Reads(tree)
      modifies this`memo, this`seen
      ensures Reads(tree) && seen == old(seen)
      ensures Done(path, memo) == PathBelow(tree, old(memo), seen, id)
      decreases m.Keys - seen
    {
      if id in memo {
        return memo[id];
      }
      if id in seen {
        memo := memo[id := TrimSlashes(m[id].path)];
        return memo[id];
      }
      if id !in m {
        memo := memo[id := ""];
        return "";
      }
      var menu := m[id];
      var part, parentId := menu.path, menu.parentId;
      if parentId == 0 || parentId == id || parentId !in m {
        memo := memo[id := part];
        return memo[id];
      }
      seen := seen + {id};
      var parentFull := Compute(m[parentId].id, tree);
      seen := seen - {id};
      path := Combine(parentFull, part);
      memo := memo[id := path];
    }

    /** One turn of the loop over the menus. */
    method SetPath(menu: Menu, ghost tree: Tree)
      requires Reads(tree) && seen == {}
      modifies this`memo, this`seen, menu`path
      ensures Reads(tree) && seen == {}
      ensures memo == PathBelow(tree, old(memo), {}, menu.id).memo
      ensures menu.id in memo && menu.path == memo[menu.id]
      ensures forall k :: k in old(memo) ==> k in memo && memo[k] == old(memo)[k]
    {
      hide PathBelow;
      var fullPath := Compute(menu.id, tree);
      menu.path := fullPath;
    }
  }

  lemma {:induction false} OneMoreMenu(menus: seq<Menu>, i: nat)
    requires i < |menus|
    ensures TreeOf(menus[..i + 1]) == TreeOf(menus[..i])[menus[i].id := Entry(menus[i].parentId, menus[i].path)]
  {
    assert menus[..i + 1][..i] == menus[..i];
  }

  /** The menus of a slice by id: of two with one id, the later. */
  method Index(menus: seq<Menu>) returns (m: map<nat, Menu>)
    ensures forall k :: k in m ==> m[k] in menus
    ensures m.Keys == TreeOf(menus).Keys
    ensures forall k :: k in m ==>
      m[k].id == k && m[k].parentId == TreeOf(menus)[k].parent && m[k].path == TreeOf(menus)[k].path
  {
    m := map[];
    for i := 0 to |menus|
      invariant forall k :: k in m ==> m[k] in menus
      invariant m.Keys == TreeOf(menus[..i]).Keys
      invariant forall k :: k in m ==>
        m[k].id == k && m[k].parentId == TreeOf(menus[..i])[k].parent && m[k].path == TreeOf(menus[..i])[k].path
    {
      OneMoreMenu(menus, i);
      hide TreeOf;
      m := m[menus[i].id := menus[i]];
    }
    assert menus[..|menus|] == menus;
  }

  method Compose(menus: seq<Menu>) returns (c: Composer)
    ensures fresh(c) && c.memo == map[] && c.seen == {}
    ensures (forall k :: k in c.m ==> c.m[k] in menus) && c.Reads(TreeOf(menus))
  {
    hide TreeOf;
    var m := Index(menus);
    c := new Composer(m);
  }

  lemma {:induction false} OneMoreListed(tree: Tree, ids: seq<nat>, i: nat)
    requires i < |ids|
    ensures ComputeAll(tree, ids[..i + 1]) == PathBelow(tree, ComputeAll(tree, ids[..i]), {}, ids[i]).memo
  {
    assert ids[..i + 1][..i] == ids[..i];
  }

  /** Every listed menu ends up with the path computed for its id, although paths are overwritten
      while others are still to be computed from them. */
  method ComposeMenuPaths(menus: seq<Menu>)
    modifies menus
    ensures forall i :: 0 <= i < |menus| ==>
              menus[i].path == ComputeAll(old(TreeOf(menus)), Ids(menus))[menus[i].id]
    ensures forall i, line :: 0 <= i < |menus| && LineageOf(old(TreeOf(menus)), line, menus[i].id) ==>
              menus[i].path == FullPath(old(TreeOf(menus)), line)
    ensures forall i, climb ::
              0 <= i < |menus| && CutClimb(old(TreeOf(menus)), Ids(menus), climb) && climb[0] == menus[i].id ==>
                && menus[i].path == CutPath(old(TreeOf(menus)), climb)
                && (menus[i].path == old(TreeOf(menus))[menus[i].id].path
                    <==> NothingAbove(old(TreeOf(menus)), climb))
    ensures forall i :: 0 <= i < |menus| ==>
              Ends(old(TreeOf(menus)), menus[i].id) || LeadsToCut(old(TreeOf(menus)), Ids(menus), menus[i].id)
  {
    hide TreeOf, ComputeAll, PathBelow, FullPath, Composer.Reads, Cut, IsClimb, CutPath, NothingAbove, LineageOf, Ends,
      LeadsToCut;
    ghost var tree, ids := TreeOf(menus), Ids(menus);
    assert forall i :: 0 <= i < |menus| ==> ids[i] in tree && ids[i] in ids;
    var c := Compose(menus);
    assert c.memo == ComputeAll(tree, ids[..0]) by {
      NoneListed(tree);
    }
    for i := 0 to |menus|
      invariant fresh(c) && c.seen == {} && c.memo == ComputeAll(tree, ids[..i])
      invariant (forall k :: k in c.m ==> c.m[k] in menus) && c.Reads(tree)
      invariant forall j :: 0 <= j < i ==> menus[j].id in c.memo && menus[j].path == c.memo[menus[j].id]
    {
      OneMoreListed(tree, ids, i);
      c.SetPath(menus[i], tree);
    }
    assert ids[..|menus|] == ids;
    EndsComputed(tree, ids);
    CutsComputed(tree, ids);
    forall i | 0 <= i < |menus| ensures Ends(tree, menus[i].id) || LeadsToCut(tree, ids, menus[i].id) {
      EndsOrCut(tree, ids, menus[i].id);
    }
  }

  lemma {:induction false} NoneListed(tree: Tree)
    ensures ComputeAll(tree, []) == map[]
  {
  }
}
