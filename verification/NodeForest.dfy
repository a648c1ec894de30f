/** Building a forest from a flat list: pkg/localdeps/go-crud/pagination/tree.go:35-79. */
module NodeForest {
  import opened Basics

  class Node {
    /** 0 stands for the zero value of the id type. */
    const id: nat
    const parentId: nat
    var children: seq<Node>

    constructor (id: nat, parentId: nat)
      ensures this.id == id && this.parentId == parentId && children == []
    {
      this.id, this.parentId, this.children := id, parentId, [];
    }
  }

  // ---------- The forest, as functions of the list ----------

  /** The node that children naming this id go to: the last one listed with it. */
  function Owner(nodes: seq<Node?>, id: nat): Option<Node> {
    if nodes == [] then None
    else
      var last := nodes[|nodes| - 1];
      if last != null && last.id == id && id != 0 then Some(last) else Owner(nodes[..|nodes| - 1], id)
  }

  predicate IsRoot(n: Node) {
    n.parentId == 0
  }

  predicate IsChild(nodes: seq<Node?>, n: Node, parent: Node) {
    n.parentId != 0 && Owner(nodes, n.parentId) == Some(parent)
  }

  function RootsOf(part: seq<Node?>): seq<Node> {
    if part == [] then []
    else
      var last := part[|part| - 1];
      RootsOf(part[..|part| - 1]) + if last != null && IsRoot(last) then [last] else []
  }

  /** The children of n among part, in the order of part. */
  function ChildrenAmong(nodes: seq<Node?>, part: seq<Node?>, n: Node): seq<Node> {
    if part == [] then []
    else
      var last := part[|part| - 1];
      ChildrenAmong(nodes, part[..|part| - 1], n)
      + if last != null && IsChild(nodes, last, n) then [last] else []
  }

  function ChildrenOf(nodes: seq<Node?>, n: Node): seq<Node> {
    ChildrenAmong(nodes, nodes, n)
  }

  // ---------- The code ----------

  ghost predicate IsIndex(byId: map<nat, Node>, nodes: seq<Node?>) {
    forall id :: (if id in byId then Some(byId[id]) else None) == Owner(nodes, id)
  }

  method BuildTreeConstraint(nodes: seq<Node?>) returns (rootNodes: seq<Node>)
    modifies set n | n in nodes && n != null
    ensures rootNodes == RootsOf(nodes)
    ensures forall n: Node :: n in nodes ==> n.children == old(n.children) + ChildrenOf(nodes, n)
  {
    if |nodes| == 0 {
      return [];
    }
    var nodeMap: map<nat, Node> := map[];
    for i := 0 to |nodes|
      invariant IsIndex(nodeMap, nodes[..i])
    {
      assert nodes[..i + 1][..i] == nodes[..i];
      if nodes[i] != null && nodes[i].id != 0 {
        nodeMap := nodeMap[nodes[i].id := nodes[i]];
      }
    }
    assert nodes[..|nodes|] == nodes;
    rootNodes := [];
    for i := 0 to |nodes|
      invariant rootNodes == RootsOf(nodes[..i])
      invariant forall n: Node :: n in nodes ==>
                  n.children == old(n.children) + ChildrenAmong(nodes, nodes[..i], n)
    {
      assert nodes[..i + 1][..i] == nodes[..i];
      var node := nodes[i];
      if node != null {
        if node.parentId == 0 {
          rootNodes := rootNodes + [node];
        } else if node.parentId in nodeMap {
          var parent := nodeMap[node.parentId];
          OwnerIsListed(nodes, node.parentId);
          parent.children := parent.children + [node];
        }
      }
    }
  }

  lemma {:induction false} OwnerIsListed(nodes: seq<Node?>, id: nat)
    ensures Owner(nodes, id).Some? ==> Owner(nodes, id).value in nodes && Owner(nodes, id).value.id == id != 0
  {
    if nodes != [] {
      OwnerIsListed(nodes[..|nodes| - 1], id);
    }
  }

  /** n is listed at i, and no later node has the id. */
  predicate LastAt(nodes: seq<Node?>, id: nat, n: Node, i: nat) {
    && i < |nodes| && nodes[i] == n
    && forall j: nat :: i < j < |nodes| && nodes[j] != null ==> nodes[j].id != id
  }

  /** Of several nodes with one id, the last in the list takes the children. */
  lemma {:induction false} OwnerIff(nodes: seq<Node?>, id: nat, n: Node)
    ensures Owner(nodes, id) == Some(n) <==> id != 0 && n.id == id && exists i :: LastAt(nodes, id, n, i)
  {
    if nodes != [] {
      var last := |nodes| - 1;
      OwnerIff(nodes[..last], id, n);
      forall i: nat | n.id == id
        ensures LastAt(nodes, id, n, i) <==>
          if nodes[last] != null && nodes[last].id == id then i == last && nodes[last] == n
          else LastAt(nodes[..last], id, n, i)
      {
        LastOfMore(nodes, id, n, i);
      }
      hide LastAt;
      assert n.id == id && nodes[last] == n ==> LastAt(nodes, id, n, last);
    }
  }

  lemma {:induction false} LastOfMore(nodes: seq<Node?>, id: nat, n: Node, i: nat)
    requires nodes != [] && n.id == id
    ensures var last := |nodes| - 1;
      LastAt(nodes, id, n, i) <==>
      if nodes[last] != null && nodes[last].id == id then i == last && nodes[last] == n
      else LastAt(nodes[..last], id, n, i)
  {
    var start := nodes[..|nodes| - 1];
    assert forall j :: 0 <= j < |start| ==> start[j] == nodes[j];
  }

  // ---------- Places in the forest ----------

  /** The node found by going down from a list of siblings: first by position among them, then by
      position among the children, and so on. */
  function Find(nodes: seq<Node?>, level: seq<Node>, place: seq<nat>): Option<Node>
    requires place != []
    decreases |place|
  {
    if place[0] >= |level| then None
    else if |place| == 1 then Some(level[place[0]])
    else Find(nodes, ChildrenOf(nodes, level[place[0]]), place[1..])
  }

  function At(nodes: seq<Node?>, place: seq<nat>): Option<Node>
    requires place != []
  {
    Find(nodes, RootsOf(nodes), place)
  }

  /** The same on the objects, as a caller of BuildTreeConstraint walks them. */
  function Walk(level: seq<Node>, place: seq<nat>, all: set<Node>): Option<Node>
    requires place != []
    reads all
    decreases |place|
  {
    if place[0] >= |level| then None
    else if |place| == 1 then Some(level[place[0]])
    else if level[place[0]] !in all then None
    else Walk(level[place[0]].children, place[1..], all)
  }

  lemma {:induction false} RootsListed(part: seq<Node?>, n: Node)
    ensures n in RootsOf(part) <==> n in part && IsRoot(n)
  {
    if part != [] {
      assert part == part[..|part| - 1] + [part[|part| - 1]];
      RootsListed(part[..|part| - 1], n);
    }
  }

  lemma {:induction false} ChildrenListed(nodes: seq<Node?>, part: seq<Node?>, parent: Node, n: Node)
    ensures n in ChildrenAmong(nodes, part, parent) <==> n in part && IsChild(nodes, n, parent)
  {
    if part != [] {
      assert part == part[..|part| - 1] + [part[|part| - 1]];
      ChildrenListed(nodes, part[..|part| - 1], parent, n);
    }
  }

  /** What the caller finds by walking is what the functions say, when no node had children before. */
  lemma {:induction false} WalkIsFind(nodes: seq<Node?>, level: seq<Node>, place: seq<nat>, all: set<Node>)
    requires forall n: Node :: n in nodes ==> n in all && n.children == ChildrenOf(nodes, n)
    requires forall n :: n in level ==> n in nodes
    requires place != []
    ensures Walk(level, place, all) == Find(nodes, level, place)
    decreases |place|
  {
    if place[0] < |level| && |place| > 1 {
      var n := level[place[0]];
      forall k | k in n.children ensures k in nodes {
        ChildrenListed(nodes, nodes, n, k);
      }
      WalkIsFind(nodes, n.children, place[1..], all);
    }
  }

  lemma {:induction false} FindLast(nodes: seq<Node?>, level: seq<Node>, place: seq<nat>)
    requires |place| > 1
    ensures var above, i := Find(nodes, level, place[..|place| - 1]), place[|place| - 1];
            Find(nodes, level, place) ==
              if above.Some? && i < |ChildrenOf(nodes, above.value)|
              then Some(ChildrenOf(nodes, above.value)[i]) else None
    decreases |place|
  {
    if place[0] < |level| && |place| > 2 {
      assert place[1..][..|place| - 2] == place[..|place| - 1][1..];
      FindLast(nodes, ChildrenOf(nodes, level[place[0]]), place[1..]);
    }
  }

  // ---------- Who occurs, where, and how often ----------

  /** From a listed root down to a node, each listed and owned by the one before. */
  ghost predicate IsLineage(nodes: seq<Node?>, older line: seq<Node>) {
    && line != [] && IsRoot(line[0])
    && (forall i :: 0 <= i < |line| ==> line[i] in nodes)
    && (forall i :: 0 < i < |line| ==> IsChild(nodes, line[i], line[i - 1]))
  }

  ghost predicate Rooted(nodes: seq<Node?>, n: Node) {
    exists line: seq<Node> :: IsLineage(nodes, line) && line[|line| - 1] == n
  }

  lemma {:induction false} FoundHasLineage(nodes: seq<Node?>, place: seq<nat>) returns (line: seq<Node>)
    requires place != [] && At(nodes, place).Some?
    ensures IsLineage(nodes, line) && |line| == |place| && line[|line| - 1] == At(nodes, place).value
    decreases |place|
  {
    var n := At(nodes, place).value;
    if |place| == 1 {
      RootsListed(nodes, n);
      line := [n];
    } else {
      FindLast(nodes, RootsOf(nodes), place);
      var above := FoundHasLineage(nodes, place[..|place| - 1]);
      ChildrenListed(nodes, nodes, above[|above| - 1], n);
      line := above + [n];
    }
  }

  lemma {:induction false} LineageIsFound(nodes: seq<Node?>, line: seq<Node>) returns (place: seq<nat>)
    requires IsLineage(nodes, line)
    ensures |place| == |line| && At(nodes, place) == Some(line[|line| - 1])
    decreases |line|
  {
    var n := line[|line| - 1];
    if |line| == 1 {
      RootsListed(nodes, n);
      var i :| 0 <= i < |RootsOf(nodes)| && RootsOf(nodes)[i] == n;
      place := [i];
    } else {
      var above := LineageIsFound(nodes, line[..|line| - 1]);
      var parent := line[|line| - 2];
      ChildrenListed(nodes, nodes, parent, n);
      var i :| 0 <= i < |ChildrenOf(nodes, parent)| && ChildrenOf(nodes, parent)[i] == n;
      place := above + [i];
      FindLast(nodes, RootsOf(nodes), place);
      assert place[..|place| - 1] == above;
    }
  }

  /** A node occurs in the forest exactly when its parent chain reaches a listed root: nodes with a
      missing ancestor, and nodes on or below a cycle, do not. */
  lemma {:induction false} OccursIffRooted(nodes: seq<Node?>, n: Node)
    ensures (exists place: seq<nat> :: place != [] && At(nodes, place) == Some(n)) <==> Rooted(nodes, n)
  {
    if place: seq<nat> :| place != [] && At(nodes, place) == Some(n) {
      var line := FoundHasLineage(nodes, place);
    }
    if Rooted(nodes, n) {
      var line: seq<Node> :| IsLineage(nodes, line) && line[|line| - 1] == n;
      var place := LineageIsFound(nodes, line);
    }
  }

  /** No node is listed twice. */
  ghost predicate NoneTwice(nodes: seq<Node?>) {
    forall i, j :: 0 <= i < j < |nodes| && nodes[i] != null ==> nodes[i] != nodes[j]
  }

  ghost predicate Distinct(level: seq<Node>) {
    forall i, j :: 0 <= i < j < |level| ==> level[i] != level[j]
  }

  lemma {:induction false} RootsDistinct(part: seq<Node?>)
    requires NoneTwice(part)
    ensures Distinct(RootsOf(part))
  {
    if part != [] {
      var k := |part| - 1;
      RootsDistinct(part[..k]);
      if part[k] != null {
        RootsListed(part[..k], part[k]);
      }
    }
  }

  lemma {:induction false} ChildrenDistinct(nodes: seq<Node?>, part: seq<Node?>, parent: Node)
    requires NoneTwice(part)
    ensures Distinct(ChildrenAmong(nodes, part, parent))
  {
    if part != [] {
      var k := |part| - 1;
      ChildrenDistinct(nodes, part[..k], parent);
      if part[k] != null {
        ChildrenListed(nodes, part[..k], parent, part[k]);
      }
    }
  }

  lemma {:induction false} LineageIsUnique(nodes: seq<Node?>, a: seq<Node>, b: seq<Node>)
    requires IsLineage(nodes, a) && IsLineage(nodes, b) && a[|a| - 1] == b[|b| - 1]
    ensures a == b
    decreases |a|
  {
    var n, k := |a| - 1, |b| - 1;
    assert n > 0 ==> IsChild(nodes, a[n], a[n - 1]);
    assert k > 0 ==> IsChild(nodes, b[k], b[k - 1]);
    if n > 0 {
      LineageIsUnique(nodes, a[..n], b[..k]);
      assert a == a[..n] + [a[n]] && b == b[..k] + [b[k]];
    }
  }

  /** A node occurs at most once. */
  lemma {:induction false} OccursOnce(nodes: seq<Node?>, p: seq<nat>, q: seq<nat>)
    requires NoneTwice(nodes) && p != [] && q != []
    requires At(nodes, p).Some? && At(nodes, p) == At(nodes, q)
    ensures p == q
    decreases |p|
  {
    var line := FoundHasLineage(nodes, p);
    var other := FoundHasLineage(nodes, q);
    LineageIsUnique(nodes, line, other);
    var n := |p| - 1;
    if n == 0 {
      RootsDistinct(nodes);
    } else {
      FindLast(nodes, RootsOf(nodes), p);
      FindLast(nodes, RootsOf(nodes), q);
      assert At(nodes, p[..n]).value == At(nodes, q[..n]).value by {
        ParentFound(nodes, p, line);
        ParentFound(nodes, q, line);
      }
      OccursOnce(nodes, p[..n], q[..n]);
      ChildrenDistinct(nodes, nodes, line[n - 1]);
      ParentFound(nodes, p, line);
      assert p == p[..n] + [p[n]] && q == q[..n] + [q[n]];
    }
  }

  /** A node stands under its own parent. */
  lemma {:induction false} ParentFound(nodes: seq<Node?>, place: seq<nat>, line: seq<Node>)
    requires |place| > 1 && |line| == |place| && IsLineage(nodes, line)
    requires At(nodes, place) == Some(line[|line| - 1])
    ensures At(nodes, place[..|place| - 1]) == Some(line[|line| - 2])
  {
    FindLast(nodes, RootsOf(nodes), place);
    var above := At(nodes, place[..|place| - 1]).value;
    ChildrenListed(nodes, nodes, above, line[|line| - 1]);
  }

  /** Siblings stand in the order in which they are listed. */
  lemma {:induction false} SiblingsInOrder(nodes: seq<Node?>, part: seq<Node?>, parent: Node, i: nat, j: nat)
    returns (x: nat, y: nat)
    requires i < j < |part| && part[i] != null && part[j] != null
    requires IsChild(nodes, part[i], parent) && IsChild(nodes, part[j], parent)
    ensures var kids := ChildrenAmong(nodes, part, parent);
            x < y < |kids| && kids[x] == part[i] && kids[y] == part[j]
    decreases |part|
  {
    var k := |part| - 1;
    if j < k {
      x, y := SiblingsInOrder(nodes, part[..k], parent, i, j);
    } else {
      ChildrenListed(nodes, part[..k], parent, part[i]);
      assert part[..k][i] == part[i];
      x :| 0 <= x < |ChildrenAmong(nodes, part[..k], parent)|
           && ChildrenAmong(nodes, part[..k], parent)[x] == part[i];
      y := |ChildrenAmong(nodes, part[..k], parent)|;
    }
  }
}
