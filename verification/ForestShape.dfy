/**
 `Shows` leaves no freedom but the order of siblings: two trees showing the same workers have the same
 shape, so `build_tree` does not depend on the order its rows arrive in.
 */
module ForestShapes {
  import opened Basics
  import opened WorkerForests

  /** A subtree without its sibling order. */
  datatype Shape = Shape(worker: Worker, below: set<Shape>)

  ghost function ShapeOf(node: TreeNode): Shape
    decreases node
  {
    Shape(node.worker, set child | child in node.children :: ShapeOf(child))
  }

  ghost function ShapesOf(nodes: seq<TreeNode>): set<Shape> {
    set node | node in nodes :: ShapeOf(node)
  }

  ghost predicate In(node: TreeNode, root: TreeNode)
    decreases root, 1
  {
    node == root || InSome(node, root.children)
  }

  ghost predicate InSome(node: TreeNode, nodes: seq<TreeNode>)
    decreases nodes, 0
  {
    nodes != [] && (In(node, nodes[0]) || InSome(node, nodes[1..]))
  }

  lemma {:induction false} TopsAreIn(node: TreeNode, nodes: seq<TreeNode>)
    requires node in nodes
    ensures InSome(node, nodes)
  {
    if node != nodes[0] {
      TopsAreIn(node, nodes[1..]);
    }
  }

  lemma {:induction false} ChildrenAreIn(node: TreeNode, child: TreeNode, nodes: seq<TreeNode>)
    requires InSome(node, nodes) && child in node.children
    ensures InSome(child, nodes)
    decreases nodes
  {
    if In(node, nodes[0]) {
      if node == nodes[0] {
        TopsAreIn(child, node.children);
      } else {
        ChildrenAreIn(node, child, nodes[0].children);
      }
    } else {
      ChildrenAreIn(node, child, nodes[1..]);
    }
  }

  lemma {:induction false} InShowsItsMembers(node: TreeNode, nodes: seq<TreeNode>)
    requires InSome(node, nodes)
    ensures Members(node) <= MembersOf(nodes)
    decreases nodes
  {
    if In(node, nodes[0]) {
      if node != nodes[0] {
        InShowsItsMembers(node, nodes[0].children);
      }
    } else {
      InShowsItsMembers(node, nodes[1..]);
    }
  }

  lemma {:induction false} InIsDeclared(node: TreeNode, nodes: seq<TreeNode>)
    requires InSome(node, nodes) && AllDeclared(nodes)
    ensures Declared(node)
    decreases nodes
  {
    assert Declared(nodes[0]);
    if In(node, nodes[0]) {
      if node != nodes[0] {
        InIsDeclared(node, nodes[0].children);
      }
    } else {
      InIsDeclared(node, nodes[1..]);
    }
  }

  lemma InCounts(node: TreeNode, nodes: seq<TreeNode>)
    requires InSome(node, nodes)
    ensures MembersOf(nodes)[node.worker] >= 1
  {
    InShowsItsMembers(node, nodes);
    assert Members(node)[node.worker] >= 1;
  }

  lemma CountsAdd(nodes: seq<TreeNode>, worker: Worker)
    requires nodes != []
    ensures MembersOf(nodes)[worker] == Members(nodes[0])[worker] + MembersOf(nodes[1..])[worker]
    ensures Members(nodes[0])[worker] ==
            (if nodes[0].worker == worker then 1 else 0) + MembersOf(nodes[0].children)[worker]
  {}

  /** Where a worker is shown once, there is one node for it. */
  lemma {:induction false} OneNodePerWorker(a: TreeNode, b: TreeNode, nodes: seq<TreeNode>)
    requires InSome(a, nodes) && InSome(b, nodes) && a.worker == b.worker
    requires MembersOf(nodes)[a.worker] <= 1
    ensures a == b
    decreases nodes
  {
    CountsAdd(nodes, a.worker);
    hide Members, MembersOf;
    var first, rest := nodes[0], nodes[1..];
    if InSome(a, rest) { InCounts(a, rest); }
    if InSome(b, rest) { InCounts(b, rest); }
    if InSome(a, first.children) { InCounts(a, first.children); }
    if InSome(b, first.children) { InCounts(b, first.children); }
    if InSome(a, rest) && InSome(b, rest) {
      OneNodePerWorker(a, b, rest);
    } else if InSome(a, first.children) && InSome(b, first.children) {
      OneNodePerWorker(a, b, first.children);
    }
  }

  /** A worker at the top and below some node would be shown twice. */
  lemma {:induction false} TopAndChildAreTwo(top: TreeNode, node: TreeNode, child: TreeNode, nodes: seq<TreeNode>)
    requires top in nodes && InSome(node, nodes) && child in node.children && top.worker == child.worker
    ensures MembersOf(nodes)[top.worker] >= 2
    decreases nodes
  {
    var first, rest := nodes[0], nodes[1..];
    if In(node, first) {
      ChildIsStrictlyBelow(node, child, first);
      if top != first {
        TopsAreIn(top, rest);
        InShowsItsMembers(top, rest);
      }
    } else if top == first {
      ChildrenAreIn(node, child, rest);
      InShowsItsMembers(child, rest);
    } else {
      TopAndChildAreTwo(top, node, child, rest);
    }
  }

  lemma ChildIsStrictlyBelow(node: TreeNode, child: TreeNode, root: TreeNode)
    requires In(node, root) && child in node.children
    ensures Members(child) <= MembersOf(root.children)
  {
    if node == root {
      TopsAreIn(child, root.children);
    } else {
      ChildrenAreIn(node, child, root.children);
    }
    InShowsItsMembers(child, root.children);
  }

  /** Whoever is shown, but not at the top, is somebody's child. */
  lemma {:induction false} FindParent(worker: Worker, nodes: seq<TreeNode>) returns (parent: TreeNode, child: TreeNode)
    requires MembersOf(nodes)[worker] > 0 && forall node | node in nodes :: node.worker != worker
    ensures InSome(parent, nodes) && child in parent.children && child.worker == worker
    decreases nodes
  {
    var first := nodes[0];
    assert first in nodes;
    if Members(first)[worker] > 0 {
      if i :| 0 <= i < |first.children| && first.children[i].worker == worker {
        return first, first.children[i];
      }
      parent, child := FindParent(worker, first.children);
    } else {
      parent, child := FindParent(worker, nodes[1..]);
    }
  }

  ghost predicate IsChildOf(byId: map<string, Worker>, worker: Worker, parent: Worker) {
    worker.id in byId && byId[worker.id] == worker && !IsRoot(byId, worker) && worker.spawnedBy == Some(parent.id)
  }

  /** The children of a shown worker are exactly the workers under it that are no roots. */
  lemma ChildrenAreExactly(byId: map<string, Worker>, tree: ProjectTree, node: TreeNode)
    requires Indexed(byId) && Shows(byId, tree) && InSome(node, Tops(tree))
    ensures forall child | child in node.children :: IsChildOf(byId, child.worker, node.worker)
    ensures forall w | IsChildOf(byId, w, node.worker) :: exists child :: child in node.children && child.worker == w
  {
    hide IsRoot;
    var tops := Tops(tree);
    ShownWorkersAreKnown(byId, tree, node);
    forall child | child in node.children ensures IsChildOf(byId, child.worker, node.worker) {
      ChildrenAreIn(node, child, tops);
      ShownWorkersAreKnown(byId, tree, child);
      InIsDeclared(node, tops);
      if IsRoot(byId, child.worker) {
        assert child.worker in TopWorkers(tree);
        var top :| top in tops && top.worker == child.worker;
        TopAndChildAreTwo(top, node, child, tops);
      }
    }
    forall w | IsChildOf(byId, w, node.worker)
      ensures exists child :: child in node.children && child.worker == w
    {
      assert w in byId.Values;
      var parent, child := FindParent(w, tops);
      InIsDeclared(parent, tops);
      ShownWorkersAreKnown(byId, tree, parent);
      OneNodePerWorker(parent, node, tops);
    }
  }

  lemma ShownWorkersAreKnown(byId: map<string, Worker>, tree: ProjectTree, node: TreeNode)
    requires Indexed(byId) && Shows(byId, tree) && InSome(node, Tops(tree))
    ensures node.worker.id in byId && byId[node.worker.id] == node.worker
    ensures MembersOf(Tops(tree))[node.worker] == 1
  {
    hide IsRoot, AllDeclared;
    InShowsItsMembers(node, Tops(tree));
    assert node.worker in Members(node);
    assert node.worker in byId.Values;
  }

  /** Two trees that show the same workers show the same subtree below each of them. */
  lemma {:induction false} SubtreesAreDetermined(
    byId: map<string, Worker>, one: ProjectTree, other: ProjectTree, a: TreeNode, b: TreeNode)
    requires Indexed(byId) && Shows(byId, one) && Shows(byId, other)
    requires InSome(a, Tops(one)) && InSome(b, Tops(other)) && a.worker == b.worker
    ensures ShapeOf(a) == ShapeOf(b)
    decreases a
  {
    hide Shows, InSome, IsChildOf;
    ChildrenAreExactly(byId, one, a);
    ChildrenAreExactly(byId, other, b);
    forall x | x in a.children ensures exists y :: y in b.children && ShapeOf(y) == ShapeOf(x) {
      var y :| y in b.children && y.worker == x.worker;
      ChildrenAreIn(a, x, Tops(one));
      ChildrenAreIn(b, y, Tops(other));
      SubtreesAreDetermined(byId, one, other, x, y);
    }
    forall y | y in b.children ensures exists x :: x in a.children && ShapeOf(x) == ShapeOf(y) {
      var x :| x in a.children && x.worker == y.worker;
      ChildrenAreIn(a, x, Tops(one));
      ChildrenAreIn(b, y, Tops(other));
      SubtreesAreDetermined(byId, one, other, x, y);
    }
  }

  /** The same for the two top levels, kind by kind. */
  lemma TreesAreDetermined(byId: map<string, Worker>, one: ProjectTree, other: ProjectTree)
    requires Indexed(byId) && Shows(byId, one) && Shows(byId, other)
    ensures ShapesOf(one.coordinators) == ShapesOf(other.coordinators)
    ensures ShapesOf(one.workers) == ShapesOf(other.workers)
  {
    forall a | a in Tops(one) ensures exists b :: b in Tops(other) && b.worker == a.worker && ShapeOf(b) == ShapeOf(a) {
      var b := SameTop(byId, one, other, a);
    }
    forall b | b in Tops(other) ensures exists a :: a in Tops(one) && a.worker == b.worker && ShapeOf(a) == ShapeOf(b) {
      var a := SameTop(byId, other, one, b);
    }
    ShapesByKind(one, other);
    ShapesByKind(other, one);
  }

  lemma SameTop(byId: map<string, Worker>, one: ProjectTree, other: ProjectTree, a: TreeNode) returns (b: TreeNode)
    requires Indexed(byId) && Shows(byId, one) && Shows(byId, other) && a in Tops(one)
    ensures b in Tops(other) && b.worker == a.worker && ShapeOf(b) == ShapeOf(a)
  {
    TopsAreIn(a, Tops(one));
    ShownWorkersAreKnown(byId, one, a);
    assert a.worker in TopWorkers(other);
    b :| b in Tops(other) && b.worker == a.worker;
    TopsAreIn(b, Tops(other));
    SubtreesAreDetermined(byId, one, other, a, b);
  }

  lemma ShapesByKind(one: ProjectTree, other: ProjectTree)
    requires forall a | a in Tops(one) :: exists b :: b in Tops(other) && b.worker == a.worker && ShapeOf(b) == ShapeOf(a)
    requires forall t | t in [one, other] :: forall node | node in t.coordinators :: IsCoordinator(node.worker)
    requires forall t | t in [one, other] :: forall node | node in t.workers :: !IsCoordinator(node.worker)
    ensures ShapesOf(one.coordinators) <= ShapesOf(other.coordinators)
    ensures ShapesOf(one.workers) <= ShapesOf(other.workers)
  {}

  /** The order in which the rows arrive decides nothing but the order of siblings. */
  lemma InputOrderIsIrrelevant(one: seq<Worker>, other: seq<Worker>, a: ProjectTree, b: ProjectTree)
    requires UniqueIds(one) && UniqueIds(other) && multiset(one) == multiset(other)
    requires Shows(ById(one), a) && Shows(ById(other), b)
    ensures ShapesOf(a.coordinators) == ShapesOf(b.coordinators)
    ensures ShapesOf(a.workers) == ShapesOf(b.workers)
  {
    hide Shows, ShapesOf;
    ByIdIndexes(one);
    ByIdIndexes(other);
    forall w ensures w in one <==> w in other {
      assert w in one <==> w in multiset(one);
      assert w in other <==> w in multiset(other);
    }
    assert ById(one) == ById(other);
    TreesAreDetermined(ById(one), a, b);
  }
}
