/** With the order of siblings, nothing is left open: there is one tree for every list of workers. */
module SiblingOrders {
  import opened WorkerForests
  import opened ForestShapes

  /** Two arrangements of the same workers under one asymmetric order are the same. */
  lemma {:induction false} OneArrangement(before: (Worker, Worker) -> bool, a: seq<Worker>, b: seq<Worker>)
    requires forall i, j | 0 <= i < j < |a| :: before(a[i], a[j]) && a[i] != a[j]
    requires forall i, j | 0 <= i < j < |b| :: before(b[i], b[j]) && b[i] != b[j]
    requires forall w :: w in a <==> w in b
    requires forall v, w | v in a && w in a && before(v, w) :: !before(w, v)
    ensures a == b
    decreases |a|
  {
    if b != [] {
      assert b[0] in b && b[0] in a;
    }
    if a != [] {
      assert a[0] in b && b != [] && b[0] in a;
      var i :| 0 <= i < |b| && b[i] == a[0];
      var j :| 0 <= j < |a| && a[j] == b[0];
      assert a[0] == b[0];
      forall w ensures w in a[1..] <==> w in b[1..] {
        assert w in a <==> w == a[0] || w in a[1..];
        assert w in b <==> w == b[0] || w in b[1..];
      }
      OneArrangement(before, a[1..], b[1..]);
    }
  }

  lemma PrecedesIsAsymmetric(workers: seq<Worker>, a: Worker, b: Worker)
    requires UniqueIds(workers) && Precedes(workers, a, b)
    ensures !Precedes(workers, b, a) && a != b
  {}

  lemma TopBeforeIsAsymmetric(workers: seq<Worker>, byId: map<string, Worker>, a: Worker, b: Worker)
    requires UniqueIds(workers) && TopBefore(workers, byId, a, b)
    ensures !TopBefore(workers, byId, b, a) && a != b
  {
    if HasController(byId, a) {
      BeforeIsTotal(a, b);
    } else if !HasController(byId, b) {
      PrecedesIsAsymmetric(workers, a, b);
    }
  }

  lemma SameSiblings(workers: seq<Worker>, a: seq<Worker>, b: seq<Worker>)
    requires UniqueIds(workers) && InputOrder(workers, a) && InputOrder(workers, b)
    requires forall w :: w in a <==> w in b
    ensures a == b
  {
    forall v, w | Precedes(workers, v, w) ensures !Precedes(workers, w, v) && v != w {
      PrecedesIsAsymmetric(workers, v, w);
    }
    var before := (v: Worker, w: Worker) => Precedes(workers, v, w);
    hide Precedes;
    OneArrangement(before, a, b);
  }

  lemma SameTops(workers: seq<Worker>, byId: map<string, Worker>, a: seq<Worker>, b: seq<Worker>)
    requires UniqueIds(workers) && TopOrder(workers, byId, a) && TopOrder(workers, byId, b)
    requires forall w :: w in a <==> w in b
    ensures a == b
  {
    forall v, w | TopBefore(workers, byId, v, w) ensures !TopBefore(workers, byId, w, v) && v != w {
      TopBeforeIsAsymmetric(workers, byId, v, w);
    }
    var before := (v: Worker, w: Worker) => TopBefore(workers, byId, v, w);
    hide TopBefore;
    OneArrangement(before, a, b);
  }

  lemma {:induction false} SameSubtrees(
    workers: seq<Worker>, byId: map<string, Worker>, one: ProjectTree, other: ProjectTree, a: TreeNode, b: TreeNode)
    requires UniqueIds(workers) && Indexed(byId) && Shows(byId, one) && Shows(byId, other)
    requires InSome(a, Tops(one)) && InSome(b, Tops(other)) && a.worker == b.worker
    requires Arranged(workers, a) && Arranged(workers, b)
    ensures a == b
    decreases a
  {
    hide Shows, InSome, IsChildOf, InputOrder;
    ChildrenAreExactly(byId, one, a);
    ChildrenAreExactly(byId, other, b);
    var left, right := WorkersOf(a.children), WorkersOf(b.children);
    forall w ensures w in left <==> w in right {
      ChildWorkers(a.children, w);
      ChildWorkers(b.children, w);
    }
    SameSiblings(workers, left, right);
    forall k | 0 <= k < |a.children| ensures a.children[k] == b.children[k] {
      assert left[k] == right[k];
      ChildrenAreIn(a, a.children[k], Tops(one));
      ChildrenAreIn(b, b.children[k], Tops(other));
      SameSubtrees(workers, byId, one, other, a.children[k], b.children[k]);
    }
    assert a.children == b.children;
  }

  lemma ChildWorkers(nodes: seq<TreeNode>, worker: Worker)
    ensures worker in WorkersOf(nodes) <==> exists node :: node in nodes && node.worker == worker
  {
    if worker in WorkersOf(nodes) {
      var k :| 0 <= k < |nodes| && WorkersOf(nodes)[k] == worker;
      assert nodes[k] in nodes;
    }
    if node :| node in nodes && node.worker == worker {
      var k :| 0 <= k < |nodes| && nodes[k] == node;
      assert WorkersOf(nodes)[k] == worker;
    }
  }

  lemma SameLevel(
    workers: seq<Worker>, byId: map<string, Worker>, one: ProjectTree, other: ProjectTree,
    a: seq<TreeNode>, b: seq<TreeNode>)
    requires UniqueIds(workers) && Indexed(byId) && Shows(byId, one) && Shows(byId, other)
    requires (forall node | node in a :: node in Tops(one)) && (forall node | node in b :: node in Tops(other))
    requires TopOrder(workers, byId, WorkersOf(a)) && TopOrder(workers, byId, WorkersOf(b))
    requires (forall node | node in a :: Arranged(workers, node)) && (forall node | node in b :: Arranged(workers, node))
    requires forall w :: w in WorkersOf(a) <==> w in WorkersOf(b)
    ensures a == b
  {
    hide Shows, TopOrder, Arranged;
    SameTops(workers, byId, WorkersOf(a), WorkersOf(b));
    forall k | 0 <= k < |a| ensures a[k] == b[k] {
      assert WorkersOf(a)[k] == WorkersOf(b)[k];
      TopsAreIn(a[k], Tops(one));
      TopsAreIn(b[k], Tops(other));
      SameSubtrees(workers, byId, one, other, a[k], b[k]);
    }
  }

  /** A worker's node stands at the top, among those of its kind, exactly if the worker is a root. */
  lemma TopsByKind(byId: map<string, Worker>, tree: ProjectTree, w: Worker)
    requires Indexed(byId) && Shows(byId, tree)
    ensures w in WorkersOf(tree.coordinators) <==> w in byId.Values && IsRoot(byId, w) && IsCoordinator(w)
    ensures w in WorkersOf(tree.workers) <==> w in byId.Values && IsRoot(byId, w) && !IsCoordinator(w)
  {
    hide IsRoot, IsCoordinator, AllDeclared;
    ChildWorkers(tree.coordinators, w);
    ChildWorkers(tree.workers, w);
    assert forall node :: node in Tops(tree) <==> node in tree.coordinators || node in tree.workers;
    if node :| node in Tops(tree) && node.worker == w {
      TopsAreIn(node, Tops(tree));
      ShownWorkersAreKnown(byId, tree, node);
    }
    if w in byId.Values && IsRoot(byId, w) {
      assert w in TopWorkers(tree);
    }
  }

  /** Every list of workers has exactly one tree that shows it in order; `build_tree` yields it. */
  lemma TheTreeIsDetermined(workers: seq<Worker>, one: ProjectTree, other: ProjectTree)
    requires UniqueIds(workers)
    requires Shows(ById(workers), one) && InOrder(workers, ById(workers), one)
    requires Shows(ById(workers), other) && InOrder(workers, ById(workers), other)
    ensures one == other
  {
    var byId := ById(workers);
    ByIdIndexes(workers);
    hide Shows, ById, TopOrder, Arranged, IsRoot, IsCoordinator;
    forall w ensures w in WorkersOf(one.coordinators) <==> w in WorkersOf(other.coordinators)
             ensures w in WorkersOf(one.workers) <==> w in WorkersOf(other.workers) {
      TopsByKind(byId, one, w);
      TopsByKind(byId, other, w);
    }
    SameLevel(workers, byId, one, other, one.coordinators, other.coordinators);
    SameLevel(workers, byId, one, other, one.workers, other.workers);
  }
}
