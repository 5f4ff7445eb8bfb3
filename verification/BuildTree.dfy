/** `build_tree`: folding a flat worker list into the hierarchy its `spawned_by` fields declare. */
module BuildTrees {
  import opened Basics
  import opened WorkerForests
  import Text

  /** `childrenOf` files every worker that has a controller under it. */
  ghost predicate FilesChildren(byId: map<string, Worker>, childrenOf: map<string, seq<Worker>>) {
    && (forall p, c | p in childrenOf && c in childrenOf[p] ::
          c.id in byId && byId[c.id] == c && Up(byId, c.id) == Some(p))
    && (forall id | id in byId && Up(byId, id).Some? ::
          Up(byId, id).value in childrenOf && byId[id] in childrenOf[Up(byId, id).value])
  }

  /** The workers behind a set of ids. */
  ghost function Slice(byId: map<string, Worker>, ids: set<string>): multiset<Worker> {
    multiset(set id | id in ids && id in byId :: byId[id])
  }

  lemma SliceOfDisjoint(byId: map<string, Worker>, a: set<string>, b: set<string>)
    requires Indexed(byId) && a !! b
    ensures Slice(byId, a + b) == Slice(byId, a) + Slice(byId, b)
  {
    var left := set id | id in a && id in byId :: byId[id];
    var right := set id | id in b && id in byId :: byId[id];
    assert left !! right;
    assert (set id | id in a + b && id in byId :: byId[id]) == left + right;
  }

  lemma SliceOfOne(byId: map<string, Worker>, id: string)
    requires Indexed(byId) && id in byId
    ensures Slice(byId, {id}) == multiset{byId[id]}
  {
    assert (set x | x in {id} && x in byId :: byId[x]) == {byId[id]};
  }

  /** Everyone whose controller is in `upper` is in `visited`. */
  ghost predicate Covers(byId: map<string, Worker>, visited: set<string>, upper: set<string>) {
    forall id | id in byId && Up(byId, id).Some? && Up(byId, id).value in upper :: id in visited
  }

  /** What emitting a worker adds to `before`: a subtree showing exactly the new workers, all below it. */
  ghost predicate Emits(
    byId: map<string, Worker>, before: set<string>, worker: Worker, node: TreeNode, after: set<string>)
  {
    && before <= after && after - before <= byId.Keys
    && worker.id in after - before
    && node.worker == worker
    && Members(node) == Slice(byId, after - before)
    && Declared(node)
    && (forall id | id in after - before :: Reaches(byId, id, worker.id))
    && Covers(byId, after, after - before)
  }

  /** The loop of `NodeOf` after its first `i` declared children. */
  ghost predicate Emitting(
    byId: map<string, Worker>, before: set<string>, worker: Worker, declared: seq<Worker>, i: nat,
    children: seq<TreeNode>, after: set<string>)
  {
    var below := after - before - {worker.id};
    && i <= |declared|
    && before <= after && after - before <= byId.Keys && worker.id in after - before
    && MembersOf(children) == Slice(byId, below)
    && (forall child | child in children :: child.worker in declared && Declared(child))
    && (forall id | id in below :: Reaches(byId, id, worker.id))
    && Covers(byId, after, below)
    && (forall j | 0 <= j < i :: declared[j].id in after)
  }

  /** `declared` lists exactly the workers whose controller is `worker`. */
  ghost predicate DeclaredUnder(byId: map<string, Worker>, worker: Worker, declared: seq<Worker>) {
    && (forall c | c in declared :: c.id in byId && byId[c.id] == c && Up(byId, c.id) == Some(worker.id))
    && (forall id | id in byId && Up(byId, id) == Some(worker.id) :: byId[id] in declared)
  }

  lemma EmittingStarts(byId: map<string, Worker>, before: set<string>, worker: Worker, declared: seq<Worker>)
    requires worker.id in byId && worker.id !in before
    ensures Emitting(byId, before, worker, declared, 0, [], before + {worker.id})
  {
    assert before + {worker.id} - before - {worker.id} == {};
  }

  lemma EmittingGoesOn(
    byId: map<string, Worker>, before: set<string>, worker: Worker, declared: seq<Worker>, i: nat,
    children: seq<TreeNode>, middle: set<string>, sub: TreeNode, after: set<string>)
    requires Indexed(byId) && DeclaredUnder(byId, worker, declared) && i < |declared|
    requires Emitting(byId, before, worker, declared, i, children, middle)
    requires Emits(byId, middle, declared[i], sub, after)
    ensures Emitting(byId, before, worker, declared, i + 1, children + [sub], after)
  {
    var child, below, new_ := declared[i], middle - before - {worker.id}, after - middle;
    assert after - before - {worker.id} == below + new_;
    MembersOfConcat(children, [sub]);
    SliceOfDisjoint(byId, below, new_);
    assert UpBy(byId, child.id, 1) == Some(worker.id) by {
      assert UpBy(byId, worker.id, 0) == Some(worker.id);
    }
    forall id | id in new_ ensures Reaches(byId, id, worker.id) {
      ReachesIsTransitive(byId, id, child.id, worker.id);
    }
  }

  lemma EmittingEnds(
    byId: map<string, Worker>, before: set<string>, worker: Worker, declared: seq<Worker>,
    children: seq<TreeNode>, after: set<string>)
    requires Indexed(byId) && DeclaredUnder(byId, worker, declared)
    requires worker.id in byId && byId[worker.id] == worker
    requires Emitting(byId, before, worker, declared, |declared|, children, after)
    ensures Emits(byId, before, worker, TreeNode(worker, children), after)
  {
    var below := after - before - {worker.id};
    assert after - before == {worker.id} + below;
    SliceOfOne(byId, worker.id);
    SliceOfDisjoint(byId, {worker.id}, below);
    assert UpBy(byId, worker.id, 0) == Some(worker.id);
    forall c | c in declared ensures c.id in after {
      var j :| 0 <= j < |declared| && declared[j] == c;
    }
  }

  lemma EmittingSkips(
    byId: map<string, Worker>, before: set<string>, worker: Worker, declared: seq<Worker>, i: nat,
    children: seq<TreeNode>, after: set<string>)
    requires i < |declared| && declared[i].id in after
    requires Emitting(byId, before, worker, declared, i, children, after)
    ensures Emitting(byId, before, worker, declared, i + 1, children, after)
  {}

  lemma EmitsIts(byId: map<string, Worker>, before: set<string>, worker: Worker, node: TreeNode, after: set<string>)
    requires Emits(byId, before, worker, node, after)
    ensures node.worker == worker && before <= after
  {}

  /** The children so far stem from the first `i` declared ones, in their order. */
  ghost predicate Arranging(workers: seq<Worker>, declared: seq<Worker>, i: nat, children: seq<TreeNode>) {
    && i <= |declared|
    && InputOrder(workers, WorkersOf(children))
    && (forall child | child in children :: Arranged(workers, child))
    && forall k | 0 <= k < |children| :: children[k].worker in declared[..i]
  }

  lemma ArrangingStarts(workers: seq<Worker>, declared: seq<Worker>)
    ensures Arranging(workers, declared, 0, [])
  {}

  lemma ArrangingEnds(workers: seq<Worker>, declared: seq<Worker>, worker: Worker, children: seq<TreeNode>)
    requires Arranging(workers, declared, |declared|, children)
    ensures Arranged(workers, TreeNode(worker, children))
  {}

  lemma ArrangingSkips(workers: seq<Worker>, declared: seq<Worker>, i: nat, children: seq<TreeNode>)
    requires Arranging(workers, declared, i, children) && i < |declared|
    ensures Arranging(workers, declared, i + 1, children)
  {
    hide InputOrder, Arranged;
    assert declared[..i + 1] == declared[..i] + [declared[i]];
  }

  lemma ArrangingGoesOn(workers: seq<Worker>, declared: seq<Worker>, i: nat, children: seq<TreeNode>, sub: TreeNode)
    requires Arranging(workers, declared, i, children) && i < |declared| && InputOrder(workers, declared)
    requires sub.worker == declared[i] && Arranged(workers, sub)
    ensures Arranging(workers, declared, i + 1, children + [sub])
  {
    hide Arranged, Precedes;
    assert declared[..i + 1] == declared[..i] + [declared[i]];
    var picked := WorkersOf(children + [sub]);
    forall a, b | 0 <= a < b < |picked| ensures Precedes(workers, picked[a], picked[b]) {
      if b < |children| {
        assert picked[a] == WorkersOf(children)[a] && picked[b] == WorkersOf(children)[b];
      } else {
        assert children[a].worker in declared[..i];
        var k :| 0 <= k < i && declared[k] == picked[a];
      }
    }
  }

  ghost predicate AllInOrder(workers: seq<Worker>, childrenOf: map<string, seq<Worker>>) {
    forall p | p in childrenOf :: InputOrder(workers, childrenOf[p])
  }

  lemma FiledUnder(
    workers: seq<Worker>, byId: map<string, Worker>, childrenOf: map<string, seq<Worker>>, worker: Worker)
    requires FilesChildren(byId, childrenOf) && AllInOrder(workers, childrenOf)
    ensures var declared := if worker.id in childrenOf then childrenOf[worker.id] else [];
            DeclaredUnder(byId, worker, declared) && InputOrder(workers, declared)
  {
    hide InputOrder, Up;
    var declared := if worker.id in childrenOf then childrenOf[worker.id] else [];
    NobodyIsInOrder(workers);
    hide AllInOrder;
    forall id | id in byId && Up(byId, id) == Some(worker.id) ensures byId[id] in declared {
      assert Up(byId, id).value in childrenOf;
    }
  }

  lemma DeclaredIsKnown(byId: map<string, Worker>, worker: Worker, declared: seq<Worker>, i: nat)
    requires DeclaredUnder(byId, worker, declared) && i < |declared|
    ensures declared[i].id in byId && byId[declared[i].id] == declared[i]
  {
    assert declared[i] in declared;
  }

  /** One more arrival keeps the order, picked or not. */
  lemma ArrivingKeepsOrder(prefix: seq<Worker>, worker: Worker, picked: seq<Worker>)
    requires InputOrder(prefix, picked) && forall w | w in picked :: w in prefix
    ensures InputOrder(prefix + [worker], picked) && InputOrder(prefix + [worker], picked + [worker])
  {
    var more := prefix + [worker];
    forall i, j | 0 <= i < j < |picked| ensures Precedes(more, picked[i], picked[j]) {
      assert Precedes(prefix, picked[i], picked[j]);
      var p, q :| 0 <= p < q < |prefix| && prefix[p] == picked[i] && prefix[q] == picked[j];
      assert more[p] == picked[i] && more[q] == picked[j];
    }
    forall i | 0 <= i < |picked| ensures Precedes(more, picked[i], worker) {
      assert picked[i] in prefix;
      var p :| 0 <= p < |prefix| && prefix[p] == picked[i];
      assert more[p] == picked[i] && more[|prefix|] == worker;
    }
  }

  lemma FilingKeepsOrder(byId: map<string, Worker>, prefix: seq<Worker>, worker: Worker, filed: map<string, seq<Worker>>, parent: string)
    requires AllInOrder(prefix, filed) && Files(byId, prefix, filed)
    ensures AllInOrder(prefix + [worker], filed)
    ensures AllInOrder(prefix + [worker], filed[parent := (if parent in filed then filed[parent] else []) + [worker]])
  {
    hide InputOrder;
    forall p | p in filed ensures InputOrder(prefix + [worker], filed[p]) && InputOrder(prefix + [worker], filed[p] + [worker]) {
      ArrivingKeepsOrder(prefix, worker, filed[p]);
    }
    assert InputOrder(prefix, []) by { NobodyIsInOrder(prefix); }
    ArrivingKeepsOrder(prefix, worker, []);
  }

  lemma NobodyIsInOrder(workers: seq<Worker>)
    ensures InputOrder(workers, [])
  {}

  /** `node_of`: emit a worker with its subtree, skipping anyone already emitted. */
  method NodeOf(
    worker: Worker, childrenOf: map<string, seq<Worker>>, visited: set<string>,
    ghost workers: seq<Worker>, ghost byId: map<string, Worker>)
    returns (node: TreeNode, after: set<string>)
    requires Indexed(byId) && FilesChildren(byId, childrenOf) && AllInOrder(workers, childrenOf)
    requires worker.id in byId && byId[worker.id] == worker && worker.id !in visited
    ensures Emits(byId, visited, worker, node, after)
    ensures Arranged(workers, node)
    decreases byId.Keys - visited
  {
    hide Emits, Emitting, Arranging, Arranged, InputOrder, FilesChildren, AllInOrder, DeclaredUnder, Indexed;
    after := visited + {worker.id};
    var children: seq<TreeNode> := [];
    var declared := if worker.id in childrenOf then childrenOf[worker.id] else [];
    FiledUnder(workers, byId, childrenOf, worker);
    EmittingStarts(byId, visited, worker, declared);
    ArrangingStarts(workers, declared);
    for i := 0 to |declared|
      invariant visited + {worker.id} <= after
      invariant Emitting(byId, visited, worker, declared, i, children, after)
      invariant Arranging(workers, declared, i, children)
    {
      DeclaredIsKnown(byId, worker, declared, i);
      if declared[i].id in after {
        EmittingSkips(byId, visited, worker, declared, i, children, after);
        ArrangingSkips(workers, declared, i, children);
        continue;
      }
      var sub, next := NodeOf(declared[i], childrenOf, after, workers, byId);
      EmittingGoesOn(byId, visited, worker, declared, i, children, after, sub, next);
      ArrangingGoesOn(workers, declared, i, children, sub) by { EmitsIts(byId, after, declared[i], sub, next); }
      EmitsIts(byId, after, declared[i], sub, next);
      children, after := children + [sub], next;
    }
    EmittingEnds(byId, visited, worker, declared, children, after);
    ArrangingEnds(workers, declared, worker, children);
    node := TreeNode(worker, children);
  }

  /** A chain that ends is not a ring. */
  lemma DeadEndsAreNotRings(byId: map<string, Worker>, id: string, k: nat)
    requires UpBy(byId, id, k).None?
    ensures !OnRing(byId, id)
  {
    if OnRing(byId, id) {
      var n: nat :| n >= 1 && UpBy(byId, id, n) == Some(id);
      RingsRepeat(byId, id, n, k);
      assert k <= k * n;
      ChainsAreDefinedBelow(byId, id, k, k * n);
    }
  }

  lemma OneMoreUp(byId: map<string, Worker>, id: string, k: nat)
    requires UpBy(byId, id, k).Some?
    ensures UpBy(byId, id, k + 1) == Up(byId, UpBy(byId, id, k).value)
  {
    UpComposes(byId, id, k, 1);
    var current := UpBy(byId, id, k).value;
    assert Up(byId, current).Some? ==> UpBy(byId, Up(byId, current).value, 0) == Up(byId, current);
  }

  /** `on_cycle`: does following the controllers lead back to the worker within one pass? */
  method OnCycle(worker: Worker, byId: map<string, Worker>) returns (r: bool)
    requires Indexed(byId) && worker.id in byId && byId[worker.id] == worker
    ensures r <==> worker.spawnedBy == Some(worker.id) || OnRing(byId, worker.id)
  {
    var start := worker.id;
    var current := worker;
    for k := 0 to |byId|
      invariant current.id in byId && byId[current.id] == current
      invariant k == 0 ==> current == worker
      invariant k > 0 ==> worker.spawnedBy != Some(start)
      invariant
        || (UpBy(byId, start, k) == Some(current.id)
            && forall j: nat | 1 <= j <= k :: UpBy(byId, start, j) != Some(start))
        || (current.spawnedBy == Some(current.id) && current.id != start && !OnRing(byId, start))
    {
      if UpBy(byId, start, k) == Some(current.id) {
        OneMoreUp(byId, start, k);
        if Up(byId, current.id).None? {
          DeadEndsAreNotRings(byId, start, k + 1);
        }
      }
      if current.spawnedBy.None? {
        return false;
      }
      var declared := current.spawnedBy.value;
      if declared == start {
        return true;
      }
      if declared !in byId {
        return false;
      }
      current := byId[declared];
    }
    if OnRing(byId, start) {
      RingsCloseInOnePass(byId, start);
    }
    return false;
  }

  // ---- Sorting the ring members ----

  ghost predicate Sorted(workers: seq<Worker>) {
    forall i, j | 0 <= i < j < |workers| :: !Before(workers[j], workers[i])
  }

  lemma InsertingKeepsSorted(sorted: seq<Worker>, worker: Worker, k: nat)
    requires Sorted(sorted) && k <= |sorted|
    requires forall j | k <= j < |sorted| :: Before(worker, sorted[j])
    requires k > 0 ==> !Before(worker, sorted[k - 1])
    ensures Sorted(sorted[..k] + [worker] + sorted[k..])
  {
    var r := sorted[..k] + [worker] + sorted[k..];
    forall i, j | 0 <= i < j < |r| ensures !Before(r[j], r[i]) {
      if j == k && i < k - 1 && Before(worker, r[i]) {
        BeforeOrNot(r[i], sorted[k - 1], worker);
      } else if i == k {
        BeforeIsTotal(worker, sorted[j - 1]);
      } else if i < k < j {
        assert r[j] == sorted[j - 1];
      } else if k < i {
        assert r[i] == sorted[i - 1] && r[j] == sorted[j - 1];
      }
    }
  }

  /** Insert one worker after everyone it does not precede. */
  method InsertInOrder(sorted: seq<Worker>, worker: Worker) returns (r: seq<Worker>)
    requires Sorted(sorted)
    ensures Sorted(r) && multiset(r) == multiset(sorted) + multiset{worker}
  {
    var k: nat := |sorted|;
    while k > 0 && Before(worker, sorted[k - 1])
      invariant k <= |sorted|
      invariant forall j | k <= j < |sorted| :: Before(worker, sorted[j])
    {
      k := k - 1;
    }
    r := sorted[..k] + [worker] + sorted[k..];
    assert sorted == sorted[..k] + sorted[k..];
    InsertingKeepsSorted(sorted, worker, k);
  }

  /** Not being preceded carries over. */
  lemma BeforeOrNot(a: Worker, b: Worker, c: Worker)
    requires !Before(b, a) && Before(c, a)
    ensures Before(c, b)
  {
    BeforeIsTotal(a, b);
    if Before(a, b) {
      BeforeIsTransitive(c, a, b);
    } else {
      Text.StringLessIsTotal(a.id, b.id);
    }
  }

  /** The ring members in the documented order. */
  method SortByAge(workers: seq<Worker>) returns (r: seq<Worker>)
    ensures Sorted(r) && multiset(r) == multiset(workers)
  {
    r := [];
    for i := 0 to |workers|
      invariant Sorted(r) && multiset(r) == multiset(workers[..i])
    {
      assert workers[..i + 1] == workers[..i] + [workers[i]];
      r := InsertInOrder(r, workers[i]);
    }
    assert workers[..|workers|] == workers;
  }

  // ---- The tree as it grows ----

  function Attach(tree: ProjectTree, worker: Worker, node: TreeNode): ProjectTree {
    if IsCoordinator(worker) then tree.(coordinators := tree.coordinators + [node])
    else tree.(workers := tree.workers + [node])
  }

  ghost predicate HangsFromATop(byId: map<string, Worker>, tree: ProjectTree, id: string) {
    exists w :: w in TopWorkers(tree) && Reaches(byId, id, w.id)
  }

  /** A partial tree: shows exactly `visited`, which is closed downwards and hangs from proper roots. */
  ghost predicate Growing(byId: map<string, Worker>, visited: set<string>, tree: ProjectTree) {
    && visited <= byId.Keys
    && MembersOf(Tops(tree)) == Slice(byId, visited)
    && AllDeclared(Tops(tree))
    && (forall node | node in tree.coordinators :: IsCoordinator(node.worker))
    && (forall node | node in tree.workers :: !IsCoordinator(node.worker))
    && (forall w | w in TopWorkers(tree) :: w.id in byId && byId[w.id] == w && IsRoot(byId, w))
    && (forall id | id in visited :: HangsFromATop(byId, tree, id))
    && Covers(byId, visited, visited)
  }

  lemma MembersOfAttach(tree: ProjectTree, worker: Worker, node: TreeNode)
    ensures MembersOf(Tops(Attach(tree, worker, node))) == MembersOf(Tops(tree)) + Members(node)
  {
    var tree' := Attach(tree, worker, node);
    assert MembersOf([node]) == Members(node) by {
      assert MembersOf([node]) == Members(node) + MembersOf([]);
    }
    MembersOfConcat(tree.coordinators, tree.workers);
    MembersOfConcat(tree'.coordinators, tree'.workers);
    MembersOfConcat(tree.coordinators, [node]);
    MembersOfConcat(tree.workers, [node]);
    hide MembersOf, Members;
    Regroup(MembersOf(tree.coordinators), MembersOf(tree.workers), Members(node));
  }

  lemma Regroup(a: multiset<Worker>, b: multiset<Worker>, c: multiset<Worker>)
    ensures (a + c) + b == (a + b) + c && a + (b + c) == (a + b) + c
  {}

  lemma AttachingShowsMore(
    byId: map<string, Worker>, visited: set<string>, tree: ProjectTree, worker: Worker, node: TreeNode,
    after: set<string>)
    requires Indexed(byId) && visited <= after
    requires MembersOf(Tops(tree)) == Slice(byId, visited) && Members(node) == Slice(byId, after - visited)
    ensures MembersOf(Tops(Attach(tree, worker, node))) == Slice(byId, after)
  {
    hide MembersOf, Members, Slice;
    MembersOfAttach(tree, worker, node);
    assert after == visited + (after - visited);
    SliceOfDisjoint(byId, visited, after - visited);
  }

  lemma AttachingGrows(
    byId: map<string, Worker>, visited: set<string>, tree: ProjectTree, worker: Worker, node: TreeNode,
    after: set<string>)
    requires Indexed(byId) && worker.id in byId && byId[worker.id] == worker && IsRoot(byId, worker)
    requires Growing(byId, visited, tree) && Emits(byId, visited, worker, node, after)
    ensures Growing(byId, after, Attach(tree, worker, node))
    ensures TopWorkers(Attach(tree, worker, node)) == TopWorkers(tree) + {worker}
  {
    hide Declared, IsRoot, Reaches, Members, MembersOf, Slice;
    var tree' := Attach(tree, worker, node);
    AttachingShowsMore(byId, visited, tree, worker, node, after);
    TopsOfAttach(tree, worker, node);
    forall n | n in Tops(tree') ensures Declared(n) {
      assert n in Tops(tree) || n == node;
    }
    hide TopWorkers;
    forall id | id in after ensures HangsFromATop(byId, tree', id) {
      if id in visited {
        assert HangsFromATop(byId, tree, id);
        var w :| w in TopWorkers(tree) && Reaches(byId, id, w.id);
        assert w in TopWorkers(tree');
      } else {
        assert worker in TopWorkers(tree') && Reaches(byId, id, worker.id);
      }
    }
  }

  lemma TopsOfAttach(tree: ProjectTree, worker: Worker, node: TreeNode)
    requires node.worker == worker
    ensures TopWorkers(Attach(tree, worker, node)) == TopWorkers(tree) + {worker}
  {
    var tree' := Attach(tree, worker, node);
    assert forall n :: n in Tops(tree') <==> n in Tops(tree) || n == node;
    assert worker in TopWorkers(tree') by {
      assert node in Tops(tree');
    }
    forall w | w in TopWorkers(tree) ensures w in TopWorkers(tree') {
      var n :| n in Tops(tree) && n.worker == w;
      assert n in Tops(tree');
    }
  }

  /** Whoever is visited brings along everyone below. */
  lemma {:induction false} VisitedGoesDown(byId: map<string, Worker>, visited: set<string>, id: string, k: nat)
    requires Covers(byId, visited, visited)
    requires UpBy(byId, id, k).Some? && UpBy(byId, id, k).value in visited
    ensures id in visited
    decreases k
  {
    if k > 0 {
      VisitedGoesDown(byId, visited, Up(byId, id).value, k - 1);
    }
  }

  /** A worker without a controller is visited only as a top. */
  lemma UncontrolledIsNotBelow(byId: map<string, Worker>, visited: set<string>, tree: ProjectTree, worker: Worker)
    requires Growing(byId, visited, tree)
    requires worker.id in byId && byId[worker.id] == worker && !HasController(byId, worker)
    ensures worker.id in visited ==> worker in TopWorkers(tree)
  {
    if worker.id in visited {
      assert HangsFromATop(byId, tree, worker.id);
      var w :| w in TopWorkers(tree) && Reaches(byId, worker.id, w.id);
      var k: nat :| UpBy(byId, worker.id, k) == Some(w.id);
    }
  }

  /** The first unvisited ring member in order is the first of its ring. */
  lemma PromotedIsRingMinimum(
    byId: map<string, Worker>, visited: set<string>, sorted: seq<Worker>, i: nat)
    requires Indexed(byId) && Covers(byId, visited, visited) && Sorted(sorted) && i < |sorted|
    requires sorted[i].id in byId && byId[sorted[i].id] == sorted[i]
    requires OnRing(byId, sorted[i].id) && sorted[i].id !in visited
    requires forall id | id in byId && id !in visited && OnRing(byId, id) :: byId[id] in sorted
    requires forall j | 0 <= j < i :: sorted[j].id in visited
    ensures IsRingMinimum(byId, sorted[i])
  {
    var worker := sorted[i];
    forall id | id in byId && Reaches(byId, worker.id, id) ensures !Before(byId[id], worker) {
      RingMatesReachEachOther(byId, worker.id, id);
      var k: nat :| UpBy(byId, worker.id, k) == Some(id);
      if id in visited {
        VisitedGoesDown(byId, visited, worker.id, k);
      }
      var j :| 0 <= j < |sorted| && sorted[j] == byId[id];
      BeforeIsTotal(worker, worker);
    }
  }

  /** If all uncontrolled workers and all rings are visited, everyone is. */
  lemma EveryoneIsVisited(byId: map<string, Worker>, visited: set<string>)
    requires visited <= byId.Keys && Covers(byId, visited, visited)
    requires forall id | id in byId && (Up(byId, id).None? || OnRing(byId, id)) :: id in visited
    ensures visited == byId.Keys
  {
    var left := byId.Keys - visited;
    if left != {} {
      var id :| id in left;
      forall x | x in left ensures Up(byId, x).Some? && Up(byId, x).value in left {
        UpStaysKnown(byId, x, 1);
      }
      var ring := TrappedWorkersHoldARing(byId, left, id);
    }
    forall x | x in byId.Keys ensures x in visited {
      assert x !in left;
    }
  }

  /** A root with a controller is a ring minimum, and stands at the top once its ring is visited. */
  lemma RingMinimumIsTop(byId: map<string, Worker>, visited: set<string>, tree: ProjectTree, id: string)
    requires Indexed(byId) && Growing(byId, visited, tree) && id in visited
    requires HasController(byId, byId[id]) && IsRoot(byId, byId[id])
    ensures byId[id] in TopWorkers(tree)
  {
    assert HangsFromATop(byId, tree, id);
    var w :| w in TopWorkers(tree) && Reaches(byId, id, w.id);
    var root := EachRingHasOneRoot(byId, id);
    assert UpBy(byId, id, 0) == Some(id);
    assert id == root && w.id == root;
  }

  lemma SliceOfAll(byId: map<string, Worker>)
    ensures Slice(byId, byId.Keys) == multiset(byId.Values)
  {
    assert (set id | id in byId.Keys && id in byId :: byId[id]) == byId.Values;
  }

  /** Once everyone is visited, the tree shows the hierarchy. */
  lemma GrownTreesShow(byId: map<string, Worker>, tree: ProjectTree)
    requires Indexed(byId) && Growing(byId, byId.Keys, tree)
    requires forall id | id in byId && !HasController(byId, byId[id]) :: byId[id] in TopWorkers(tree)
    ensures Shows(byId, tree)
  {
    hide Declared, MembersOf, IsRoot, Slice, Covers, HangsFromATop;
    SliceOfAll(byId);
    forall node | node in Tops(tree) ensures IsRoot(byId, node.worker) {
      assert node.worker in TopWorkers(tree);
    }
    forall id | id in byId && IsRoot(byId, byId[id]) ensures byId[id] in TopWorkers(tree) {
      if HasController(byId, byId[id]) {
        RingMinimumIsTop(byId, byId.Keys, tree, id);
      }
    }
  }

  // ---- The whole fold ----

  /** `filed` are the workers of a prefix with a controller, each under it. */
  ghost predicate Files(byId: map<string, Worker>, prefix: seq<Worker>, filed: map<string, seq<Worker>>) {
    && (forall p, c | p in filed && c in filed[p] :: c in prefix && Up(byId, c.id) == Some(p))
    && (forall c | c in prefix && HasController(byId, c) ::
          c.spawnedBy.value in filed && c in filed[c.spawnedBy.value])
  }

  lemma FilingOneMore(
    byId: map<string, Worker>, prefix: seq<Worker>, filed: map<string, seq<Worker>>, worker: Worker)
    requires Files(byId, prefix, filed)
    requires worker.id in byId && byId[worker.id] == worker
    ensures HasController(byId, worker) ==>
              var parent := worker.spawnedBy.value;
              Files(byId, prefix + [worker],
                    filed[parent := (if parent in filed then filed[parent] else []) + [worker]])
    ensures !HasController(byId, worker) ==> Files(byId, prefix + [worker], filed)
  {}

  /** `roots` are the workers of a prefix without a controller. */
  ghost predicate RootsOf(byId: map<string, Worker>, prefix: seq<Worker>, roots: seq<Worker>) {
    UniqueIds(roots) && forall w :: w in roots <==> w in prefix && !HasController(byId, w)
  }

  lemma RootingOneMore(byId: map<string, Worker>, prefix: seq<Worker>, roots: seq<Worker>, worker: Worker)
    requires RootsOf(byId, prefix, roots) && forall w | w in prefix :: w.id != worker.id
    ensures RootsOf(byId, prefix + [worker], if HasController(byId, worker) then roots else roots + [worker])
  {}

  /** Split the workers into roots and children filed under their controllers. */
  method FileWorkers(workers: seq<Worker>, ghost byId: map<string, Worker>)
    returns (roots: seq<Worker>, childrenOf: map<string, seq<Worker>>)
    requires UniqueIds(workers) && byId == ById(workers)
    ensures FilesChildren(byId, childrenOf) && AllInOrder(workers, childrenOf)
    ensures RootsOf(byId, workers, roots) && InputOrder(workers, roots)
  {
    hide Files, RootsOf, ById, FilesChildren, InputOrder, AllInOrder;
    ByIdIndexes(workers);
    var known := set w | w in workers :: w.id;
    assert known == byId.Keys;
    roots, childrenOf := [], map[];
    assert workers[..0] == [];
    NothingFiledYet(byId);
    for i := 0 to |workers|
      invariant RootsOf(byId, workers[..i], roots) && InputOrder(workers[..i], roots)
      invariant Files(byId, workers[..i], childrenOf) && AllInOrder(workers[..i], childrenOf)
    {
      var worker := workers[i];
      assert worker in workers;
      assert workers[..i + 1] == workers[..i] + [worker];
      FilingOneMore(byId, workers[..i], childrenOf, worker);
      RootingOneMore(byId, workers[..i], roots, worker);
      RootsAreArrived(byId, workers[..i], roots);
      ArrivingKeepsOrder(workers[..i], worker, roots);
      FilingKeepsOrder(byId, workers[..i], worker, childrenOf, if worker.spawnedBy.Some? then worker.spawnedBy.value else "");
      if worker.spawnedBy.Some? && worker.spawnedBy.value != worker.id && worker.spawnedBy.value in known {
        var parent := worker.spawnedBy.value;
        var filed := if parent in childrenOf then childrenOf[parent] else [];
        childrenOf := childrenOf[parent := filed + [worker]];
      } else {
        roots := roots + [worker];
      }
    }
    assert workers[..|workers|] == workers;
    EveryoneIsFiled(byId, workers, childrenOf);
  }

  lemma NothingFiledYet(byId: map<string, Worker>)
    ensures RootsOf(byId, [], []) && Files(byId, [], map[])
    ensures InputOrder([], []) && AllInOrder([], map[])
  {}

  lemma RootsAreArrived(byId: map<string, Worker>, prefix: seq<Worker>, roots: seq<Worker>)
    requires RootsOf(byId, prefix, roots)
    ensures forall w | w in roots :: w in prefix
  {}

  lemma EveryoneIsFiled(byId: map<string, Worker>, workers: seq<Worker>, childrenOf: map<string, seq<Worker>>)
    requires Files(byId, workers, childrenOf)
    requires forall w | w in workers :: w.id in byId && byId[w.id] == w
    requires forall id | id in byId :: byId[id] in workers
    ensures FilesChildren(byId, childrenOf)
  {
    forall id | id in byId && Up(byId, id).Some?
      ensures Up(byId, id).value in childrenOf && byId[id] in childrenOf[Up(byId, id).value]
    {
      assert byId[id] in workers;
    }
  }

  /** The ring members nobody reached yet. */
  method UnreachedRingMembers(workers: seq<Worker>, byId: map<string, Worker>, visited: set<string>)
    returns (members: seq<Worker>)
    requires UniqueIds(workers) && byId == ById(workers)
    requires forall id | id in byId && !HasController(byId, byId[id]) :: id in visited
    ensures forall w :: w in members <==> w in workers && w.id !in visited && OnRing(byId, w.id)
  {
    ByIdIndexes(workers);
    members := [];
    for i := 0 to |workers|
      invariant forall w :: w in members <==> w in workers[..i] && w.id !in visited && OnRing(byId, w.id)
    {
      var worker := workers[i];
      assert worker in workers;
      assert workers[..i + 1] == workers[..i] + [worker];
      if worker.id !in visited {
        var cyclic := OnCycle(worker, byId);
        if cyclic {
          members := members + [worker];
        }
      }
    }
    assert workers[..|workers|] == workers;
  }

  /** Emit every root with its subtree. */
  method EmitRoots(
    roots: seq<Worker>, childrenOf: map<string, seq<Worker>>, ghost workers: seq<Worker>, ghost byId: map<string, Worker>)
    returns (tree: ProjectTree, visited: set<string>)
    requires Indexed(byId) && FilesChildren(byId, childrenOf) && UniqueIds(roots)
    requires AllInOrder(workers, childrenOf) && InputOrder(workers, roots)
    requires forall w | w in roots :: w.id in byId && byId[w.id] == w && !HasController(byId, w)
    ensures Growing(byId, visited, tree)
    ensures TopWorkers(tree) == set w | w in roots
    ensures InOrder(workers, byId, tree)
  {
    hide Growing, Emits, Attach, TopWorkers, InOrder, AllInOrder, Arranged, InputOrder;
    visited, tree := {}, ProjectTree([], []);
    NothingGrowsYet(byId);
    NothingInOrderYet(workers, byId);
    for i := 0 to |roots|
      invariant Growing(byId, visited, tree)
      invariant TopWorkers(tree) == set w | w in roots[..i]
      invariant InOrder(workers, byId, tree)
    {
      var worker := roots[i];
      assert worker in roots && worker !in roots[..i];
      UncontrolledIsNotBelow(byId, visited, tree, worker);
      var node, after := NodeOf(worker, childrenOf, visited, workers, byId);
      AttachingGrows(byId, visited, tree, worker, node, after);
      EmitsIts(byId, visited, worker, node, after);
      RootsComeInOrder(workers, byId, roots, i);
      AttachingKeepsOrder(workers, byId, tree, worker, node);
      visited, tree := after, Attach(tree, worker, node);
      assert roots[..i + 1] == roots[..i] + [worker];
    }
    assert roots[..|roots|] == roots;
  }

  lemma NothingInOrderYet(workers: seq<Worker>, byId: map<string, Worker>)
    ensures InOrder(workers, byId, ProjectTree([], []))
  {}

  lemma RootsComeInOrder(workers: seq<Worker>, byId: map<string, Worker>, roots: seq<Worker>, i: nat)
    requires InputOrder(workers, roots) && i < |roots|
    requires forall w | w in roots :: !HasController(byId, w)
    ensures forall a | a in roots[..i] :: TopBefore(workers, byId, a, roots[i])
  {
    hide Precedes;
    forall a | a in roots[..i] ensures TopBefore(workers, byId, a, roots[i]) {
      var k :| 0 <= k < i && roots[k] == a;
      assert roots[k] in roots;
    }
  }

  lemma AttachingKeepsOrder(
    workers: seq<Worker>, byId: map<string, Worker>, tree: ProjectTree, worker: Worker, node: TreeNode)
    requires InOrder(workers, byId, tree) && node.worker == worker && Arranged(workers, node)
    requires forall a | a in TopWorkers(tree) :: TopBefore(workers, byId, a, worker)
    ensures InOrder(workers, byId, Attach(tree, worker, node))
  {
    hide TopBefore, Arranged;
    var tree' := Attach(tree, worker, node);
    assert forall n :: n in Tops(tree') <==> n in Tops(tree) || n == node;
    forall k | 0 <= k < |tree.coordinators| ensures TopBefore(workers, byId, tree.coordinators[k].worker, worker) {
      assert tree.coordinators[k] in Tops(tree);
      assert tree.coordinators[k].worker in TopWorkers(tree);
    }
    forall k | 0 <= k < |tree.workers| ensures TopBefore(workers, byId, tree.workers[k].worker, worker) {
      assert tree.workers[k] in Tops(tree);
      assert tree.workers[k].worker in TopWorkers(tree);
    }
    OneMoreTopInOrder(workers, byId, tree.coordinators, node);
    OneMoreTopInOrder(workers, byId, tree.workers, node);
  }

  lemma OneMoreTopInOrder(workers: seq<Worker>, byId: map<string, Worker>, nodes: seq<TreeNode>, node: TreeNode)
    requires TopOrder(workers, byId, WorkersOf(nodes))
    ensures (forall k | 0 <= k < |nodes| :: TopBefore(workers, byId, nodes[k].worker, node.worker)) ==>
              TopOrder(workers, byId, WorkersOf(nodes + [node]))
  {
    hide TopBefore;
    var before, after := WorkersOf(nodes), WorkersOf(nodes + [node]);
    assert forall k | 0 <= k < |nodes| :: after[k] == before[k];
  }

  lemma NothingGrowsYet(byId: map<string, Worker>)
    ensures Growing(byId, {}, ProjectTree([], []))
    ensures TopWorkers(ProjectTree([], [])) == {}
  {
    assert Slice(byId, {}) == multiset{};
  }

  /** Promote the first member of each ring that is still unvisited, in the documented order. */
  method EmitRings(
    partial: ProjectTree, reached: set<string>, members: seq<Worker>, childrenOf: map<string, seq<Worker>>,
    ghost workers: seq<Worker>, ghost byId: map<string, Worker>)
    returns (tree: ProjectTree, visited: set<string>)
    requires Indexed(byId) && FilesChildren(byId, childrenOf) && Growing(byId, reached, partial)
    requires AllInOrder(workers, childrenOf) && InOrder(workers, byId, partial)
    requires forall w | w in TopWorkers(partial) :: !HasController(byId, w)
    requires Sorted(members)
    requires forall id :: id in byId && id !in reached && OnRing(byId, id) ==> byId[id] in members
    requires forall w | w in members :: w.id in byId && byId[w.id] == w && OnRing(byId, w.id)
    ensures Growing(byId, visited, tree) && reached <= visited
    ensures TopWorkers(partial) <= TopWorkers(tree)
    ensures forall w | w in members :: w.id in visited
    ensures InOrder(workers, byId, tree)
  {
    hide Growing, Emits, Attach, TopWorkers, OnRing, Sorted, InOrder, AllInOrder, Arranged, HasController;
    visited, tree := reached, partial;
    for i := 0 to |members|
      invariant Growing(byId, visited, tree) && reached <= visited
      invariant TopWorkers(partial) <= TopWorkers(tree)
      invariant forall j | 0 <= j < i :: members[j].id in visited
      invariant forall w | w in TopWorkers(tree) && HasController(byId, w) :: w in members[..i]
      invariant InOrder(workers, byId, tree)
    {
      assert members[..i + 1] == members[..i] + [members[i]];
      var worker := members[i];
      assert worker in members;
      if worker.id in visited {
        continue;
      }
      GrowingCovers(byId, visited, tree);
      PromotedIsRingMinimum(byId, visited, members, i);
      var node, after := NodeOf(worker, childrenOf, visited, workers, byId);
      EmittedIsVisited(byId, visited, worker, node, after);
      EmitsIts(byId, visited, worker, node, after);
      RingsComeLast(workers, byId, visited, tree, members, i);
      AttachingKeepsOrder(workers, byId, tree, worker, node);
      AttachingGrows(byId, visited, tree, worker, node, after);
      visited, tree := after, Attach(tree, worker, node);
    }
  }

  lemma RingsComeLast(
    workers: seq<Worker>, byId: map<string, Worker>, visited: set<string>, tree: ProjectTree, members: seq<Worker>, i: nat)
    requires Indexed(byId) && Growing(byId, visited, tree) && Sorted(members) && i < |members|
    requires members[i].id in byId && byId[members[i].id] == members[i] && OnRing(byId, members[i].id)
    requires members[i].id !in visited
    requires forall w | w in TopWorkers(tree) && HasController(byId, w) :: w in members[..i]
    ensures forall a | a in TopWorkers(tree) :: TopBefore(workers, byId, a, members[i])
  {
    hide Growing, TopWorkers, OnRing;
    RingMembersHaveControllers(byId, members[i].id);
    forall a | a in TopWorkers(tree) && HasController(byId, a) ensures Before(a, members[i]) {
      TopsAreVisited(byId, visited, tree, a);
      var k :| 0 <= k < i && members[k] == a;
      BeforeIsTotal(a, members[i]);
    }
  }

  lemma GrowingCovers(byId: map<string, Worker>, visited: set<string>, tree: ProjectTree)
    requires Growing(byId, visited, tree)
    ensures visited <= byId.Keys && Covers(byId, visited, visited)
  {}

  lemma EmittedIsVisited(
    byId: map<string, Worker>, visited: set<string>, worker: Worker, node: TreeNode, after: set<string>)
    requires Emits(byId, visited, worker, node, after)
    ensures worker.id in after && visited <= after
  {}

  method BuildTree(workers: seq<Worker>) returns (tree: ProjectTree)
    requires UniqueIds(workers)
    ensures Shows(ById(workers), tree)
    ensures MembersOf(tree.coordinators + tree.workers) == multiset(workers)
    ensures InOrder(workers, ById(workers), tree)
  {
    hide Growing, TopWorkers, OnRing, Sorted, InOrder, AllInOrder, InputOrder;
    ByIdIndexes(workers);
    var byId := ById(workers);
    var roots, childrenOf := FileWorkers(workers, byId);
    var partial, reached := EmitRoots(roots, childrenOf, workers, byId);
    forall id | id in byId && !HasController(byId, byId[id])
      ensures id in reached && byId[id] in TopWorkers(partial)
    {
      assert byId[id] in roots;
      TopsAreVisited(byId, reached, partial, byId[id]);
    }
    var members := UnreachedRingMembers(workers, byId, reached);
    var sorted := SortByAge(members);
    assert forall w :: w in sorted <==> w in multiset(sorted);
    assert forall w :: w in members <==> w in multiset(members);
    var visited;
    tree, visited := EmitRings(partial, reached, sorted, childrenOf, workers, byId);
    GrowingCovers(byId, visited, tree);
    EveryoneIsVisited(byId, visited);
    GrownTreesShow(byId, tree);
  }

  lemma TopsAreVisited(byId: map<string, Worker>, visited: set<string>, tree: ProjectTree, worker: Worker)
    requires Indexed(byId) && Growing(byId, visited, tree) && worker in TopWorkers(tree)
    ensures worker.id in visited
  {
    var node :| node in Tops(tree) && node.worker == worker;
    TopsAreMembers(Tops(tree), node);
    assert worker in Slice(byId, visited);
  }

  lemma {:induction false} TopsAreMembers(nodes: seq<TreeNode>, node: TreeNode)
    requires node in nodes
    ensures Members(node) <= MembersOf(nodes)
  {
    if node != nodes[0] {
      TopsAreMembers(nodes[1..], node);
    }
  }
}
