/**
 The hierarchy of one project's workers: what `spawned_by` declares, which workers stand at the root,
 and what it means for a tree to show that hierarchy. A controller may be missing, be the worker itself,
 or close a ring; nothing about the declarations is assumed except that ids are unique.
 */
module WorkerForests {
  import opened Basics
  import Text

  const KIND_ORCHESTRATOR: string := "orchestrator"
  const KIND_QUEEN: string := "queen"
  const KIND_SCOUT: string := "scout"

  /** `details` stands for the columns the hierarchy only carries along. */
  datatype Worker =
    Worker(id: string, kind: string, spawnedBy: Option<string>, createdAt: int, details: string)

  datatype TreeNode = TreeNode(worker: Worker, children: seq<TreeNode>)

  datatype ProjectTree = ProjectTree(coordinators: seq<TreeNode>, workers: seq<TreeNode>)

  predicate IsCoordinator(worker: Worker) {
    worker.kind == KIND_ORCHESTRATOR || worker.kind == KIND_QUEEN || worker.kind == KIND_SCOUT
  }

  predicate UniqueIds(workers: seq<Worker>) {
    forall i, j | 0 <= i < j < |workers| :: workers[i].id != workers[j].id
  }

  /** The workers by id, as collecting them into a map yields it. */
  function ById(workers: seq<Worker>): map<string, Worker> {
    if workers == [] then map[]
    else
      var last := workers[|workers| - 1];
      ById(workers[..|workers| - 1])[last.id := last]
  }

  predicate Indexed(byId: map<string, Worker>) {
    forall id | id in byId :: byId[id].id == id
  }

  lemma {:induction false} ByIdIndexes(workers: seq<Worker>)
    requires UniqueIds(workers)
    ensures Indexed(ById(workers))
    ensures forall w | w in workers :: w.id in ById(workers) && ById(workers)[w.id] == w
    ensures forall id | id in ById(workers) :: ById(workers)[id] in workers
    ensures multiset(workers) == multiset(ById(workers).Values)
  {
    if workers != [] {
      var front, last := workers[..|workers| - 1], workers[|workers| - 1];
      ByIdIndexes(front);
      assert workers == front + [last];
      assert last.id !in ById(front);
      assert ById(workers).Values == ById(front).Values + {last} by {
        assert ById(workers)[last.id] == last;
        forall w | w in ById(front).Values ensures w in ById(workers).Values {
          var id :| id in ById(front) && ById(front)[id] == w;
          assert ById(workers)[id] == w;
        }
      }
      assert last !in ById(front).Values;
      hide ById;
      OneMoreValue(front, last, ById(front).Values, ById(workers).Values);
    }
  }

  lemma OneMoreValue(front: seq<Worker>, last: Worker, before: set<Worker>, after: set<Worker>)
    requires multiset(front) == multiset(before) && after == before + {last} && last !in before
    ensures multiset(front + [last]) == multiset(after)
  {}

  // ---- Controllers and rings ----

  /** The declared controller counts if it is another known worker. */
  predicate HasController(byId: map<string, Worker>, worker: Worker) {
    worker.spawnedBy.Some? && worker.spawnedBy.value != worker.id && worker.spawnedBy.value in byId
  }

  function Up(byId: map<string, Worker>, id: string): Option<string> {
    if id in byId && HasController(byId, byId[id]) then byId[id].spawnedBy else None
  }

  /** `k` steps up the chain of controllers. */
  function UpBy(byId: map<string, Worker>, id: string, k: nat): Option<string>
    decreases k
  {
    if k == 0 then Some(id)
    else match Up(byId, id)
      case None => None
      case Some(parent) => UpBy(byId, parent, k - 1)
  }

  ghost predicate Reaches(byId: map<string, Worker>, id: string, ancestor: string) {
    exists k: nat :: UpBy(byId, id, k) == Some(ancestor)
  }

  /** Following the controllers leads back to the worker itself. */
  ghost predicate OnRing(byId: map<string, Worker>, id: string) {
    exists k: nat :: k >= 1 && UpBy(byId, id, k) == Some(id)
  }

  /** The documented order: earliest first, ties broken by the smaller id. */
  predicate Before(a: Worker, b: Worker) {
    a.createdAt < b.createdAt || (a.createdAt == b.createdAt && Text.StringLess(a.id, b.id))
  }

  ghost predicate IsRingMinimum(byId: map<string, Worker>, worker: Worker) {
    && OnRing(byId, worker.id)
    && forall id | id in byId && Reaches(byId, worker.id, id) :: !Before(byId[id], worker)
  }

  /** Who stands at the root: everyone without a controller, and the first of each ring. */
  ghost predicate IsRoot(byId: map<string, Worker>, worker: Worker) {
    !HasController(byId, worker) || IsRingMinimum(byId, worker)
  }

  lemma {:induction false} UpComposes(byId: map<string, Worker>, id: string, i: nat, j: nat)
    requires UpBy(byId, id, i).Some?
    ensures UpBy(byId, id, i + j) == UpBy(byId, UpBy(byId, id, i).value, j)
    decreases i
  {
    if i > 0 {
      UpComposes(byId, Up(byId, id).value, i - 1, j);
    }
  }

  lemma ReachesIsTransitive(byId: map<string, Worker>, a: string, b: string, c: string)
    requires Reaches(byId, a, b) && Reaches(byId, b, c)
    ensures Reaches(byId, a, c)
  {
    var i: nat :| UpBy(byId, a, i) == Some(b);
    var j: nat :| UpBy(byId, b, j) == Some(c);
    UpComposes(byId, a, i, j);
  }

  lemma {:induction false} RingsRepeat(byId: map<string, Worker>, id: string, k: nat, times: nat)
    requires UpBy(byId, id, k) == Some(id)
    ensures UpBy(byId, id, times * k) == Some(id)
  {
    if times > 0 {
      RingsRepeat(byId, id, k, times - 1);
      assert times * k == k + (times - 1) * k;
      UpComposes(byId, id, k, (times - 1) * k);
    }
  }

  /** Everyone a ring member reaches is on the same ring. */
  lemma RingMatesReachEachOther(byId: map<string, Worker>, a: string, b: string)
    requires OnRing(byId, a) && Reaches(byId, a, b)
    ensures OnRing(byId, b) && Reaches(byId, b, a)
  {
    var k: nat :| k >= 1 && UpBy(byId, a, k) == Some(a);
    var i: nat :| UpBy(byId, a, i) == Some(b);
    RingsRepeat(byId, a, k, i);
    assert i <= i * k;
    UpComposes(byId, a, i, i * k - i);
    UpComposes(byId, a, i, k);
    UpComposes(byId, a, k, i);
  }

  lemma {:induction false} Pigeonhole(s: seq<string>, holes: set<string>) returns (i: nat, j: nat)
    requires |s| > |holes| && forall x | x in s :: x in holes
    ensures i < j < |s| && s[i] == s[j]
  {
    if s[0] in s[1..] {
      var k :| 0 <= k < |s[1..]| && s[1..][k] == s[0];
      i, j := 0, k + 1;
    } else {
      i, j := Pigeonhole(s[1..], holes - {s[0]});
      i, j := i + 1, j + 1;
    }
  }

  /** Everyone reached is known. */
  lemma {:induction false} UpStaysKnown(byId: map<string, Worker>, id: string, k: nat)
    requires id in byId && UpBy(byId, id, k).Some?
    ensures UpBy(byId, id, k).value in byId
    decreases k
  {
    if k > 0 {
      UpStaysKnown(byId, Up(byId, id).value, k - 1);
    }
  }

  /** A chain that does not end within as many steps as there are workers meets itself. */
  lemma LongChainsMeetThemselves(byId: map<string, Worker>, id: string) returns (i: nat, j: nat)
    requires id in byId && forall k: nat | k <= |byId| :: UpBy(byId, id, k).Some?
    ensures i < j <= |byId| && UpBy(byId, id, i) == UpBy(byId, id, j)
  {
    var path := seq(|byId| + 1, k requires 0 <= k <= |byId| => UpBy(byId, id, k).value);
    forall x | x in path ensures x in byId.Keys {
      var k :| 0 <= k < |path| && path[k] == x;
      UpStaysKnown(byId, id, k);
    }
    assert |byId.Keys| == |byId|;
    i, j := Pigeonhole(path, byId.Keys);
    assert path[i] == path[j];
  }

  lemma {:induction false} ChainsAreDefinedBelow(byId: map<string, Worker>, id: string, k: nat, n: nat)
    requires k <= n && UpBy(byId, id, n).Some?
    ensures UpBy(byId, id, k).Some?
    decreases k
  {
    if k > 0 {
      ChainsAreDefinedBelow(byId, Up(byId, id).value, k - 1, n - 1);
    }
  }

  /** A ring closes within as many steps as there are workers: one pass over the whole set suffices. */
  lemma RingsCloseInOnePass(byId: map<string, Worker>, id: string)
    requires id in byId && OnRing(byId, id)
    ensures exists k: nat :: 1 <= k <= |byId| && UpBy(byId, id, k) == Some(id)
  {
    var n: nat :| n >= 1 && UpBy(byId, id, n) == Some(id);
    forall k: nat | k <= |byId| ensures UpBy(byId, id, k).Some? {
      RingsRepeat(byId, id, n, k);
      assert k <= k * n;
      ChainsAreDefinedBelow(byId, id, k, k * n);
    }
    var i, j := LongChainsMeetThemselves(byId, id);
    var b := UpBy(byId, id, i).value;
    RingMatesReachEachOther(byId, id, b);
    var q: nat :| UpBy(byId, b, q) == Some(id);
    UpComposes(byId, id, i, j - i);
    UpComposes(byId, b, q, j - i);
    UpComposes(byId, b, j - i, q);
  }

  /** Workers whose controllers are all among themselves include a whole ring. */
  lemma TrappedWorkersHoldARing(byId: map<string, Worker>, trapped: set<string>, id: string) returns (ring: string)
    requires id in trapped && trapped <= byId.Keys
    requires forall x | x in trapped :: Up(byId, x).Some? && Up(byId, x).value in trapped
    ensures ring in trapped && OnRing(byId, ring)
  {
    forall k: nat ensures UpBy(byId, id, k).Some? && UpBy(byId, id, k).value in trapped {
      TrappedChainsStayTrapped(byId, trapped, id, k);
    }
    var i, j := LongChainsMeetThemselves(byId, id);
    ring := UpBy(byId, id, i).value;
    UpComposes(byId, id, i, j - i);
  }

  lemma {:induction false} TrappedChainsStayTrapped(byId: map<string, Worker>, trapped: set<string>, id: string, k: nat)
    requires id in trapped
    requires forall x | x in trapped :: Up(byId, x).Some? && Up(byId, x).value in trapped
    ensures UpBy(byId, id, k).Some? && UpBy(byId, id, k).value in trapped
    decreases k
  {
    if k > 0 {
      TrappedChainsStayTrapped(byId, trapped, Up(byId, id).value, k - 1);
    }
  }

  lemma BeforeIsTotal(a: Worker, b: Worker)
    ensures a.id != b.id ==> Before(a, b) || Before(b, a)
    ensures !(Before(a, b) && Before(b, a))
  {
    Text.StringLessIsTotal(a.id, b.id);
  }

  lemma BeforeIsTransitive(a: Worker, b: Worker, c: Worker)
    requires Before(a, b) && Before(b, c)
    ensures Before(a, c)
  {
    if a.createdAt == b.createdAt == c.createdAt {
      Text.StringLessIsTransitive(a.id, b.id, c.id);
    }
  }

  lemma {:induction false} SomeoneIsFirst(byId: map<string, Worker>, ids: set<string>) returns (first: string)
    requires ids != {} && ids <= byId.Keys
    ensures first in ids && forall id | id in ids :: !Before(byId[id], byId[first])
    decreases |ids|
  {
    var x :| x in ids;
    BeforeIsTotal(byId[x], byId[x]);
    if ids == {x} {
      first := x;
    } else {
      var y := SomeoneIsFirst(byId, ids - {x});
      BeforeIsTotal(byId[x], byId[y]);
      first := if Before(byId[x], byId[y]) then x else y;
      forall id | id in ids ensures !Before(byId[id], byId[first]) {
        if id != x && first == x && Before(byId[id], byId[x]) {
          BeforeIsTransitive(byId[id], byId[x], byId[y]);
        }
      }
    }
  }

  /** Every ring has exactly one root among its members: the first in the documented order. */
  lemma EachRingHasOneRoot(byId: map<string, Worker>, id: string) returns (root: string)
    requires Indexed(byId) && id in byId && OnRing(byId, id)
    ensures root in byId && Reaches(byId, id, root) && IsRoot(byId, byId[root])
    ensures forall other | other in byId && Reaches(byId, id, other) && IsRoot(byId, byId[other]) :: other == root
  {
    var ring := set x | x in byId && Reaches(byId, id, x);
    assert UpBy(byId, id, 0) == Some(id) && id in ring;
    root := SomeoneIsFirst(byId, ring);
    RingMatesReachEachOther(byId, id, root);
    forall x | x in byId && Reaches(byId, root, x) ensures !Before(byId[x], byId[root]) {
      ReachesIsTransitive(byId, id, root, x);
    }
    forall other | other in byId && Reaches(byId, id, other) && IsRoot(byId, byId[other]) ensures other == root {
      RingMatesReachEachOther(byId, id, other);
      RingMembersHaveControllers(byId, other);
      ReachesIsTransitive(byId, other, id, root);
      BeforeIsTotal(byId[other], byId[root]);
    }
  }

  lemma RingMembersHaveControllers(byId: map<string, Worker>, id: string)
    requires OnRing(byId, id)
    ensures Up(byId, id).Some?
  {
    var k: nat :| k >= 1 && UpBy(byId, id, k) == Some(id);
  }

  // ---- What a tree shows ----

  /** Every worker a subtree shows, as often as it shows it. */
  function Members(node: TreeNode): multiset<Worker>
    decreases node, 1
  {
    multiset{node.worker} + MembersOf(node.children)
  }

  function MembersOf(nodes: seq<TreeNode>): multiset<Worker>
    decreases nodes, 0
  {
    if nodes == [] then multiset{} else Members(nodes[0]) + MembersOf(nodes[1..])
  }

  /** Every child hangs under the worker it declared. */
  ghost predicate Declared(node: TreeNode)
    decreases node
  {
    forall child | child in node.children ::
      child.worker.spawnedBy == Some(node.worker.id) && child.worker.id != node.worker.id && Declared(child)
  }

  ghost predicate AllDeclared(nodes: seq<TreeNode>) {
    forall node | node in nodes :: Declared(node)
  }

  lemma {:induction false} MembersOfConcat(a: seq<TreeNode>, b: seq<TreeNode>)
    ensures MembersOf(a + b) == MembersOf(a) + MembersOf(b)
  {
    if a == [] {
      assert a + b == b;
    } else {
      assert (a + b)[1..] == a[1..] + b;
      MembersOfConcat(a[1..], b);
    }
  }

  /** The top level, coordinators first. */
  function Tops(tree: ProjectTree): seq<TreeNode> {
    tree.coordinators + tree.workers
  }

  function TopWorkers(tree: ProjectTree): set<Worker> {
    set node | node in Tops(tree) :: node.worker
  }

  /**
   The tree shows the hierarchy: every worker exactly once, every child under its declared controller, the
   roots exactly as `IsRoot` says, and each root filed by its kind.
   */
  ghost predicate Shows(byId: map<string, Worker>, tree: ProjectTree) {
    && MembersOf(Tops(tree)) == multiset(byId.Values)
    && AllDeclared(Tops(tree))
    && (forall node | node in tree.coordinators :: IsCoordinator(node.worker))
    && (forall node | node in tree.workers :: !IsCoordinator(node.worker))
    && (forall node | node in Tops(tree) :: IsRoot(byId, node.worker))
    && (forall id | id in byId && IsRoot(byId, byId[id]) :: byId[id] in TopWorkers(tree))
  }

  // ---- The order of siblings ----

  /** `a` arrives before `b`. */
  ghost predicate Precedes(workers: seq<Worker>, a: Worker, b: Worker) {
    exists p, q | 0 <= p < q < |workers| :: workers[p] == a && workers[q] == b
  }

  /** The picked workers keep the order in which they arrive. */
  ghost predicate InputOrder(workers: seq<Worker>, picked: seq<Worker>) {
    forall i, j | 0 <= i < j < |picked| :: Precedes(workers, picked[i], picked[j])
  }

  function WorkersOf(nodes: seq<TreeNode>): (workers: seq<Worker>)
    ensures |workers| == |nodes| && forall i | 0 <= i < |nodes| :: workers[i] == nodes[i].worker
  {
    seq(|nodes|, i requires 0 <= i < |nodes| => nodes[i].worker)
  }

  /** Below the node, siblings keep the order in which they arrive. */
  ghost predicate Arranged(workers: seq<Worker>, node: TreeNode)
    decreases node
  {
    InputOrder(workers, WorkersOf(node.children)) && forall child | child in node.children :: Arranged(workers, child)
  }

  /** At the top: first those without a controller, as they arrive, then the promoted ones, earliest first. */
  ghost predicate TopBefore(workers: seq<Worker>, byId: map<string, Worker>, a: Worker, b: Worker) {
    if HasController(byId, a) then HasController(byId, b) && Before(a, b)
    else HasController(byId, b) || Precedes(workers, a, b)
  }

  ghost predicate TopOrder(workers: seq<Worker>, byId: map<string, Worker>, tops: seq<Worker>) {
    forall i, j | 0 <= i < j < |tops| :: TopBefore(workers, byId, tops[i], tops[j])
  }

  ghost predicate InOrder(workers: seq<Worker>, byId: map<string, Worker>, tree: ProjectTree) {
    && TopOrder(workers, byId, WorkersOf(tree.coordinators))
    && TopOrder(workers, byId, WorkersOf(tree.workers))
    && forall node | node in Tops(tree) :: Arranged(workers, node)
  }
}
