/** Who stands at the top of the tree, in terms of the workers' own columns: declarations, creation times, ids, kinds. */
module ForestRoots {
  import opened Basics
  import opened WorkerForests
  import opened ForestShapes
  import opened SiblingOrders
  import Text

  /** No other known worker is declared as its controller. */
  predicate StandsAlone(workers: seq<Worker>, w: Worker) {
    forall p | p in workers && p.id != w.id :: w.spawnedBy != Some(p.id)
  }

  function After(ring: seq<Worker>, i: nat): nat
    requires i < |ring|
  {
    if i + 1 < |ring| then i + 1 else 0
  }

  /** Two or more workers, each declaring the next one as its controller, and the last one the first. */
  predicate IsDeclaredRing(workers: seq<Worker>, ring: seq<Worker>) {
    && |ring| >= 2
    && (forall i | 0 <= i < |ring| :: ring[i] in workers && ring[i].spawnedBy == Some(ring[After(ring, i)].id))
    && (forall i, j | 0 <= i < j < |ring| :: ring[i].id != ring[j].id)
  }

  /** Created before all others, with the smaller id among those created at the same time. */
  predicate IsEarliest(ring: seq<Worker>, w: Worker) {
    && w in ring
    && forall i | 0 <= i < |ring| ::
         w.createdAt < ring[i].createdAt || (w.createdAt == ring[i].createdAt && !Text.StringLess(ring[i].id, w.id))
  }

  ghost predicate LeadsARing(workers: seq<Worker>, w: Worker) {
    exists ring :: IsDeclaredRing(workers, ring) && IsEarliest(ring, w)
  }

  ghost predicate IsRegistry(workers: seq<Worker>, byId: map<string, Worker>) {
    && Indexed(byId)
    && (forall w | w in workers :: w.id in byId && byId[w.id] == w)
    && (forall id | id in byId :: byId[id] in workers)
  }

  lemma ControllersAreDeclared(workers: seq<Worker>, byId: map<string, Worker>, w: Worker)
    requires IsRegistry(workers, byId)
    ensures HasController(byId, w) <==> !StandsAlone(workers, w)
  {
    if HasController(byId, w) {
      var p := byId[w.spawnedBy.value];
      assert p in workers && p.id == w.spawnedBy.value;
    }
  }

  // ---- Declared rings are rings ----

  lemma OneStepRound(workers: seq<Worker>, byId: map<string, Worker>, ring: seq<Worker>, i: nat)
    requires IsRegistry(workers, byId) && IsDeclaredRing(workers, ring) && i < |ring|
    ensures Up(byId, ring[i].id) == Some(ring[After(ring, i)].id)
  {
    var j := After(ring, i);
    assert ring[i] in workers && ring[j] in workers;
    assert ring[i].id != ring[j].id;
  }

  /** Going up from a member of a declared ring stays on it. */
  lemma {:induction false} GoingRound(workers: seq<Worker>, byId: map<string, Worker>, ring: seq<Worker>, i: nat, n: nat) returns (j: nat)
    requires IsRegistry(workers, byId) && IsDeclaredRing(workers, ring) && i < |ring|
    ensures j < |ring| && UpBy(byId, ring[i].id, n) == Some(ring[j].id)
    ensures i + n < |ring| ==> j == i + n
    ensures i + n == |ring| ==> j == 0
    decreases n
  {
    hide IsRegistry, IsDeclaredRing, Up;
    if n == 0 {
      j := i;
    } else {
      OneStepRound(workers, byId, ring, i);
      j := GoingRound(workers, byId, ring, After(ring, i), n - 1);
    }
  }

  /** From every member every other one is reached. */
  lemma MembersReachEachOther(workers: seq<Worker>, byId: map<string, Worker>, ring: seq<Worker>, i: nat, j: nat)
    requires IsRegistry(workers, byId) && IsDeclaredRing(workers, ring) && i < |ring| && j < |ring|
    ensures Reaches(byId, ring[i].id, ring[j].id) && OnRing(byId, ring[i].id)
  {
    hide IsRegistry, IsDeclaredRing, UpBy;
    var zero := GoingRound(workers, byId, ring, i, |ring| - i);
    var back := GoingRound(workers, byId, ring, 0, i);
    UpComposes(byId, ring[i].id, |ring| - i, i);
    assert UpBy(byId, ring[i].id, (|ring| - i) + i) == Some(ring[i].id);
    var there := GoingRound(workers, byId, ring, 0, j);
    UpComposes(byId, ring[i].id, |ring| - i, j);
    assert UpBy(byId, ring[i].id, (|ring| - i) + j) == Some(ring[j].id);
  }

  lemma EarliestIsMinimum(workers: seq<Worker>, byId: map<string, Worker>, ring: seq<Worker>, w: Worker)
    requires IsRegistry(workers, byId) && IsDeclaredRing(workers, ring) && IsEarliest(ring, w)
    ensures IsRingMinimum(byId, w)
  {
    hide UpBy;
    var i: nat :| i < |ring| && ring[i] == w;
    MembersReachEachOther(workers, byId, ring, i, i);
    forall id | id in byId && Reaches(byId, w.id, id) ensures !Before(byId[id], w) {
      var n: nat :| UpBy(byId, w.id, n) == Some(id);
      var j := GoingRound(workers, byId, ring, i, n);
      assert ring[j] in workers && byId[id] == ring[j];
    }
  }

  // ---- Rings are declared ----

  /** The least number of steps back to where one began. */
  lemma {:induction false} LeastRound(byId: map<string, Worker>, id: string, n: nat) returns (k: nat)
    requires n >= 1 && UpBy(byId, id, n) == Some(id)
    ensures 1 <= k <= n && UpBy(byId, id, k) == Some(id)
    ensures forall m: nat | 1 <= m < k :: UpBy(byId, id, m) != Some(id)
    decreases n
  {
    hide UpBy;
    if m: nat :| 1 <= m < n && UpBy(byId, id, m) == Some(id) {
      k := LeastRound(byId, id, m);
    } else {
      k := n;
    }
  }

  /** The worker `i` steps up. */
  function Above(byId: map<string, Worker>, id: string, i: nat): Option<Worker> {
    match UpBy(byId, id, i)
    case None => None
    case Some(x) => if x in byId then Some(byId[x]) else None
  }

  lemma RoundIsDefined(byId: map<string, Worker>, id: string, k: nat, i: nat)
    requires id in byId && UpBy(byId, id, k) == Some(id) && i <= k
    ensures UpBy(byId, id, i).Some? && UpBy(byId, id, i).value in byId
  {
    ChainsAreDefinedBelow(byId, id, i, k);
    UpStaysKnown(byId, id, i);
  }

  lemma RoundIsDistinct(byId: map<string, Worker>, id: string, k: nat, i: nat, j: nat)
    requires id in byId && UpBy(byId, id, k) == Some(id) && i < j < k
    requires forall m: nat | 1 <= m < k :: UpBy(byId, id, m) != Some(id)
    ensures UpBy(byId, id, i) != UpBy(byId, id, j)
  {
    hide UpBy;
    RoundIsDefined(byId, id, k, i);
    RoundIsDefined(byId, id, k, j);
    UpComposes(byId, id, j, k - j);
    UpComposes(byId, id, i, k - j);
    assert 1 <= i + (k - j) < k;
  }

  lemma RoundSteps(byId: map<string, Worker>, id: string, k: nat, i: nat)
    requires Indexed(byId) && id in byId && UpBy(byId, id, k) == Some(id) && i < k
    ensures UpBy(byId, id, i).Some? && UpBy(byId, id, i).value in byId
    ensures byId[UpBy(byId, id, i).value].spawnedBy == UpBy(byId, id, i + 1)
    ensures Up(byId, UpBy(byId, id, i).value) == UpBy(byId, id, i + 1)
  {
    RoundIsDefined(byId, id, k, i);
    RoundIsDefined(byId, id, k, i + 1);
    UpComposes(byId, id, i, 1);
    var x := UpBy(byId, id, i).value;
    assert Up(byId, x).Some? ==> UpBy(byId, Up(byId, x).value, 0) == Up(byId, x);
  }

  /** A worker on a ring begins a declared ring. */
  lemma RingsAreDeclared(workers: seq<Worker>, byId: map<string, Worker>, w: Worker) returns (ring: seq<Worker>)
    requires IsRegistry(workers, byId) && w in workers && OnRing(byId, w.id)
    ensures IsDeclaredRing(workers, ring) && ring[0] == w
    ensures forall x | x in ring :: Reaches(byId, w.id, x.id)
  {
    var id := w.id;
    var n: nat :| n >= 1 && UpBy(byId, id, n) == Some(id);
    var k := LeastRound(byId, id, n);
    hide Up;
    forall i: nat | i < k
      ensures UpBy(byId, id, i).Some? && UpBy(byId, id, i).value in byId
      ensures byId[UpBy(byId, id, i).value].spawnedBy == UpBy(byId, id, i + 1)
    {
      RoundSteps(byId, id, k, i);
    }
    assert UpBy(byId, id, 0) == Some(id);
    ring := seq(k, i requires 0 <= i < k => byId[UpBy(byId, id, i).value]);
    NoRingOfOne(byId, id, k);
    hide UpBy;
    forall i, j | 0 <= i < j < |ring| ensures ring[i].id != ring[j].id {
      RoundIsDistinct(byId, id, k, i, j);
    }
    forall i | 0 <= i < |ring| ensures ring[i] in workers && ring[i].spawnedBy == Some(ring[After(ring, i)].id) {
      assert UpBy(byId, id, i).value in byId;
    }
    forall x | x in ring ensures Reaches(byId, w.id, x.id) {
      var i :| 0 <= i < k && ring[i] == x;
      assert UpBy(byId, id, i) == Some(x.id);
    }
  }

  lemma NoRingOfOne(byId: map<string, Worker>, id: string, k: nat)
    requires Indexed(byId) && id in byId && k >= 1 && UpBy(byId, id, k) == Some(id)
    ensures k >= 2
  {
    assert UpBy(byId, id, 0) == Some(id);
    if k == 1 {
      RoundSteps(byId, id, 1, 0);
    }
  }

  lemma MinimaLeadRings(workers: seq<Worker>, byId: map<string, Worker>, w: Worker)
    requires IsRegistry(workers, byId) && w in workers
    ensures IsRingMinimum(byId, w) <==> LeadsARing(workers, w)
  {
    hide UpBy, Reaches, OnRing;
    if IsRingMinimum(byId, w) {
      var ring := RingsAreDeclared(workers, byId, w);
      forall i | 0 <= i < |ring|
        ensures w.createdAt < ring[i].createdAt || (w.createdAt == ring[i].createdAt && !Text.StringLess(ring[i].id, w.id))
      {
        assert ring[i] in ring && ring[i] in workers;
        assert !Before(ring[i], w);
      }
      assert w in ring && IsEarliest(ring, w);
    }
    if LeadsARing(workers, w) {
      var ring :| IsDeclaredRing(workers, ring) && IsEarliest(ring, w);
      EarliestIsMinimum(workers, byId, ring, w);
    }
  }

  // ---- Main results ----

  /** Who stands at the top, by declarations and creation times alone. */
  ghost predicate IsTop(workers: seq<Worker>, w: Worker) {
    w in workers && (StandsAlone(workers, w) || LeadsARing(workers, w))
  }

  predicate Coordinates(w: Worker) {
    w.kind == "orchestrator" || w.kind == "queen" || w.kind == "scout"
  }

  /**
   At the top stand exactly the workers without another known controller and the earliest worker of each declared
   ring: orchestrators, queens and scouts among the coordinators, all others among the workers.
   */
  lemma TopsAreExactly(workers: seq<Worker>, tree: ProjectTree, w: Worker)
    requires UniqueIds(workers) && Shows(ById(workers), tree)
    ensures w in WorkersOf(tree.coordinators) <==> IsTop(workers, w) && Coordinates(w)
    ensures w in WorkersOf(tree.workers) <==> IsTop(workers, w) && !Coordinates(w)
  {
    var byId := ById(workers);
    ByIdIndexes(workers);
    assert IsRegistry(workers, byId);
    assert w in byId.Values <==> w in workers by {
      if w in workers {
        assert byId[w.id] == w;
      }
    }
    TopsByKind(byId, tree, w);
    hide Shows, ById, IsRingMinimum, LeadsARing, StandsAlone, IsRegistry;
    if w in workers {
      ControllersAreDeclared(workers, byId, w);
      MinimaLeadRings(workers, byId, w);
    }
  }

  /** Each declared ring has exactly one top. */
  lemma EachDeclaredRingHasOneTop(workers: seq<Worker>, ring: seq<Worker>) returns (top: Worker)
    requires UniqueIds(workers) && IsDeclaredRing(workers, ring)
    ensures top in ring && IsTop(workers, top)
    ensures forall w | w in ring && IsTop(workers, w) :: w == top
  {
    var byId := ById(workers);
    ByIdIndexes(workers);
    assert IsRegistry(workers, byId);
    hide ById, UpBy, Reaches, OnRing, IsRingMinimum, LeadsARing;
    MembersReachEachOther(workers, byId, ring, 0, 0);
    assert ring[0] in workers;
    var id := EachRingHasOneRoot(byId, ring[0].id);
    top := byId[id];
    RootIsMember(workers, byId, ring, id);
    forall w | w in ring ensures IsTop(workers, w) <==> IsRoot(byId, w) {
      var i :| 0 <= i < |ring| && ring[i] == w;
      assert ring[i] in workers;
      ControllersAreDeclared(workers, byId, w);
      MinimaLeadRings(workers, byId, w);
    }
    forall w | w in ring && IsTop(workers, w) ensures w == top {
      var i :| 0 <= i < |ring| && ring[i] == w;
      assert ring[i] in workers;
      MembersReachEachOther(workers, byId, ring, 0, i);
    }
  }

  lemma RootIsMember(workers: seq<Worker>, byId: map<string, Worker>, ring: seq<Worker>, id: string)
    requires IsRegistry(workers, byId) && IsDeclaredRing(workers, ring)
    requires id in byId && Reaches(byId, ring[0].id, id)
    ensures byId[id] in ring
  {
    hide UpBy;
    var n: nat :| UpBy(byId, ring[0].id, n) == Some(id);
    var j := GoingRound(workers, byId, ring, 0, n);
    assert ring[j] in workers;
  }
}
