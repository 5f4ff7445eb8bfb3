/** What a sweep does to the agents: exactly the live agents of the stopped profiles lose their session. */
module PausedFleets {
  import opened Basics
  import opened BudgetWatchers

  /** The first stop of the profile among the actions says why its agents are paused. */
  function ReasonFor(actions: seq<Action>, profileId: string): Option<string> {
    if actions == [] then None
    else
      match ReasonFor(actions[..|actions| - 1], profileId)
      case Some(reason) => Some(reason)
      case None =>
        match actions[|actions| - 1]
        case Stopped(stop) => if stop.profileId == profileId then Some(stop.Reason()) else None
        case Released(_) => None
  }

  /** The worker is running on a stopped profile and has a session. */
  predicate IsHit(fleet: Fleet, worker: Agent, actions: seq<Action>) {
    worker.status == STATUS_RUNNING && worker.id in fleet.sessions && ReasonFor(actions, worker.profileId).Some?
  }

  /** The worker's row keeps everything but its note, which it gains if it is hit and can be written. */
  function Noted(worker: Agent, hits: map<string, string>, faults: Faults): Agent {
    if worker.id in hits && worker.id !in faults.unmarkable
    then worker.(pausedReason := Some(hits[worker.id]))
    else worker
  }

  /** `hits` maps the workers that lose their session to the reason; each session of theirs is killed once. */
  ghost predicate Exactly(fleet: Fleet, after: Fleet, hits: map<string, string>, faults: Faults) {
    && hits.Keys <= fleet.sessions.Keys
    && after.sessions == fleet.sessions - hits.Keys
    && |after.workers| == |fleet.workers|
    && (forall k | 0 <= k < |fleet.workers| :: after.workers[k] == Noted(fleet.workers[k], hits, faults))
    && Killed(fleet, after.killed, hits)
  }

  /** The sessions taken are killed one after the other, each once. */
  ghost predicate Killed(fleet: Fleet, killed: seq<string>, hits: map<string, string>) {
    exists order: seq<string> :: IsOrderOf(order, hits.Keys, fleet.sessions) && killed == fleet.killed + SessionsOf(fleet.sessions, order)
  }

  ghost predicate IsOrderOf(order: seq<string>, ids: set<string>, sessions: map<string, string>) {
    && (forall i, j | 0 <= i < j < |order| :: order[i] != order[j])
    && (forall id :: id in order <==> id in ids)
    && (forall i | 0 <= i < |order| :: order[i] in sessions)
  }

  function SessionsOf(sessions: map<string, string>, order: seq<string>): seq<string>
    requires forall i | 0 <= i < |order| :: order[i] in sessions
  {
    seq(|order|, i requires 0 <= i < |order| => sessions[order[i]])
  }

  lemma KilledCompose(a: Fleet, b: Fleet, killed: seq<string>, ab: map<string, string>, bc: map<string, string>)
    requires bc.Keys <= b.sessions.Keys && b.sessions == a.sessions - ab.Keys
    requires Killed(a, b.killed, ab) && Killed(b, killed, bc)
    ensures Killed(a, killed, ab + bc)
  {
    hide SessionsOf;
    var first :| IsOrderOf(first, ab.Keys, a.sessions) && b.killed == a.killed + SessionsOf(a.sessions, first);
    var second :| IsOrderOf(second, bc.Keys, b.sessions) && killed == b.killed + SessionsOf(b.sessions, second);
    OrdersCompose(first, second, ab.Keys, bc.Keys, a.sessions, b.sessions);
    assert (ab + bc).Keys == ab.Keys + bc.Keys;
    KilledInOrder(a, killed, ab + bc, first + second);
  }

  lemma KilledInOrder(fleet: Fleet, killed: seq<string>, hits: map<string, string>, order: seq<string>)
    requires IsOrderOf(order, hits.Keys, fleet.sessions) && killed == fleet.killed + SessionsOf(fleet.sessions, order)
    ensures Killed(fleet, killed, hits)
  {}

  lemma OrdersCompose(
    first: seq<string>, second: seq<string>, ids: set<string>, later: set<string>,
    sessions: map<string, string>, rest: map<string, string>)
    requires IsOrderOf(first, ids, sessions) && IsOrderOf(second, later, rest)
    requires rest == sessions - ids
    ensures IsOrderOf(first + second, ids + later, sessions)
    ensures SessionsOf(sessions, first + second) == SessionsOf(sessions, first) + SessionsOf(rest, second)
  {
    var order := first + second;
    forall i, j | 0 <= i < j < |order| ensures order[i] != order[j] {
      assert i < |first| ==> first[i] in ids;
      assert j >= |first| ==> second[j - |first|] in rest;
    }
    forall id ensures id in order <==> id in ids + later {
      assert id in order <==> id in first || id in second;
    }
    forall i | 0 <= i < |order| ensures order[i] in sessions {
      assert i >= |first| ==> second[i - |first|] in rest;
    }
  }

  lemma NotedTwice(worker: Agent, ab: map<string, string>, bc: map<string, string>, faults: Faults)
    ensures Noted(Noted(worker, ab, faults), bc, faults) == Noted(worker, ab + bc, faults)
  {}

  lemma Compose(a: Fleet, b: Fleet, c: Fleet, ab: map<string, string>, bc: map<string, string>, faults: Faults)
    requires Exactly(a, b, ab, faults) && Exactly(b, c, bc, faults)
    ensures Exactly(a, c, ab + bc, faults)
  {
    hide Killed, Noted;
    KilledCompose(a, b, c.killed, ab, bc);
    assert (ab + bc).Keys == ab.Keys + bc.Keys;
    assert c.sessions == a.sessions - (ab + bc).Keys;
    forall k | 0 <= k < |a.workers| ensures c.workers[k] == Noted(a.workers[k], ab + bc, faults) {
      NotedTwice(a.workers[k], ab, bc, faults);
    }
  }

  /** Nobody is hit but the workers accepted so far, and they for the reason given. */
  ghost predicate HitsFirst(fleet: Fleet, hits: map<string, string>, n: nat, profileId: string, reason: string)
    requires n <= |fleet.workers|
  {
    && (forall k | 0 <= k < n && RunsOn(fleet.workers[k], profileId) && fleet.workers[k].id in fleet.sessions ::
          fleet.workers[k].id in hits)
    && (forall id | id in hits :: hits[id] == reason &&
          exists k | 0 <= k < n :: fleet.workers[k].id == id && RunsOn(fleet.workers[k], profileId))
  }

  lemma NobodyIsKilled(fleet: Fleet)
    ensures Killed(fleet, fleet.killed, map[])
  {
    assert IsOrderOf([], {}, fleet.sessions);
    assert fleet.killed == fleet.killed + SessionsOf(fleet.sessions, []);
  }

  lemma PauseOneIsExact(fleet: Fleet, k: nat, profileId: string, reason: string, faults: Faults)
    requires k < |fleet.workers| && UniqueWorkers(fleet.workers)
    ensures var worker := fleet.workers[k];
            var hits := if RunsOn(worker, profileId) && worker.id in fleet.sessions then map[worker.id := reason] else map[];
            Exactly(fleet, PauseOne(fleet, k, profileId, reason, faults), hits, faults)
  {
    var worker := fleet.workers[k];
    if RunsOn(worker, profileId) && worker.id in fleet.sessions {
      assert IsOrderOf([worker.id], {worker.id}, fleet.sessions);
      assert map[worker.id := reason].Keys == {worker.id};
      assert SessionsOf(fleet.sessions, [worker.id]) == [fleet.sessions[worker.id]];
    } else {
      NobodyIsKilled(fleet);
    }
  }

  lemma {:induction false} PauseFirstIsExact(fleet: Fleet, n: nat, profileId: string, reason: string, faults: Faults)
    returns (hits: map<string, string>)
    requires n <= |fleet.workers| && UniqueWorkers(fleet.workers)
    ensures HitsFirst(fleet, hits, n, profileId, reason)
    ensures Exactly(fleet, PauseFirst(fleet, n, profileId, reason, faults), hits, faults)
    decreases n
  {
    hide Killed, RunsOn, HitsFirst;
    NobodyIsKilled(fleet);
    hits := map[];
    assert n == 0 ==> HitsFirst(fleet, hits, n, profileId, reason) by { NobodyIsHit(fleet, profileId, reason); }
    if n > 0 {
      var before := PauseFirst(fleet, n - 1, profileId, reason, faults);
      var earlier := PauseFirstIsExact(fleet, n - 1, profileId, reason, faults);
      var worker := before.workers[n - 1];
      NotingKeepsIdentity(fleet, before, earlier, faults);
      PauseOneIsExact(before, n - 1, profileId, reason, faults);
      var hit :=
        if RunsOn(worker, profileId) && worker.id in before.sessions then map[worker.id := reason] else map[];
      hits := earlier + hit;
      assert before.sessions == fleet.sessions - earlier.Keys;
      Compose(fleet, before, PauseFirst(fleet, n, profileId, reason, faults), earlier, hit, faults);
      OneMoreIsHit(fleet, before, n, profileId, reason, earlier, hit);
    }
  }

  lemma NobodyIsHit(fleet: Fleet, profileId: string, reason: string)
    ensures HitsFirst(fleet, map[], 0, profileId, reason)
  {}

  lemma OneMoreIsHit(
    fleet: Fleet, before: Fleet, n: nat, profileId: string, reason: string,
    earlier: map<string, string>, hit: map<string, string>)
    requires 0 < n <= |fleet.workers| == |before.workers| && HitsFirst(fleet, earlier, n - 1, profileId, reason)
    requires before.sessions == fleet.sessions - earlier.Keys
    requires SameIdentity(fleet.workers[n - 1], before.workers[n - 1])
    requires hit == (if RunsOn(before.workers[n - 1], profileId) && before.workers[n - 1].id in before.sessions
                     then map[before.workers[n - 1].id := reason] else map[])
    ensures HitsFirst(fleet, earlier + hit, n, profileId, reason)
  {
    forall id | id in earlier + hit
      ensures exists k | 0 <= k < n :: fleet.workers[k].id == id && RunsOn(fleet.workers[k], profileId)
    {
      if id in earlier {
        var k :| 0 <= k < n - 1 && fleet.workers[k].id == id && RunsOn(fleet.workers[k], profileId);
      } else {
        assert fleet.workers[n - 1].id == id;
      }
    }
  }

  predicate SameIdentity(a: Agent, b: Agent) {
    a.id == b.id && a.profileId == b.profileId && a.status == b.status
  }

  lemma NotingKeepsIdentity(fleet: Fleet, after: Fleet, hits: map<string, string>, faults: Faults)
    requires Exactly(fleet, after, hits, faults) && UniqueWorkers(fleet.workers)
    ensures UniqueWorkers(after.workers)
    ensures forall k | 0 <= k < |fleet.workers| :: SameIdentity(fleet.workers[k], after.workers[k])
  {}

  /** Everyone hit, and nobody else, with the reason of the first stop of the worker's profile. */
  ghost predicate HitsAre(fleet: Fleet, hits: map<string, string>, actions: seq<Action>) {
    && (forall k | 0 <= k < |fleet.workers| ::
          fleet.workers[k].id in hits <==> IsHit(fleet, fleet.workers[k], actions))
    && (forall k | 0 <= k < |fleet.workers| && fleet.workers[k].id in hits ::
          ReasonFor(actions, fleet.workers[k].profileId) == Some(hits[fleet.workers[k].id]))
    && (forall id | id in hits :: exists k | 0 <= k < |fleet.workers| :: fleet.workers[k].id == id)
  }

  /**
   A sweep pauses exactly the running, bound workers of the profiles it stopped: each loses its session, which is
   killed, and gains a note; all other rows, sessions and agents are left alone, and no status changes.
   */
  lemma {:induction false} ASweepPausesExactlyItsStops(fleet: Fleet, actions: seq<Action>, faults: Faults)
    returns (hits: map<string, string>)
    requires UniqueWorkers(fleet.workers) && !faults.workersUnreadable
    ensures HitsAre(fleet, hits, actions)
    ensures Exactly(fleet, PausedFor(fleet, actions, faults), hits, faults)
    decreases |actions|
  {
    hide Killed;
    NobodyIsKilled(fleet);
    hits := map[];
    if actions != [] {
      var front, last := actions[..|actions| - 1], actions[|actions| - 1];
      var before := PausedFor(fleet, front, faults);
      var earlier := ASweepPausesExactlyItsStops(fleet, front, faults);
      hits := earlier;
      if last.Stopped? {
        NotingKeepsIdentity(fleet, before, earlier, faults);
        var hit := PauseFirstIsExact(before, |before.workers|, last.stop.profileId, last.stop.Reason(), faults);
        hits := earlier + hit;
        assert before.sessions == fleet.sessions - earlier.Keys;
        Compose(fleet, before, PausedFor(fleet, actions, faults), earlier, hit, faults);
        OneMoreStopHits(fleet, before, actions, earlier, hit);
      }
    }
  }

  lemma HitByTheStop(fleet: Fleet, before: Fleet, k: nat, profileId: string, reason: string, hit: map<string, string>)
    requires UniqueWorkers(fleet.workers) && |before.workers| == |fleet.workers| && k < |fleet.workers|
    requires forall k | 0 <= k < |fleet.workers| :: SameIdentity(fleet.workers[k], before.workers[k])
    requires HitsFirst(before, hit, |before.workers|, profileId, reason) && hit.Keys <= before.sessions.Keys
    ensures fleet.workers[k].id in hit <==>
              RunsOn(fleet.workers[k], profileId) && fleet.workers[k].id in before.sessions
    ensures fleet.workers[k].id in hit ==> hit[fleet.workers[k].id] == reason
  {
    var worker := fleet.workers[k];
    assert SameIdentity(worker, before.workers[k]);
    if worker.id in hit {
      var j :| 0 <= j < |before.workers| && before.workers[j].id == worker.id && RunsOn(before.workers[j], profileId);
      assert SameIdentity(fleet.workers[j], before.workers[j]);
      assert j == k;
    }
  }

  lemma HitSteps(
    fleet: Fleet, before: Fleet, worker: Agent, actions: seq<Action>, earlier: map<string, string>, hit: map<string, string>)
    requires actions != [] && actions[|actions| - 1].Stopped?
    requires before.sessions == fleet.sessions - earlier.Keys
    requires worker.id in earlier <==> IsHit(fleet, worker, actions[..|actions| - 1])
    requires worker.id in earlier ==>
               ReasonFor(actions[..|actions| - 1], worker.profileId) == Some(earlier[worker.id])
    requires var stop := actions[|actions| - 1].stop;
             && (worker.id in hit <==> RunsOn(worker, stop.profileId) && worker.id in before.sessions)
             && (worker.id in hit ==> hit[worker.id] == stop.Reason())
    ensures worker.id in earlier + hit <==> IsHit(fleet, worker, actions)
    ensures worker.id in earlier + hit ==> ReasonFor(actions, worker.profileId) == Some((earlier + hit)[worker.id])
  {
    hide BudgetStop.Reason;
  }

  lemma OneMoreStopHits(
    fleet: Fleet, before: Fleet, actions: seq<Action>, earlier: map<string, string>, hit: map<string, string>)
    requires actions != [] && actions[|actions| - 1].Stopped?
    requires UniqueWorkers(fleet.workers) && |before.workers| == |fleet.workers|
    requires before.sessions == fleet.sessions - earlier.Keys
    requires forall k | 0 <= k < |fleet.workers| :: SameIdentity(fleet.workers[k], before.workers[k])
    requires HitsAre(fleet, earlier, actions[..|actions| - 1])
    requires var stop := actions[|actions| - 1].stop;
             HitsFirst(before, hit, |before.workers|, stop.profileId, stop.Reason()) && hit.Keys <= before.sessions.Keys
    ensures HitsAre(fleet, earlier + hit, actions)
  {
    hide BudgetStop.Reason;
    var hits := earlier + hit;
    forall id | id in hits ensures exists k | 0 <= k < |fleet.workers| :: fleet.workers[k].id == id {
      if id in hit {
        var k :| 0 <= k < |before.workers| && before.workers[k].id == id;
        assert fleet.workers[k].id == id;
      }
    }
    forall k | 0 <= k < |fleet.workers|
      ensures fleet.workers[k].id in hits <==> IsHit(fleet, fleet.workers[k], actions)
      ensures fleet.workers[k].id in hits ==>
                ReasonFor(actions, fleet.workers[k].profileId) == Some(hits[fleet.workers[k].id])
    {
      var stop := actions[|actions| - 1].stop;
      HitByTheStop(fleet, before, k, stop.profileId, stop.Reason(), hit);
      HitSteps(fleet, before, fleet.workers[k], actions, earlier, hit);
    }
  }
}
