/**
 `JournalStore` and `DurableJournal`: the objects that load, create and change the journal file.

 What the surroundings decide (whether the lock is free, whether the file can be read, how a write ends)
 is an argument. Each method is proved to compute a function of the file, the handle's memory and those
 answers; an uninterrupted call of `CreateJournal`, `OpenJournal` or `Change` is in turn a sequence of steps
 of `JournalProtocol`, so everything proved there about interleaved handles covers these methods.
 */
module DurableJournals {
  import opened Basics
  import opened UpdateJournals
  import opened JournalRuns
  import Protocol = JournalProtocol

  datatype WriteOutcome = Replaced | ReplacedThenFailed | NotReplaced

  datatype Env = Env(lockFree: bool, readable: bool, write: WriteOutcome)

  function Load(disk: Option<Journal>, env: Env): Result<Journal, RecoveryError> {
    if disk.None? || !env.readable then Failure(Io)
    else match ValidateLoaded(disk.value)
      case Pass => Success(disk.value)
      case Fail(error) => Failure(error)
  }

  /** The result and the file `write_body` leaves. */
  function WriteBody(disk: Option<Journal>, j: Journal, env: Env): (Check, Option<Journal>) {
    if ValidateLoaded(j).Fail? then (ValidateLoaded(j), disk)
    else match env.write
      case Replaced => (Pass, Some(j))
      case ReplacedThenFailed => (Fail(Io), Some(j))
      case NotReplaced => (Fail(Io), disk)
  }

  function CreateIn(disk: Option<Journal>, j: Journal, env: Env): (Check, Option<Journal>) {
    if !env.lockFree then (Fail(ConcurrentWriter), disk)
    else if disk.Some? then (Fail(JournalAlreadyExists), disk)
    else WriteBody(disk, j, env)
  }

  function CompareAndWriteIn(disk: Option<Journal>, next: Journal, expected: nat, env: Env)
    : (Check, Option<Journal>)
  {
    if !env.lockFree then (Fail(ConcurrentWriter), disk)
    else match Load(disk, env)
      case Failure(error) => (Fail(error), disk)
      case Success(actual) =>
        if actual.revision != expected then (Fail(StaleWriter(expected, actual.revision)), disk)
        else if expected >= U64_MAX then (Fail(InvalidFact), disk)
        else WriteBody(disk, next.(revision := expected + 1), env)
  }

  /** Result, file and memory after a `change` on a handle holding `memory`. */
  function ChangeIn(platform: Platform, disk: Option<Journal>, memory: Journal, op: Op, env: Env)
    : (Check, Option<Journal>, Journal)
  {
    match Apply(platform, memory, op)
    case Failure(error) => (Fail(error), disk, memory)
    case Success(next) =>
      var (r, disk') := CompareAndWriteIn(disk, next, memory.revision, env);
      (r, disk', if r.Pass? then next.(revision := memory.revision + 1) else memory)
  }

  class JournalStore {
    const platform: Platform
    var disk: Option<Journal>

    constructor (platform: Platform, disk: Option<Journal>)
      ensures this.platform == platform && this.disk == disk
    {
      this.platform, this.disk := platform, disk;
    }

    method LoadJournal(env: Env) returns (r: Result<Journal, RecoveryError>)
      ensures r == Load(disk, env)
    {
      if disk.None? || !env.readable {
        return Failure(Io);
      }
      var check := ValidateLoaded(disk.value);
      if check.Fail? {
        return Failure(check.error);
      }
      return Success(disk.value);
    }

    method Replace(j: Journal, env: Env) returns (r: Check)
      modifies this`disk
      ensures (r, disk) == WriteBody(old(disk), j, env)
    {
      var check := ValidateLoaded(j);
      if check.Fail? {
        return check;
      }
      if env.write != NotReplaced {
        disk := Some(j);
      }
      return if env.write == Replaced then Pass else Fail(Io);
    }

    method Create(j: Journal, env: Env) returns (r: Check)
      modifies this`disk
      ensures (r, disk) == CreateIn(old(disk), j, env)
    {
      if !env.lockFree {
        return Fail(ConcurrentWriter);
      }
      if disk.Some? {
        return Fail(JournalAlreadyExists);
      }
      r := Replace(j, env);
    }

    /** Stamps the next revision on `journal` itself before writing it, as the source does. */
    method CompareAndWrite(journal: UpdateJournal, expected: nat, env: Env) returns (r: Check)
      modifies this`disk, journal`revision
      ensures (r, disk) == CompareAndWriteIn(old(disk), old(journal.Value()), expected, env)
      ensures journal.Value() == old(journal.Value()).(revision := journal.revision)
      ensures r.Pass? ==> journal.revision == expected + 1
    {
      if !env.lockFree {
        return Fail(ConcurrentWriter);
      }
      var loaded := LoadJournal(env);
      if loaded.Failure? {
        return Fail(loaded.error);
      }
      if loaded.value.revision != expected {
        return Fail(StaleWriter(expected, loaded.value.revision));
      }
      if expected >= U64_MAX {
        return Fail(InvalidFact);
      }
      journal.revision := expected + 1;
      r := Replace(journal.Value(), env);
    }
  }

  class DurableJournal {
    const store: JournalStore
    var journal: UpdateJournal

    /** `open`: only a journal that was loaded becomes a handle. */
    constructor (store: JournalStore, loaded: Journal)
      ensures this.store == store && fresh(journal)
      ensures journal.platform == store.platform && journal.Value() == loaded
    {
      this.store := store;
      this.journal := new UpdateJournal(store.platform, loaded);
    }

    method Change(op: Op, env: Env) returns (r: Check)
      requires journal.platform == store.platform
      modifies this`journal, store`disk
      ensures (r, store.disk, journal.Value()) ==
              ChangeIn(store.platform, old(store.disk), old(journal.Value()), op, env)
      ensures journal.platform == store.platform
      ensures journal == old(journal) || fresh(journal)
    {
      hide Verdict, After, ValidateLoaded, CompareAndWriteIn;
      var next := new UpdateJournal(store.platform, journal.Value());
      var accepted := next.Perform(op);
      if accepted.Fail? {
        return accepted;
      }
      r := store.CompareAndWrite(next, journal.revision, env);
      if r.Pass? {
        journal := next;
      }
    }
  }

  method OpenJournal(store: JournalStore, env: Env) returns (r: Result<DurableJournal, RecoveryError>)
    ensures match Load(store.disk, env)
            case Success(j) => r.Success? && fresh(r.value) && r.value.store == store && r.value.journal.Value() == j
            case Failure(error) => r == Failure(error)
  {
    var loaded := store.LoadJournal(env);
    if loaded.Failure? {
      return Failure(loaded.error);
    }
    var handle := new DurableJournal(store, loaded.value);
    return Success(handle);
  }

  method CreateJournal(store: JournalStore, j: Journal, env: Env) returns (r: Result<DurableJournal, RecoveryError>)
    modifies store`disk
    ensures var (check, disk) := CreateIn(old(store.disk), j, env);
            && store.disk == disk
            && match check
               case Pass => r.Success? && fresh(r.value) && r.value.store == store && r.value.journal.Value() == j
               case Fail(error) => r == Failure(error)
  {
    var check := store.Create(j, env);
    if check.Fail? {
      return Failure(check.error);
    }
    var handle := new DurableJournal(store, j);
    return Success(handle);
  }

  // ---- The methods are runs of the protocol ----

  ghost predicate Leads(s: Protocol.System, steps: seq<Protocol.Step>, t: Protocol.System)
    decreases |steps|
  {
    if steps == [] then s == t
    else Protocol.Enabled(s, steps[0]) && Leads(Protocol.Next(s, steps[0]), steps[1..], t)
  }

  lemma {:induction false} LeadsKeepsSound(s: Protocol.System, steps: seq<Protocol.Step>, t: Protocol.System)
    requires Protocol.Sound(s) && Leads(s, steps, t)
    ensures Protocol.Sound(t)
    decreases |steps|
  {
    hide Protocol.Sound, Protocol.Enabled;
    if steps != [] {
      Protocol.StepsKeepSound(s, steps[0]);
      LeadsKeepsSound(Protocol.Next(s, steps[0]), steps[1..], t);
    }
  }

  lemma LeadsOn(s: Protocol.System, step: Protocol.Step, steps: seq<Protocol.Step>, t: Protocol.System)
    requires Protocol.Enabled(s, step) && Leads(Protocol.Next(s, step), steps, t)
    ensures Leads(s, [step] + steps, t)
  {
    hide Protocol.Enabled, Protocol.Next;
    assert ([step] + steps)[1..] == steps;
  }

  /** A handle resting with `memory` in `s`. */
  ghost predicate Rests(s: Protocol.System, id: Protocol.HandleId, memory: Journal) {
    id in s.handles && s.handles[id] == Protocol.Handle(Some(memory), Protocol.Idle)
  }

  /** The handle gives up before touching the file. */
  lemma GivingUp(s: Protocol.System, id: Protocol.HandleId, memory: Journal, t: Protocol.System)
    requires id in s.handles && s.handles[id].journal == Some(memory)
    requires s.handles[id].pc.Staged? || s.handles[id].pc.Locked? || s.handles[id].pc.Stamped?
    requires t == Protocol.Next(s, Protocol.FailWith(id, false))
    ensures Leads(s, [Protocol.FailWith(id, false)], t)
    ensures Rests(t, id, memory) && t.disk == s.disk
  {
    hide Apply, ValidateLoaded;
    LeadsOn(s, Protocol.FailWith(id, false), [], t);
  }

  /** From the stamped journal on: the write, however it ends, and the way back to rest. */
  lemma WritingFollowsTheProtocol(s: Protocol.System, id: Protocol.HandleId, memory: Journal, env: Env)
    returns (steps: seq<Protocol.Step>, t: Protocol.System)
    requires id in s.handles && s.handles[id].journal == Some(memory) && s.handles[id].pc.Stamped?
    requires Loadable(s.handles[id].pc.next)
    ensures Leads(s, steps, t)
    ensures var (r, disk) := WriteBody(s.disk, s.handles[id].pc.next, env);
            t.disk == disk && Rests(t, id, if r.Pass? then s.handles[id].pc.next else memory)
  {
    hide Apply, ValidateLoaded;
    if env.write == Replaced {
      var written := Protocol.Next(s, Protocol.Write(id));
      var released := Protocol.Next(written, Protocol.Release(id));
      t := Protocol.Next(released, Protocol.Publish(id));
      LeadsOn(released, Protocol.Publish(id), [], t);
      LeadsOn(written, Protocol.Release(id), [Protocol.Publish(id)], t);
      steps := [Protocol.Write(id)] + ([Protocol.Release(id)] + [Protocol.Publish(id)]);
      LeadsOn(s, Protocol.Write(id), [Protocol.Release(id)] + [Protocol.Publish(id)], t);
    } else {
      var step := Protocol.FailWith(id, env.write == ReplacedThenFailed);
      t := Protocol.Next(s, step);
      steps := [step] + [];
      LeadsOn(s, step, [], t);
    }
  }

  /** The locked section of a change: load, compare, stamp, write. */
  lemma LockedSectionFollowsTheProtocol(s: Protocol.System, id: Protocol.HandleId, memory: Journal, env: Env)
    returns (steps: seq<Protocol.Step>, t: Protocol.System)
    requires Protocol.Sound(s) && env.lockFree
    requires id in s.handles && s.handles[id].journal == Some(memory) && s.handles[id].pc.Locked?
    ensures Leads(s, steps, t)
    ensures var next := s.handles[id].pc.next;
            var (r, disk) := CompareAndWriteIn(s.disk, next, memory.revision, env);
            && t.disk == disk
            && Rests(t, id, if r.Pass? then next.(revision := memory.revision + 1) else memory)
  {
    hide Apply, ValidateLoaded, Protocol.Sound;
    var loaded := Load(s.disk, env);
    if loaded.Success? && loaded.value.revision == memory.revision && memory.revision < U64_MAX {
      var step := Protocol.LoadAndCompare(id);
      var stamped := Protocol.Next(s, step);
      StampedIsLoadable(s, id);
      steps, t := WritingFollowsTheProtocol(stamped, id, memory, env);
      LeadsOn(s, step, steps, t);
      steps := [step] + steps;
    } else {
      t := Protocol.Next(s, Protocol.FailWith(id, false));
      steps := [Protocol.FailWith(id, false)];
      GivingUp(s, id, memory, t);
    }
  }

  lemma StampedIsLoadable(s: Protocol.System, id: Protocol.HandleId)
    requires Protocol.Sound(s) && Protocol.Enabled(s, Protocol.LoadAndCompare(id))
    ensures Loadable(Protocol.Next(s, Protocol.LoadAndCompare(id)).handles[id].pc.next)
  {
    hide Apply, ValidateLoaded, Protocol.OnFile;
    var t := Protocol.Next(s, Protocol.LoadAndCompare(id));
    Protocol.StepsKeepSound(s, Protocol.LoadAndCompare(id));
    assert Protocol.HandleIsSound(t, id, t.handles[id]);
    TransitionsKeepLoadable(t.platform, t.disk.value, t.handles[id].pc.op, t.handles[id].pc.next);
  }

  /** Every call of `Change` on a resting handle of a reachable system is a sequence of its steps. */
  lemma ChangeFollowsTheProtocol(s: Protocol.System, id: Protocol.HandleId, memory: Journal, op: Op, env: Env)
    returns (steps: seq<Protocol.Step>, t: Protocol.System)
    requires Protocol.Sound(s) && Rests(s, id, memory) && (env.lockFree ==> s.lock.None?)
    ensures Leads(s, steps, t) && Protocol.Sound(t)
    ensures var (r, disk, memory') := ChangeIn(s.platform, s.disk, memory, op, env);
            t.disk == disk && Rests(t, id, memory')
  {
    hide Apply, ValidateLoaded, Protocol.Sound, CompareAndWriteIn;
    steps, t := [], s;
    if Apply(s.platform, memory, op).Success? {
      var begin, take := Protocol.BeginChange(id, op), Protocol.TakeLock(id);
      var staged := Protocol.Next(s, begin);
      Protocol.StepsKeepSound(s, begin);
      if env.lockFree {
        var locked := Protocol.Next(staged, take);
        Protocol.StepsKeepSound(staged, take);
        steps, t := LockedSectionFollowsTheProtocol(locked, id, memory, env);
        LeadsOn(staged, take, steps, t);
        steps := [take] + steps;
      } else {
        t := Protocol.Next(staged, Protocol.FailWith(id, false));
        steps := [Protocol.FailWith(id, false)];
        GivingUp(staged, id, memory, t);
        BusyLockRefuses(s.disk, Apply(s.platform, memory, op).value, memory.revision, env);
      }
      LeadsOn(s, begin, steps, t);
      steps := [begin] + steps;
    }
    LeadsKeepsSound(s, steps, t);
  }

  /** A call of `OpenJournal` is one step, or none if the file does not load. */
  lemma OpenFollowsTheProtocol(s: Protocol.System, id: Protocol.HandleId, env: Env)
    returns (steps: seq<Protocol.Step>, t: Protocol.System)
    requires Protocol.Sound(s) && id !in s.handles
    ensures Leads(s, steps, t) && Protocol.Sound(t) && t.disk == s.disk
    ensures Load(s.disk, env).Success? ==> Rests(t, id, Load(s.disk, env).value)
    ensures Load(s.disk, env).Failure? ==> t == s
  {
    hide Apply, ValidateLoaded, Protocol.Sound;
    steps, t := [], s;
    if Load(s.disk, env).Success? {
      t := Protocol.Next(s, Protocol.Open(id));
      LeadsOn(s, Protocol.Open(id), steps, t);
      steps := [Protocol.Open(id)] + steps;
    }
    LeadsKeepsSound(s, steps, t);
  }

  /** A handle inside `create` gives up; nothing is left of it. */
  lemma AbandoningACreation(s: Protocol.System, id: Protocol.HandleId, t: Protocol.System)
    requires id in s.handles && s.handles[id].journal.None?
    requires s.handles[id].pc.Creating? || s.handles[id].pc.CreatingLocked?
    requires t == Protocol.Next(s, Protocol.FailWith(id, false))
    ensures Leads(s, [Protocol.FailWith(id, false)], t)
    ensures id !in t.handles && t.disk == s.disk
  {
    hide Apply, ValidateLoaded;
    LeadsOn(s, Protocol.FailWith(id, false), [], t);
  }

  lemma WritingACreation(s: Protocol.System, id: Protocol.HandleId, env: Env)
    returns (steps: seq<Protocol.Step>, t: Protocol.System)
    requires id in s.handles && s.handles[id].journal.None? && s.handles[id].pc.CreatingAbsent?
    requires s.handles[id].pc.run.journals != [] && Loadable(Protocol.Last(s.handles[id].pc.run.journals))
    ensures Leads(s, steps, t)
    ensures var j := Protocol.Last(s.handles[id].pc.run.journals);
            var (r, disk) := WriteBody(s.disk, j, env);
            t.disk == disk && if r.Pass? then Rests(t, id, j) else id !in t.handles
  {
    hide Apply, ValidateLoaded;
    if env.write == Replaced {
      var written := Protocol.Next(s, Protocol.Write(id));
      var released := Protocol.Next(written, Protocol.Release(id));
      t := Protocol.Next(released, Protocol.Publish(id));
      LeadsOn(released, Protocol.Publish(id), [], t);
      LeadsOn(written, Protocol.Release(id), [Protocol.Publish(id)], t);
      steps := [Protocol.Write(id)] + ([Protocol.Release(id)] + [Protocol.Publish(id)]);
      LeadsOn(s, Protocol.Write(id), [Protocol.Release(id)] + [Protocol.Publish(id)], t);
    } else {
      var step := Protocol.FailWith(id, env.write == ReplacedThenFailed);
      t := Protocol.Next(s, step);
      steps := [step] + [];
      LeadsOn(s, step, [], t);
    }
  }

  lemma LockedCreationFollowsTheProtocol(s: Protocol.System, id: Protocol.HandleId, env: Env)
    returns (steps: seq<Protocol.Step>, t: Protocol.System)
    requires id in s.handles && s.handles[id].journal.None? && s.handles[id].pc.CreatingLocked? && env.lockFree
    requires s.handles[id].pc.run.journals != [] && Loadable(Protocol.Last(s.handles[id].pc.run.journals))
    ensures Leads(s, steps, t)
    ensures var j := Protocol.Last(s.handles[id].pc.run.journals);
            var (r, disk) := CreateIn(s.disk, j, env);
            t.disk == disk && if r.Pass? then Rests(t, id, j) else id !in t.handles
  {
    hide Apply, ValidateLoaded;
    if s.disk.Some? {
      t := Protocol.Next(s, Protocol.FailWith(id, false));
      steps := [Protocol.FailWith(id, false)];
      AbandoningACreation(s, id, t);
    } else {
      var absent := Protocol.Next(s, Protocol.CheckAbsent(id));
      steps, t := WritingACreation(absent, id, env);
      LeadsOn(s, Protocol.CheckAbsent(id), steps, t);
      steps := [Protocol.CheckAbsent(id)] + steps;
    }
  }

  /** Every call of `CreateJournal` with a journal that stems from an offer is a sequence of the protocol's steps. */
  lemma CreateFollowsTheProtocol(s: Protocol.System, id: Protocol.HandleId, run: Run, env: Env)
    returns (steps: seq<Protocol.Step>, t: Protocol.System)
    requires Protocol.Sound(s) && id !in s.handles && run.platform == s.platform && run.Valid()
    requires env.lockFree ==> s.lock.None?
    ensures Leads(s, steps, t) && Protocol.Sound(t)
    ensures var j := Protocol.Last(run.journals);
            var (r, disk) := CreateIn(s.disk, j, env);
            t.disk == disk && if r.Pass? then Rests(t, id, j) else id !in t.handles
  {
    hide Apply, ValidateLoaded, Protocol.Sound, TracesToOffer;
    RunsStayReachable(run, |run.journals| - 1);
    hide WriteBody;
    var begin, take := Protocol.BeginCreate(id, run), Protocol.TakeLock(id);
    var creating := Protocol.Next(s, begin);
    if env.lockFree {
      var locked := Protocol.Next(creating, take);
      steps, t := LockedCreationFollowsTheProtocol(locked, id, env);
      LeadsOn(creating, take, steps, t);
      steps := [take] + steps;
    } else {
      t := Protocol.Next(creating, Protocol.FailWith(id, false));
      steps := [Protocol.FailWith(id, false)];
      AbandoningACreation(creating, id, t);
    }
    LeadsOn(s, begin, steps, t);
    steps := [begin] + steps;
    LeadsKeepsSound(s, steps, t);
  }

  lemma BusyLockRefuses(disk: Option<Journal>, next: Journal, expected: nat, env: Env)
    requires !env.lockFree
    ensures CompareAndWriteIn(disk, next, expected, env) == (Fail(ConcurrentWriter), disk)
  {}
}
