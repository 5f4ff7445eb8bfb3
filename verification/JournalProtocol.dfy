/**
 Many `DurableJournal` handles, in any number of processes, over one journal file.

 The state machine interleaves the atomic parts of `create`, `open` and `change`: working on a clone,
 taking the lock, loading and comparing, replacing the file, releasing the lock, and publishing the
 result in the handle's memory. A handle may fail or crash between any two of them. Replacing the file
 is atomic, and nobody but these steps touches it; a write that reports an error may still have
 replaced the file.
 */
module JournalProtocol {
  import opened Basics
  import opened UpdateJournals
  import opened JournalRuns

  type HandleId = nat

  /**
   Where a handle is inside `change` or `create`. A journal handed to `create` comes with the in-memory
   run that produced it: a new offer, and whatever transitions the caller applied before persisting it.
   `made` is the transition a change has written, and absent for a creation.
   */
  datatype Pc =
    | Idle
    | Staged(next: Journal, op: Op)
    | Locked(next: Journal, op: Op)
    | Stamped(next: Journal, op: Op)
    | Written(next: Journal, made: Option<Op>)
    | Unlocked(next: Journal, made: Option<Op>)
    | Creating(run: Run)
    | CreatingLocked(run: Run)
    | CreatingAbsent(run: Run)

  /** `journal` is what the handle holds in memory; a handle still inside `create` holds nothing yet. */
  datatype Handle = Handle(journal: Option<Journal>, pc: Pc)

  /**
   `history` remembers every journal of the update, and `first` where in it the file begins: the contents
   the file ever had are `history.journals[first..]`, oldest first.
   */
  datatype System = System(
    platform: Platform,
    disk: Option<Journal>,
    lock: Option<HandleId>,
    handles: map<HandleId, Handle>,
    history: Option<Run>,
    first: nat)

  datatype Step =
    | BeginCreate(id: HandleId, run: Run)
    | Open(id: HandleId)
    | CloneHandle(id: HandleId, copy: HandleId)
    | BeginChange(id: HandleId, op: Op)
    | TakeLock(id: HandleId)
    | CheckAbsent(id: HandleId)
    | LoadAndCompare(id: HandleId)
    | Write(id: HandleId)
    | Release(id: HandleId)
    | Publish(id: HandleId)
    | FailWith(id: HandleId, replaced: bool)
    | Crash(id: HandleId)

  predicate HoldsLock(pc: Pc) {
    pc.Locked? || pc.Stamped? || pc.Written? || pc.CreatingLocked? || pc.CreatingAbsent?
  }

  /** About to replace the file: the only place where a failing write may still have replaced it. */
  predicate AboutToWrite(pc: Pc) {
    pc.Stamped? || (pc.CreatingAbsent? && pc.run.journals != [])
  }

  function Body(pc: Pc): Journal
    requires AboutToWrite(pc)
  {
    if pc.Stamped? then pc.next else Last(pc.run.journals)
  }

  function Last<T>(s: seq<T>): T
    requires s != []
  {
    s[|s| - 1]
  }

  ghost predicate Enabled(s: System, step: Step) {
    match step
    case BeginCreate(id, run) => id !in s.handles && run.platform == s.platform && run.Valid()
    case Open(id) => id !in s.handles && s.disk.Some? && Loadable(s.disk.value)
    case CloneHandle(id, copy) => id in s.handles && s.handles[id].pc.Idle? && copy !in s.handles
    case BeginChange(id, op) =>
      && id in s.handles && s.handles[id].pc.Idle? && s.handles[id].journal.Some?
      && Apply(s.platform, s.handles[id].journal.value, op).Success?
    case TakeLock(id) =>
      id in s.handles && (s.handles[id].pc.Staged? || s.handles[id].pc.Creating?) && s.lock.None?
    case CheckAbsent(id) => id in s.handles && s.handles[id].pc.CreatingLocked? && s.disk.None?
    case LoadAndCompare(id) =>
      && id in s.handles && s.handles[id].pc.Locked? && s.handles[id].journal.Some?
      && s.disk.Some? && Loadable(s.disk.value)
      && s.disk.value.revision == s.handles[id].journal.value.revision
      && s.disk.value.revision < U64_MAX
    case Write(id) => id in s.handles && AboutToWrite(s.handles[id].pc) && Loadable(Body(s.handles[id].pc))
    case Release(id) => id in s.handles && s.handles[id].pc.Written?
    case Publish(id) => id in s.handles && s.handles[id].pc.Unlocked?
    case FailWith(id, replaced) =>
      && id in s.handles && !s.handles[id].pc.Idle? && !s.handles[id].pc.Written? && !s.handles[id].pc.Unlocked?
      && (replaced ==> AboutToWrite(s.handles[id].pc) && Loadable(Body(s.handles[id].pc)))
    case Crash(id) => id in s.handles
  }

  /** Replace the file with what the handle is about to write. */
  function Persist(s: System, pc: Pc): (t: System)
    requires AboutToWrite(pc)
    ensures t.handles == s.handles && t.lock == s.lock && t.platform == s.platform
  {
    if pc.CreatingAbsent? then
      s.(disk := Some(Body(pc)), history := Some(pc.run), first := |pc.run.journals| - 1)
    else if s.history.Some? then
      var h := s.history.value;
      s.(disk := Some(pc.next), history := Some(h.(journals := h.journals + [pc.next], ops := h.ops + [pc.op])))
    else
      s.(disk := Some(pc.next))
  }

  function Unlock(s: System, id: HandleId): System {
    if s.lock == Some(id) then s.(lock := None) else s
  }

  function SetPc(s: System, id: HandleId, pc: Pc): System
    requires id in s.handles
  {
    s.(handles := s.handles[id := s.handles[id].(pc := pc)])
  }

  ghost function Next(s: System, step: Step): System
    requires Enabled(s, step)
  {
    match step
    case BeginCreate(id, run) => s.(handles := s.handles[id := Handle(None, Creating(run))])
    case Open(id) => s.(handles := s.handles[id := Handle(s.disk, Idle)])
    case CloneHandle(id, copy) => s.(handles := s.handles[copy := s.handles[id]])
    case BeginChange(id, op) =>
      SetPc(s, id, Staged(Apply(s.platform, s.handles[id].journal.value, op).value, op))
    case TakeLock(id) =>
      var pc := s.handles[id].pc;
      SetPc(s, id, if pc.Staged? then Locked(pc.next, pc.op) else CreatingLocked(pc.run)).(lock := Some(id))
    case CheckAbsent(id) => SetPc(s, id, CreatingAbsent(s.handles[id].pc.run))
    case LoadAndCompare(id) =>
      var pc := s.handles[id].pc;
      SetPc(s, id, Stamped(pc.next.(revision := s.handles[id].journal.value.revision + 1), pc.op))
    case Write(id) =>
      var pc := s.handles[id].pc;
      SetPc(Persist(s, pc), id, Written(Body(pc), if pc.Stamped? then Some(pc.op) else None))
    case Release(id) => Unlock(SetPc(s, id, Unlocked(s.handles[id].pc.next, s.handles[id].pc.made)), id)
    case Publish(id) => s.(handles := s.handles[id := Handle(Some(s.handles[id].pc.next), Idle)])
    case FailWith(id, replaced) =>
      var t := Unlock(if replaced then Persist(s, s.handles[id].pc) else s, id);
      if s.handles[id].journal.None? then t.(handles := t.handles - {id})
      else SetPc(t, id, Idle)
    case Crash(id) =>
      var t := Unlock(s, id);
      t.(handles := t.handles - {id})
  }

  function Init(platform: Platform): System {
    System(platform, None, None, map[], None, 0)
  }

  // ---- The invariant ----

  /** The contents of the file continue one run, their revisions rise by exactly one, and the last is on disk. */
  ghost predicate IsChain(s: System) {
    match s.history
    case None => s.disk.None?
    case Some(run) =>
      && run.platform == s.platform && run.Valid()
      && s.first < |run.journals|
      && s.disk == Some(Last(run.journals))
      && forall i | s.first <= i < |run.journals| ::
           run.journals[i].revision == run.journals[s.first].revision + (i - s.first)
  }

  /** Where in the history a revision belongs. */
  function IndexOf(s: System, revision: nat): int
    requires s.history.Some? && s.first < |s.history.value.journals|
  {
    s.first + revision - s.history.value.journals[s.first].revision
  }

  /** `j` is the content the file had at `j`'s own revision. */
  ghost predicate OnFile(s: System, j: Journal) {
    && s.history.Some? && s.first < |s.history.value.journals|
    && s.first <= IndexOf(s, j.revision) < |s.history.value.journals|
    && s.history.value.journals[IndexOf(s, j.revision)] == j
  }

  ghost predicate HandleIsSound(s: System, id: HandleId, h: Handle) {
    && (h.journal.Some? ==> OnFile(s, h.journal.value))
    && (HoldsLock(h.pc) ==> s.lock == Some(id))
    && (h.pc.Creating? || h.pc.CreatingLocked? || h.pc.CreatingAbsent? ==>
          h.journal.None? && h.pc.run.platform == s.platform && h.pc.run.Valid())
    && (h.pc.CreatingAbsent? ==> s.disk.None?)
    && (h.pc.Staged? || h.pc.Locked? ==>
          h.journal.Some? && Apply(s.platform, h.journal.value, h.pc.op) == Success(h.pc.next))
    && (h.pc.Stamped? ==>
          && h.journal.Some? && s.disk == h.journal
          && Accepted(s.platform, h.journal.value, h.pc.op, h.pc.next)
          && h.pc.next.revision == h.journal.value.revision + 1)
    && (h.pc.Written? || h.pc.Unlocked? ==>
          && OnFile(s, h.pc.next)
          && (h.journal.Some? <==> h.pc.made.Some?)
          && (h.journal.Some? ==>
                && h.pc.next.revision == h.journal.value.revision + 1
                && Accepted(s.platform, h.journal.value, h.pc.made.value, h.pc.next)))
    && (h.pc.Idle? ==> h.journal.Some?)
  }

  ghost predicate Sound(s: System) {
    && IsChain(s)
    && (forall id | id in s.handles :: HandleIsSound(s, id, s.handles[id]))
    && (s.lock.Some? ==> s.lock.value in s.handles && HoldsLock(s.handles[s.lock.value].pc))
  }

  /** Replacing the file extends the chain and keeps every earlier content where it was. */
  lemma PersistExtendsTheChain(s: System, id: HandleId)
    requires Sound(s) && id in s.handles && AboutToWrite(s.handles[id].pc)
    ensures var t := Persist(s, s.handles[id].pc);
            && IsChain(t)
            && t.history.Some? && OnFile(t, Body(s.handles[id].pc))
            && (forall j | OnFile(s, j) :: OnFile(t, j))
  {
    hide Apply, Loadable, Accepted, IsChain, OnFile, Persist;
    var h := s.handles[id];
    assert HandleIsSound(s, id, h);
    if h.pc.Stamped? {
      ChangeExtendsTheChain(s, h.journal.value, h.pc);
    } else {
      CreationStartsTheChain(s, h.pc);
    }
  }

  lemma ChangeExtendsTheChain(s: System, j: Journal, pc: Pc)
    requires IsChain(s) && pc.Stamped? && s.disk == Some(j)
    requires Accepted(s.platform, j, pc.op, pc.next) && pc.next.revision == j.revision + 1
    ensures var t := Persist(s, pc);
            IsChain(t) && t.history.Some? && OnFile(t, pc.next) && forall old_ | OnFile(s, old_) :: OnFile(t, old_)
  {
    hide Accepted;
    var run := s.history.value;
    RunsExtend(run, pc.op, pc.next);
    hide Run.Valid;
  }

  lemma CreationStartsTheChain(s: System, pc: Pc)
    requires IsChain(s) && s.disk.None? && pc.CreatingAbsent? && pc.run.platform == s.platform && pc.run.Valid()
    ensures var t := Persist(s, pc);
            IsChain(t) && t.history.Some? && OnFile(t, Body(pc)) && forall old_ | OnFile(s, old_) :: OnFile(t, old_)
  {
    hide Accepted, NewJournal;
  }

  /** A step of one handle leaves every other handle sound: versions only grow, and the lock protects the rest. */
  lemma OtherHandlesStaySound(s: System, t: System, id: HandleId)
    requires Sound(s) && t.platform == s.platform
    requires forall j | OnFile(s, j) :: OnFile(t, j)
    requires t.disk != s.disk ==> s.lock == Some(id)
    requires t.lock != s.lock ==> s.lock.None? || s.lock == Some(id)
    requires forall other | other in t.handles && other != id ::
               other in s.handles && t.handles[other] == s.handles[other]
    ensures forall other | other in t.handles && other != id :: HandleIsSound(t, other, t.handles[other])
  {
    hide Apply, Loadable, Accepted;
    forall other | other in t.handles && other != id ensures HandleIsSound(t, other, t.handles[other]) {
      assert HandleIsSound(s, other, s.handles[other]);
    }
  }

  /** The handle a step moves. */
  function Mover(step: Step): HandleId {
    if step.CloneHandle? then step.copy else step.id
  }

  /** Whether a step replaces the file. */
  predicate Persists(step: Step) {
    step.Write? || (step.FailWith? && step.replaced)
  }

  lemma DiskIsOnFile(s: System)
    requires IsChain(s) && s.disk.Some?
    ensures OnFile(s, s.disk.value)
  {
    hide Accepted;
  }

  lemma StampingKeepsAcceptance(platform: Platform, j: Journal, op: Op, revision: nat)
    requires Apply(platform, j, op).Success?
    ensures Accepted(platform, j, op, Apply(platform, j, op).value.(revision := revision))
  {
    hide Apply;
  }

  /** The system a step leaves, as far as the file is concerned. */
  function FileAfter(s: System, step: Step): System {
    if Persists(step) && step.id in s.handles && AboutToWrite(s.handles[step.id].pc) then Persist(s, s.handles[step.id].pc) else s
  }

  /** Only a persisting step touches the file. */
  lemma OnlyPersistingTouchesTheFile(s: System, step: Step)
    requires Enabled(s, step)
    ensures var f, t := FileAfter(s, step), Next(s, step);
            f.history == t.history && f.first == t.first && f.disk == t.disk && f.platform == t.platform
  {
    hide Apply, Loadable;
  }

  lemma SameFileSameContents(f: System, t: System)
    requires f.history == t.history && f.first == t.first && f.disk == t.disk && f.platform == t.platform
    ensures IsChain(f) == IsChain(t)
    ensures forall j :: OnFile(t, j) == OnFile(f, j)
  {
    hide Accepted;
  }

  /** Every content the file had before a step is still where it was after it. */
  lemma OldContentsStayOnFile(s: System, step: Step)
    requires Sound(s) && Enabled(s, step)
    ensures IsChain(Next(s, step))
    ensures forall j | OnFile(s, j) :: OnFile(Next(s, step), j)
    ensures forall j :: OnFile(Next(s, step), j) == OnFile(FileAfter(s, step), j)
  {
    hide Apply, Loadable, Accepted, HandleIsSound, Next, IsChain, OnFile;
    OnlyPersistingTouchesTheFile(s, step);
    SameFileSameContents(FileAfter(s, step), Next(s, step));
    if Persists(step) {
      PersistExtendsTheChain(s, step.id);
    }
  }

  lemma RevisionsIdentifyContents(s: System, a: Journal, b: Journal)
    requires OnFile(s, a) && OnFile(s, b) && a.revision == b.revision
    ensures a == b
  {}

  lemma MoverStaysSound(s: System, step: Step)
    requires Sound(s) && Enabled(s, step)
    ensures var t := Next(s, step); var id := Mover(step);
            id in t.handles ==> HandleIsSound(t, id, t.handles[id])
  {
    hide Apply, Loadable, Accepted, IsChain, OnFile, Persist;
    OldContentsStayOnFile(s, step);
    if step.id in s.handles {
      assert HandleIsSound(s, step.id, s.handles[step.id]);
    }
    if step.Open? {
      DiskIsOnFile(s);
    } else if step.LoadAndCompare? {
      DiskIsOnFile(s);
      var h := s.handles[step.id];
      RevisionsIdentifyContents(s, s.disk.value, h.journal.value);
      StampingKeepsAcceptance(s.platform, h.journal.value, h.pc.op, h.journal.value.revision + 1);
    } else if Persists(step) {
      WriterStaysSound(s, step);
    }
  }

  lemma WriterStaysSound(s: System, step: Step)
    requires Sound(s) && Enabled(s, step) && Persists(step)
    ensures var t := Next(s, step);
            step.id in t.handles ==> HandleIsSound(t, step.id, t.handles[step.id])
  {
    hide Apply, Loadable, Accepted, IsChain, OnFile, Persist;
    assert HandleIsSound(s, step.id, s.handles[step.id]);
    PersistExtendsTheChain(s, step.id);
    OnlyPersistingTouchesTheFile(s, step);
    SameFileSameContents(FileAfter(s, step), Next(s, step));
  }

  /** Only the holder gives the lock up, and whoever is recorded as holder is inside a locked section. */
  lemma LockStaysHeld(s: System, step: Step)
    requires Sound(s) && Enabled(s, step)
    ensures var t := Next(s, step);
            && (t.lock != s.lock ==> s.lock.None? || s.lock == Some(Mover(step)))
            && (t.disk != s.disk ==> s.lock == Some(Mover(step)))
            && (t.lock.Some? ==> t.lock.value in t.handles && HoldsLock(t.handles[t.lock.value].pc))
  {
    hide Apply, Loadable, Accepted, IsChain, OnFile, Persist;
    OnlyPersistingTouchesTheFile(s, step);
    if step.id in s.handles {
      assert HandleIsSound(s, step.id, s.handles[step.id]);
    }
  }

  lemma StepsMoveOneHandle(s: System, step: Step)
    requires Enabled(s, step)
    ensures Next(s, step).platform == s.platform
    ensures forall other | other in Next(s, step).handles && other != Mover(step) ::
              other in s.handles && Next(s, step).handles[other] == s.handles[other]
  {
    hide Apply, Loadable;
  }

  lemma StepsKeepSound(s: System, step: Step)
    requires Sound(s) && Enabled(s, step)
    ensures Sound(Next(s, step))
  {
    hide Apply, Loadable, Accepted, HandleIsSound, IsChain, OnFile, Enabled, Next;
    LockStaysHeld(s, step);
    OldContentsStayOnFile(s, step);
    MoverStaysSound(s, step);
    StepsMoveOneHandle(s, step);
    OtherHandlesStaySound(s, Next(s, step), Mover(step));
  }

  // ---- Whole behaviours ----

  datatype Behaviour = Behaviour(states: seq<System>, steps: seq<Step>) {
    ghost predicate Valid() {
      && |states| == |steps| + 1
      && states[0] == Init(states[0].platform)
      && forall i {:trigger steps[i]} | 0 <= i < |steps| ::
           Enabled(states[i], steps[i]) && states[i + 1] == Next(states[i], steps[i])
    }
  }

  lemma InitIsSound(platform: Platform)
    ensures Sound(Init(platform))
  {}

  lemma {:induction false} BehavioursStaySound(b: Behaviour, k: nat)
    requires b.Valid() && k < |b.states|
    ensures Sound(b.states[k])
  {
    hide Apply, Loadable, Accepted, Sound;
    InitIsSound(b.states[0].platform);
    if k > 0 {
      BehavioursStaySound(b, k - 1);
      StepsKeepSound(b.states[k - 1], b.steps[k - 1]);
    }
  }

  /**
   Whatever was interleaved, failed or crashed: the contents the file ever had continue one run of legal
   transitions with revisions rising by exactly one, the newest is on disk and reloads, and every handle's
   memory is the content the file had at that handle's revision.
   */
  lemma TheFileHoldsOneChain(b: Behaviour, k: nat)
    requires b.Valid() && k < |b.states|
    ensures IsChain(b.states[k])
    ensures b.states[k].disk.Some? ==> Loadable(b.states[k].disk.value)
    ensures forall id | id in b.states[k].handles && b.states[k].handles[id].journal.Some? ::
              OnFile(b.states[k], b.states[k].handles[id].journal.value)
  {
    hide Apply, ValidateLoaded, Accepted, TracesToOffer;
    BehavioursStaySound(b, k);
    var s := b.states[k];
    if s.disk.Some? {
      RunsStayReachable(s.history.value, |s.history.value.journals| - 1);
    }
    forall id | id in s.handles && s.handles[id].journal.Some? ensures OnFile(s, s.handles[id].journal.value) {
      assert HandleIsSound(s, id, s.handles[id]);
    }
  }

  /** The validation before a write never refuses: whatever reached that point is written unless the disk fails. */
  lemma WriteBodyNeverRefuses(b: Behaviour, k: nat, id: HandleId)
    requires b.Valid() && k < |b.states| && id in b.states[k].handles && AboutToWrite(b.states[k].handles[id].pc)
    ensures Enabled(b.states[k], Write(id))
  {
    hide Apply, ValidateLoaded, Accepted, TracesToOffer, Behaviour.Valid, OnFile, Persist;
    BehavioursStaySound(b, k);
    var s := b.states[k];
    PersistExtendsTheChain(s, id);
    var t := Persist(s, s.handles[id].pc);
    WhatIsPersistedIsLast(s, s.handles[id].pc);
    hide Sound;
    RunsStayReachable(t.history.value, |t.history.value.journals| - 1);
  }

  lemma WhatIsPersistedIsLast(s: System, pc: Pc)
    requires AboutToWrite(pc) && IsChain(Persist(s, pc)) && Persist(s, pc).history.Some?
    ensures Last(Persist(s, pc).history.value.journals) == Body(pc)
  {
    hide Run.Valid;
  }

  /** The transition a handle is in the middle of. */
  function Underway(pc: Pc): Option<Op> {
    match pc
    case Staged(_, op) => Some(op)
    case Locked(_, op) => Some(op)
    case Stamped(_, op) => Some(op)
    case Written(_, made) => made
    case Unlocked(_, made) => made
    case _ => None
  }

  /** The handle began the transition at an earlier step, from the memory it still has. */
  ghost predicate BeganAt(b: Behaviour, i: nat, id: HandleId, op: Op, before: Journal)
    requires b.Valid() && i < |b.steps|
  {
    b.steps[i] == BeginChange(id, op) && b.states[i].handles[id].journal == Some(before)
  }

  /** Only a change that begins, or one that goes on, has a transition underway. */
  lemma UnderwayStep(s: System, step: Step, id: HandleId)
    requires Enabled(s, step) && id in Next(s, step).handles && Underway(Next(s, step).handles[id].pc).Some?
    ensures || (id in s.handles && s.handles[id].journal.Some?
                && step == BeginChange(id, Underway(Next(s, step).handles[id].pc).value)
                && Next(s, step).handles[id].journal == s.handles[id].journal)
            || (id in s.handles && Underway(s.handles[id].pc) == Underway(Next(s, step).handles[id].pc)
                && Next(s, step).handles[id].journal == s.handles[id].journal)
  {
    hide Apply, Loadable;
  }

  lemma {:induction false} UnderwayWasBegun(b: Behaviour, k: nat, id: HandleId) returns (i: nat)
    requires b.Valid() && k < |b.states| && id in b.states[k].handles
    requires Underway(b.states[k].handles[id].pc).Some? && b.states[k].handles[id].journal.Some?
    ensures i < k && BeganAt(b, i, id, Underway(b.states[k].handles[id].pc).value, b.states[k].handles[id].journal.value)
  {
    hide Enabled, Next;
    UnderwayStep(b.states[k - 1], b.steps[k - 1], id);
    var h := b.states[k].handles[id];
    if b.steps[k - 1] == BeginChange(id, Underway(h.pc).value) && b.states[k - 1].handles[id].journal == h.journal {
      i := k - 1;
    } else {
      i := UnderwayWasBegun(b, k - 1, id);
    }
  }

  /** A change that reports success moved the file, and the handle, by exactly the transition it was asked for. */
  lemma PublishedChangesAreOnFile(b: Behaviour, k: nat, id: HandleId) returns (i: nat, op: Op)
    requires b.Valid() && k < |b.steps| && b.steps[k] == Publish(id)
    requires b.states[k].handles[id].journal.Some?
    ensures b.states[k + 1].handles[id].journal.Some?
    ensures var before, after := b.states[k].handles[id].journal.value, b.states[k + 1].handles[id].journal.value;
            && i < k && BeganAt(b, i, id, op, before)
            && Accepted(b.states[k].platform, before, op, after)
            && after.revision == before.revision + 1
            && OnFile(b.states[k], before) && OnFile(b.states[k], after)
  {
    hide Accepted, OnFile, IsChain, Behaviour.Valid, Apply, Loadable;
    StepFollows(b, k);
    BehavioursStaySound(b, k);
    var s := b.states[k];
    assert HandleIsSound(s, id, s.handles[id]);
    op := s.handles[id].pc.made.value;
    i := UnderwayWasBegun(b, k, id);
  }

  lemma StepFollows(b: Behaviour, k: nat)
    requires b.Valid() && k < |b.steps|
    ensures |b.states| == |b.steps| + 1
    ensures Enabled(b.states[k], b.steps[k]) && b.states[k + 1] == Next(b.states[k], b.steps[k])
  {}

  /** The history of `t` continues that of `s`. */
  ghost predicate Continues(s: System, t: System) {
    s.history.Some? ==>
      && t.history.Some? && t.first == s.first
      && s.history.value.journals <= t.history.value.journals
  }

  lemma StepsContinue(s: System, step: Step)
    requires Sound(s) && Enabled(s, step)
    ensures Continues(s, Next(s, step))
  {
    hide Apply, Loadable, Accepted, OnFile;
    if Persists(step) {
      assert HandleIsSound(s, step.id, s.handles[step.id]);
    }
  }

  lemma {:induction false} VersionsOnlyGrow(b: Behaviour, i: nat, k: nat)
    requires b.Valid() && i <= k < |b.states|
    ensures Continues(b.states[i], b.states[k])
    decreases k
  {
    hide Sound, Enabled;
    if i < k {
      VersionsOnlyGrow(b, i, k - 1);
      BehavioursStaySound(b, k - 1);
      StepsContinue(b.states[k - 1], b.steps[k - 1]);
    }
  }

  /** The revision a change compares against, and advances by one, when it replaces the file. */
  predicate ReplacesAt(s: System, step: Step, revision: nat) {
    && Persists(step) && step.id in s.handles
    && s.handles[step.id].journal.Some? && s.handles[step.id].journal.value.revision == revision
  }

  lemma ReplacingTakesTheNextRevision(s: System, step: Step, revision: nat)
    requires Sound(s) && Enabled(s, step) && ReplacesAt(s, step, revision)
    ensures s.disk.Some? && s.disk.value.revision == revision
    ensures Next(s, step).history.Some? && Next(s, step).disk.Some? && Next(s, step).disk.value.revision == revision + 1
  {
    hide Apply, Loadable, Accepted, OnFile;
    assert HandleIsSound(s, step.id, s.handles[step.id]);
  }

  lemma NewestRevisionRises(s: System, t: System)
    requires IsChain(s) && IsChain(t) && Continues(s, t) && s.history.Some?
    ensures s.disk.Some? && t.disk.Some? && s.disk.value.revision <= t.disk.value.revision
  {
    hide Accepted;
  }

  /** Two changes never both win at one revision, whoever made them and whatever happened in between. */
  lemma NoTwoChangesWinAtOneRevision(b: Behaviour, i: nat, k: nat, ri: nat, rk: nat)
    requires b.Valid() && i < k < |b.steps|
    requires ReplacesAt(b.states[i], b.steps[i], ri) && ReplacesAt(b.states[k], b.steps[k], rk)
    ensures ri < rk
  {
    hide HandleIsSound, IsChain, Enabled, Next, Continues, ReplacesAt;
    BehavioursStaySound(b, i);
    BehavioursStaySound(b, i + 1);
    BehavioursStaySound(b, k);
    VersionsOnlyGrow(b, i + 1, k);
    ReplacingTakesTheNextRevision(b.states[i], b.steps[i], ri);
    ReplacingTakesTheNextRevision(b.states[k], b.steps[k], rk);
    NewestRevisionRises(b.states[i + 1], b.states[k]);
  }

  /**
   A rollback offered to any handle is safe against all the others: it is the newest content of the file,
   no transition leads on from it, and no handle anywhere has writes resumed.
   */
  lemma OfferedRollbackIsFinal(b: Behaviour, k: nat, id: HandleId)
    requires b.Valid() && k < |b.states|
    requires id in b.states[k].handles && b.states[k].handles[id].journal.Some?
    requires b.states[k].handles[id].journal.value.NextAction().RestorePreviousRuntime?
    ensures b.states[k].disk == b.states[k].handles[id].journal
    ensures forall op :: Apply(b.states[k].platform, b.states[k].disk.value, op).Failure?
    ensures forall other | other in b.states[k].handles && b.states[k].handles[other].journal.Some? ::
              !b.states[k].handles[other].journal.value.writesResumed
  {
    hide Apply, Loadable, Accepted;
    BehavioursStaySound(b, k);
    var s := b.states[k];
    var run := s.history.value;
    assert HandleIsSound(s, id, s.handles[id]);
    var i := IndexOf(s, s.handles[id].journal.value.revision);
    RollbackEndsTheRun(run, i);
    OfferedRollbackIsCoherent(run, i);
    forall other | other in s.handles && s.handles[other].journal.Some?
      ensures !s.handles[other].journal.value.writesResumed
    {
      assert HandleIsSound(s, other, s.handles[other]);
    }
  }
}
