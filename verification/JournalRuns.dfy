/**
 Safety of whole update runs: what holds of every journal reachable from a new offer by accepted
 transitions, whatever the order, the evidence or the number of refused attempts in between.
 */
module JournalRuns {
  import opened Basics
  import opened UpdateJournals

  /** One accepted transition. The revision is left open: the store stamps it when it persists the result. */
  ghost predicate Accepted(platform: Platform, j: Journal, op: Op, j': Journal) {
    Apply(platform, j, op).Success? && j' == Apply(platform, j, op).value.(revision := j'.revision)
  }

  /** The journals of one update, starting at its offer; `journals[i + 1]` is the result of `ops[i]`. */
  datatype Run = Run(platform: Platform, offer: UpdateOffer, journals: seq<Journal>, ops: seq<Op>) {
    ghost predicate Valid() {
      && NewJournal(offer).Success?
      && |journals| == |ops| + 1
      && journals[0] == NewJournal(offer).value
      && forall i {:trigger ops[i]} | 0 <= i < |ops| :: Accepted(platform, journals[i], ops[i], journals[i + 1])
    }
  }

  /** A run continues with any transition its last journal accepts. */
  lemma RunsExtend(run: Run, op: Op, next: Journal)
    requires run.Valid() && Accepted(run.platform, run.journals[|run.ops|], op, next)
    ensures run.(journals := run.journals + [next], ops := run.ops + [op]).Valid()
  {
    hide Accepted;
  }

  /** The installed identity names what was offered: same paths, same version. */
  ghost predicate NamesTheCandidate(platform: Platform, offer: UpdateOffer, installed: RuntimeIdentity) {
    && PathsEqual(platform, installed.binary.path, offer.candidate.binary.path)
    && installed.binary.version == offer.stagedManifest.candidateVersion
    && PathsEqual(platform, installed.database.path, offer.candidate.database.path)
  }

  /** The inductive invariant of a run: the journal reloads, and its facts trace back to the offer. */
  ghost predicate Reachable(platform: Platform, offer: UpdateOffer, j: Journal) {
    Loadable(j) && TracesToOffer(platform, offer, j)
  }

  ghost predicate TracesToOffer(platform: Platform, offer: UpdateOffer, j: Journal) {
    KeepsTheOffer(platform, offer, j) && FactsFitThePhase(j) && InstallsTheCandidate(platform, offer, j)
  }

  ghost predicate KeepsTheOffer(platform: Platform, offer: UpdateOffer, j: Journal) {
    && j.records == offer.records && j.nonce == offer.nonce
    && j.candidate == offer.candidate && j.stagedManifest == offer.stagedManifest
    && j.previous.binary == offer.previous.binary
    && (j.drain.None? ==> j.previous == offer.previous)
    && PathsEqual(platform, j.previous.database.path, offer.previous.database.path)
  }

  ghost predicate FactsFitThePhase(j: Journal) {
    && (j.recoveryAction.Some? <==> j.phase == RecoveryNeeded)
    && (j.recoveryAction.Some? && j.recoveryAction.value.QuarantineCurrentState? ==> j.writesResumed)
    && (j.phase == Installed || j.phase == Promoted || j.writesResumed ==> j.installed.Some?)
    && (j.installed.Some? ==> PhaseRank(j.phase) >= PhaseRank(Installed))
  }

  ghost predicate InstallsTheCandidate(platform: Platform, offer: UpdateOffer, j: Journal) {
    j.installed.Some? ==> NamesTheCandidate(platform, offer, j.installed.value)
  }

  function PhaseRank(phase: Phase): nat {
    match phase
    case Available => 0
    case Downloaded => 1
    case WaitingIdle => 2
    case Maintenance => 3
    case BackupVerified => 4
    case Installing => 5
    case Validating => 6
    case Installed => 7
    case Promoted => 8
    case RecoveryNeeded => 9
  }

  /** The two transitions that may be repeated: their second acceptance changes no phase and no flag. */
  predicate Repeats(j: Journal, op: Op) {
    || (op.ResumeWrites? && j.writesResumed)
    || (op.RecordPostResumeFailure? && j.phase == RecoveryNeeded)
  }

  function Progress(j: Journal): nat {
    PhaseRank(j.phase) + if j.writesResumed then 1 else 0
  }

  // ---- Validation is kept by every transition, from any loaded journal ----

  /** An offer that is taken up is loadable; so is the result of a transition on anything loadable. */
  lemma NewIsLoadable(offer: UpdateOffer)
    requires NewJournal(offer).Success?
    ensures Loadable(NewJournal(offer).value)
    ensures forall platform :: Reachable(platform, offer, NewJournal(offer).value)
  {}

  lemma TransitionsKeepLoadable(platform: Platform, j: Journal, op: Op, j': Journal)
    requires Loadable(j) && Accepted(platform, j, op, j')
    ensures Loadable(j')
  {
    hide PathsEqual, HandshakeMatches, ReceiptMatches, FileIdentity.Valid, ImmutableRecords.Valid, StagedManifest.Valid,
      VerifiedBackup.ValidFor, InstanceHandshake.ValidFacts;
  }

  lemma TransitionsKeepReachable(platform: Platform, offer: UpdateOffer, j: Journal, op: Op, j': Journal)
    requires Reachable(platform, offer, j) && Accepted(platform, j, op, j')
    ensures Reachable(platform, offer, j')
  {
    hide Accepted, Loadable, TracesToOffer;
    TransitionsKeepLoadable(platform, j, op, j');
    TransitionsKeepTraces(platform, offer, j, op, j');
  }

  lemma TransitionsKeepTraces(platform: Platform, offer: UpdateOffer, j: Journal, op: Op, j': Journal)
    requires Reachable(platform, offer, j) && Accepted(platform, j, op, j')
    ensures TracesToOffer(platform, offer, j')
  {
    hide Accepted, Loadable, KeepsTheOffer, FactsFitThePhase, InstallsTheCandidate;
    TransitionsKeepTheOffer(platform, offer, j, op, j');
    TransitionsKeepFactsFitting(platform, j, op, j');
    TransitionsKeepTheCandidate(platform, offer, j, op, j');
  }

  lemma TransitionsKeepTheOffer(platform: Platform, offer: UpdateOffer, j: Journal, op: Op, j': Journal)
    requires KeepsTheOffer(platform, offer, j) && Accepted(platform, j, op, j')
    ensures KeepsTheOffer(platform, offer, j')
  {
    if op.EnterMaintenance? {
      PathsEqualIsTransitive(
        platform, op.drain.quiescedDatabase.path, j.previous.database.path, offer.previous.database.path);
    }
    hide PathsEqual, HandshakeMatches, ReceiptMatches, DrainProof.Valid, VerifiedBackup.ValidFor, InstanceHandshake.ValidFacts;
  }

  lemma TransitionsKeepFactsFitting(platform: Platform, j: Journal, op: Op, j': Journal)
    requires FactsFitThePhase(j) && Accepted(platform, j, op, j')
    ensures FactsFitThePhase(j')
  {
    hide PathsEqual, HandshakeMatches, ReceiptMatches, DrainProof.Valid, VerifiedBackup.ValidFor, InstanceHandshake.ValidFacts;
  }

  lemma TransitionsKeepTheCandidate(platform: Platform, offer: UpdateOffer, j: Journal, op: Op, j': Journal)
    requires KeepsTheOffer(platform, offer, j) && InstallsTheCandidate(platform, offer, j)
    requires Accepted(platform, j, op, j')
    ensures InstallsTheCandidate(platform, offer, j')
  {
    hide PathsEqual, ReceiptMatches, DrainProof.Valid, VerifiedBackup.ValidFor, InstanceHandshake.ValidFacts;
  }

  lemma PathsEqualIsTransitive(platform: Platform, a: string, b: string, c: string)
    ensures PathsEqual(platform, a, b) && PathsEqual(platform, b, c) ==> PathsEqual(platform, a, c)
  {
    hide Components;
  }

  lemma {:induction false} RunsStayReachable(run: Run, k: nat)
    requires run.Valid() && k < |run.journals|
    ensures Reachable(run.platform, run.offer, run.journals[k])
  {
    hide Reachable, Accepted, NewJournal;
    if k == 0 {
      NewIsLoadable(run.offer);
    } else {
      RunsStayReachable(run, k - 1);
      TransitionsKeepReachable(run.platform, run.offer, run.journals[k - 1], run.ops[k - 1], run.journals[k]);
    }
  }

  /**
   Every journal of every run reloads, and a recovery action is recorded exactly in `RecoveryNeeded`:
   the fallback of `NextAction` for a missing one is never taken.
   */
  lemma EveryRunReloads(run: Run, k: nat)
    requires run.Valid() && k < |run.journals|
    ensures Loadable(run.journals[k])
    ensures run.journals[k].recoveryAction.Some? <==> run.journals[k].phase == RecoveryNeeded
    ensures run.journals[k].phase == RecoveryNeeded ==>
              run.journals[k].NextAction() == run.journals[k].recoveryAction.value
  {
    RunsStayReachable(run, k);
  }

  /** Loading does not demand the observed digests: a file without them reads exactly like one with them. */
  lemma LoadingIgnoresInstalled(j: Journal, installed: Option<RuntimeIdentity>)
    ensures ValidateLoaded(j.(installed := installed)) == ValidateLoaded(j)
  {}

  // ---- Where the facts of a journal came from ----

  /** Each fact is recorded once, by the one transition that carries it, and then stays as it is. */
  ghost predicate RecordsFactsOnce(offer: UpdateOffer, j: Journal, op: Op, j': Journal) {
    && (j.drain.Some? ==> j'.drain == j.drain)
    && (j.drain.None? && j'.drain.Some? ==> op == EnterMaintenance(j'.drain.value))
    && (j.backup.Some? ==> j'.backup == j.backup)
    && (j.backup.None? && j'.backup.Some? ==> op == VerifyBackup(j'.backup.value) && j.drain.Some?)
    && (j.installed.Some? ==> j'.installed == j.installed)
    && (j.installed.None? && j'.installed.Some? ==>
          && op.AcceptHandshake? && op.handshake.nonce == offer.nonce
          && j'.installed.value == RuntimeIdentity(op.handshake.binary, op.handshake.database)
          && j.backup.Some? && j.drain.Some?)
    && (j.writesResumed ==> j'.writesResumed)
    && (!j.writesResumed && j'.writesResumed ==> op.ResumeWrites? && j.installed.Some?)
  }

  lemma TransitionsRecordFactsOnce(platform: Platform, offer: UpdateOffer, j: Journal, op: Op, j': Journal)
    requires Reachable(platform, offer, j) && Accepted(platform, j, op, j')
    ensures RecordsFactsOnce(offer, j, op, j')
  {
    hide PathsEqual, ReceiptMatches, FileIdentity.Valid, ImmutableRecords.Valid, StagedManifest.Valid,
      VerifiedBackup.ValidFor, InstanceHandshake.ValidFacts;
  }

  lemma RunsRecordFactsOnce(run: Run, i: nat)
    requires run.Valid() && i < |run.ops|
    ensures RecordsFactsOnce(run.offer, run.journals[i], run.ops[i], run.journals[i + 1])
  {
    hide Accepted, Reachable;
    RunsStayReachable(run, i);
    TransitionsRecordFactsOnce(run.platform, run.offer, run.journals[i], run.ops[i], run.journals[i + 1]);
  }

  lemma {:induction false} DrainStep(run: Run, k: nat) returns (a: nat)
    requires run.Valid() && k < |run.journals| && run.journals[k].drain.Some?
    ensures a < k && run.ops[a] == EnterMaintenance(run.journals[k].drain.value)
  {
    hide Accepted, Reachable;
    RunsRecordFactsOnce(run, k - 1);
    a := k - 1;
    if run.journals[k - 1].drain.Some? {
      a := DrainStep(run, k - 1);
    }
  }

  lemma {:induction false} BackupStep(run: Run, k: nat) returns (b: nat)
    requires run.Valid() && k < |run.journals| && run.journals[k].backup.Some?
    ensures b < k && run.ops[b] == VerifyBackup(run.journals[k].backup.value)
    ensures run.journals[b].drain.Some? && run.journals[b].drain == run.journals[k].drain
  {
    hide Accepted, Reachable;
    RunsRecordFactsOnce(run, k - 1);
    b := k - 1;
    if run.journals[k - 1].backup.Some? {
      b := BackupStep(run, k - 1);
    }
  }

  lemma {:induction false} HandshakeStep(run: Run, k: nat) returns (c: nat)
    requires run.Valid() && k < |run.journals| && run.journals[k].installed.Some?
    ensures c < k && run.ops[c].AcceptHandshake? && run.ops[c].handshake.nonce == run.offer.nonce
    ensures run.journals[k].installed.value ==
            RuntimeIdentity(run.ops[c].handshake.binary, run.ops[c].handshake.database)
    ensures run.journals[c].backup.Some? && run.journals[c].drain.Some?
  {
    hide Accepted, Reachable;
    RunsRecordFactsOnce(run, k - 1);
    c := k - 1;
    if run.journals[k - 1].installed.Some? {
      c := HandshakeStep(run, k - 1);
    }
  }

  lemma {:induction false} ResumeStep(run: Run, k: nat) returns (d: nat)
    requires run.Valid() && k < |run.journals| && run.journals[k].writesResumed
    ensures d < k && run.ops[d].ResumeWrites? && !run.journals[d].writesResumed
    ensures run.journals[d].installed.Some?
  {
    hide Accepted, Reachable;
    RunsRecordFactsOnce(run, k - 1);
    d := k - 1;
    if run.journals[k - 1].writesResumed {
      d := ResumeStep(run, k - 1);
    }
  }

  /**
   Writes are accepted only after, in this order: a drain, a backup of exactly the drained database, a
   handshake carrying the offer's nonce, candidate paths and staged version, and a recorded resumption.
   */
  lemma AcceptingWritesNeedsTheWholeSequence(run: Run, k: nat)
    requires run.Valid() && k < |run.journals| && run.journals[k].CanAcceptWrites()
    ensures exists a, b, c, d ::
              && 0 <= a < b < c < d < k
              && run.ops[a].EnterMaintenance?
              && run.ops[b].VerifyBackup?
              && run.ops[b].backup.ValidFor(run.ops[a].drain.quiescedDatabase)
              && run.ops[c].AcceptHandshake?
              && run.ops[c].handshake.nonce == run.offer.nonce
              && NamesTheCandidate(run.platform, run.offer,
                                   RuntimeIdentity(run.ops[c].handshake.binary, run.ops[c].handshake.database))
              && run.ops[d].ResumeWrites?
  {
    var d := ResumeStep(run, k);
    var c := HandshakeStep(run, d);
    var b := BackupStep(run, c);
    var a := DrainStep(run, b);
    RunsStayReachable(run, c);
    RunsStayReachable(run, d);
  }

  // ---- Rollback and resumption exclude each other ----

  lemma {:induction false} ResumptionIsForever(run: Run, i: nat, k: nat)
    requires run.Valid() && i <= k < |run.journals| && run.journals[i].writesResumed
    ensures run.journals[k].writesResumed
    decreases k
  {
    hide Accepted;
    if i < k {
      ResumptionIsForever(run, i, k - 1);
      RunsRecordFactsOnce(run, k - 1);
    }
  }

  /** Once writes resumed, the old runtime is never again offered for restoration. */
  lemma NoRollbackAfterResumption(run: Run, i: nat, k: nat)
    requires run.Valid() && i <= k < |run.journals| && run.journals[i].writesResumed
    ensures run.journals[k].writesResumed && !run.journals[k].NextAction().RestorePreviousRuntime?
  {
    ResumptionIsForever(run, i, k);
    RunsStayReachable(run, k);
  }

  /**
   Whenever a rollback is offered, no journal of the run ever had writes resumed, and the pair it restores
   is the offered binary, the database recorded by the run's own drain, and a snapshot with that database's
   digest that the run's own backup step verified.
   */
  lemma OfferedRollbackIsCoherent(run: Run, k: nat)
    requires run.Valid() && k < |run.journals| && run.journals[k].NextAction().RestorePreviousRuntime?
    ensures forall i | 0 <= i <= k :: !run.journals[i].writesResumed
    ensures var action := run.journals[k].NextAction();
            exists a, b ::
              && 0 <= a < b < k
              && run.ops[a].EnterMaintenance? && run.ops[b].VerifyBackup?
              && action.previous == RuntimeIdentity(run.offer.previous.binary, run.ops[a].drain.quiescedDatabase)
              && action.snapshot == run.ops[b].backup.snapshot
              && action.snapshot.sha256 == run.ops[a].drain.quiescedDatabase.sha256
  {
    forall i | 0 <= i <= k ensures !run.journals[i].writesResumed {
      if run.journals[i].writesResumed {
        NoRollbackAfterResumption(run, i, k);
      }
    }
    RunsStayReachable(run, k);
    var b := BackupStep(run, k);
    var a := DrainStep(run, b);
  }

  lemma RollbackAcceptsNothing(platform: Platform, offer: UpdateOffer, j: Journal, op: Op)
    requires Reachable(platform, offer, j) && j.NextAction().RestorePreviousRuntime?
    ensures Apply(platform, j, op).Failure?
  {
    hide PathsEqual, HandshakeMatches, ReceiptMatches, FileIdentity.Valid, ImmutableRecords.Valid, StagedManifest.Valid,
      VerifiedBackup.ValidFor, InstanceHandshake.ValidFacts;
    assert j.phase == RecoveryNeeded && !j.writesResumed;
    hide Reachable, Journal.NextAction, ValidateLoaded, After;
  }

  /** A journal that offers a rollback accepts no transition, so it ends its run. */
  lemma RollbackEndsTheRun(run: Run, i: nat)
    requires run.Valid() && i < |run.journals| && run.journals[i].NextAction().RestorePreviousRuntime?
    ensures i == |run.ops|
    ensures forall op :: Apply(run.platform, run.journals[i], op).Failure?
  {
    RunsStayReachable(run, i);
    forall op ensures Apply(run.platform, run.journals[i], op).Failure? {
      RollbackAcceptsNothing(run.platform, run.offer, run.journals[i], op);
    }
    assert i < |run.ops| ==> Accepted(run.platform, run.journals[i], run.ops[i], run.journals[i + 1]);
  }

  // ---- Runs move forward, and end ----

  /** An accepted transition strictly rises unless it is one of the two repeatable ones, which stand still. */
  lemma TransitionsRise(platform: Platform, offer: UpdateOffer, j: Journal, op: Op, j': Journal)
    requires Reachable(platform, offer, j) && Accepted(platform, j, op, j')
    ensures PhaseRank(j.phase) <= PhaseRank(j'.phase)
    ensures Repeats(j, op) ==> j'.phase == j.phase && j'.writesResumed == j.writesResumed
    ensures !Repeats(j, op) ==> Progress(j) < Progress(j') <= 10
  {
    hide Reachable, PathsEqual, HandshakeMatches, ReceiptMatches, FileIdentity.Valid, ImmutableRecords.Valid, StagedManifest.Valid,
      VerifiedBackup.ValidFor, InstanceHandshake.ValidFacts;
  }

  /** How many of the first `k` transitions were not repetitions. */
  ghost function FreshSteps(run: Run, k: nat): nat
    requires run.Valid() && k <= |run.ops|
  {
    if k == 0 then 0
    else FreshSteps(run, k - 1) + if Repeats(run.journals[k - 1], run.ops[k - 1]) then 0 else 1
  }

  lemma {:induction false} FreshStepsAreBoundedByProgress(run: Run, k: nat)
    requires run.Valid() && k <= |run.ops|
    ensures FreshSteps(run, k) <= Progress(run.journals[k])
  {
    hide Accepted, Reachable;
    if k > 0 {
      FreshStepsAreBoundedByProgress(run, k - 1);
      RunsStayReachable(run, k - 1);
      TransitionsRise(run.platform, run.offer, run.journals[k - 1], run.ops[k - 1], run.journals[k]);
    }
  }

  /** No run holds more than ten transitions besides repetitions. */
  lemma AtMostTenFreshSteps(run: Run)
    requires run.Valid()
    ensures FreshSteps(run, |run.ops|) <= 10
  {
    FreshStepsAreBoundedByProgress(run, |run.ops|);
  }

  lemma {:induction false} PhasesNeverFall(run: Run, i: nat, k: nat)
    requires run.Valid() && i <= k < |run.journals|
    ensures PhaseRank(run.journals[i].phase) <= PhaseRank(run.journals[k].phase)
    decreases k
  {
    hide Accepted, Reachable;
    if i < k {
      PhasesNeverFall(run, i, k - 1);
      RunsStayReachable(run, k - 1);
      TransitionsRise(run.platform, run.offer, run.journals[k - 1], run.ops[k - 1], run.journals[k]);
    }
  }

  /** From `Installing` on, the helper is never again told to install. */
  lemma InstallIsNotOfferedAgain(run: Run, i: nat, k: nat)
    requires run.Valid() && i <= k < |run.journals|
    requires PhaseRank(run.journals[i].phase) >= PhaseRank(Installing)
    ensures !run.journals[k].NextAction().InstallCandidate?
  {
    PhasesNeverFall(run, i, k);
    RunsStayReachable(run, k);
  }
}
