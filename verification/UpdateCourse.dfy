/**
 The course of an update, told by its operations alone. What a journal accepts next, which action it offers and
 whether it lets users write depend on the offer and the last accepted operation, and on nothing else it records.
 */
module UpdateCourse {
  import opened Basics
  import opened UpdateJournals
  import opened JournalRuns

  function LastOp(run: Run, k: nat): Option<Op>
    requires k <= |run.ops|
  {
    if k == 0 then None else Some(run.ops[k - 1])
  }

  predicate Named(file: FileIdentity) {
    file.path != "" && file.version != "" && file.sha256 != ""
  }

  /** What may follow the last operation, and with which evidence. */
  predicate MayFollow(platform: Platform, offer: UpdateOffer, last: Option<Op>, op: Op) {
    match op
    case RecordDownloaded(observed) => last == None && observed == offer.stagedManifest
    case WaitForIdle => last.Some? && last.value.RecordDownloaded?
    case EnterMaintenance(drain) =>
      && last == Some(Op.WaitForIdle)
      && drain.evidenceId != "" && Named(drain.quiescedDatabase)
      && PathsEqual(platform, drain.quiescedDatabase.path, offer.previous.database.path)
    case VerifyBackup(backup) =>
      && last.Some? && last.value.EnterMaintenance?
      && Named(backup.snapshot)
      && backup.sourceDatabaseSha256 == backup.snapshot.sha256 == last.value.drain.quiescedDatabase.sha256
      && backup.checkpointEvidenceId != "" && backup.verificationEvidenceId != ""
    case BeginInstall => last.Some? && last.value.VerifyBackup?
    case BeginValidation => last == Some(BeginInstall)
    case AcceptHandshake(h) =>
      && last == Some(BeginValidation)
      && h.processId != 0 && h.startedAtUnixMillis != 0 && h.validationEvidenceId != "" && h.healthEvidenceId != ""
      && h.nonce == offer.nonce && h.binary.version == offer.stagedManifest.candidateVersion
      && PathsEqual(platform, h.binary.path, offer.candidate.binary.path)
      && PathsEqual(platform, h.database.path, offer.candidate.database.path)
    case RecordHealthFailure(reason) =>
      last.Some? && (last.value.BeginValidation? || last.value.AcceptHandshake?) && reason != ""
    case ResumeWrites(evidenceId) =>
      last.Some? && (last.value.AcceptHandshake? || last.value.ResumeWrites?) && evidenceId != ""
    case Promote(receipt) =>
      && last.Some? && last.value.ResumeWrites?
      && receipt.evidenceId != ""
      && receipt.candidateId == offer.records.candidateId
      && receipt.manifestSha256 == offer.stagedManifest.manifestSha256
      && receipt.signedArtifactSha256 == offer.stagedManifest.signedArtifactSha256
    case RecordPostResumeFailure(reason) =>
      && last.Some? && (last.value.ResumeWrites? || last.value.Promote? || last.value.RecordPostResumeFailure?)
      && reason != ""
  }

  /** What is offered after the last operation. */
  predicate Offers(offer: UpdateOffer, last: Option<Op>, action: RecoveryAction) {
    match last
    case None => action == NoAction
    case Some(RecordDownloaded(_)) => action == RecoveryAction.WaitForIdle
    case Some(WaitForIdle) => action == RecoveryAction.WaitForIdle
    case Some(EnterMaintenance(_)) => action == VerifyCoherentBackup
    case Some(VerifyBackup(_)) => action == InstallCandidate(offer.candidate.binary, offer.stagedManifest)
    case Some(BeginInstall) => action == ValidateCandidate(offer.candidate, offer.nonce)
    case Some(BeginValidation) => action == ValidateCandidate(offer.candidate, offer.nonce)
    case Some(AcceptHandshake(_)) => action == RecoveryAction.ResumeWrites
    case Some(ResumeWrites(_)) =>
      action == PromoteSameSignedBytes(offer.stagedManifest.manifestSha256, offer.stagedManifest.signedArtifactSha256,
                                       offer.records.candidateId)
    case Some(Promote(_)) => action == NoAction
    case Some(RecordHealthFailure(reason)) => action.RestorePreviousRuntime? && action.reason == reason
    case Some(RecordPostResumeFailure(reason)) => action == QuarantineCurrentState(reason)
  }

  // ---- What the journal records after each operation ----

  predicate Carries(offer: UpdateOffer, j: Journal) {
    && j.records == offer.records && j.nonce == offer.nonce
    && j.candidate == offer.candidate && j.stagedManifest == offer.stagedManifest
  }

  predicate PhaseFits(last: Option<Op>, j: Journal) {
    match last
    case None => j.phase == Available
    case Some(RecordDownloaded(_)) => j.phase == Downloaded
    case Some(WaitForIdle) => j.phase == WaitingIdle
    case Some(EnterMaintenance(_)) => j.phase == Maintenance
    case Some(VerifyBackup(_)) => j.phase == BackupVerified
    case Some(BeginInstall) => j.phase == Installing
    case Some(BeginValidation) => j.phase == Validating
    case Some(AcceptHandshake(_)) => j.phase == Installed
    case Some(RecordHealthFailure(_)) => j.phase == RecoveryNeeded
    case Some(Promote(_)) => j.phase == Promoted
    case Some(ResumeWrites(_)) => j.phase == Installed
    case Some(RecordPostResumeFailure(_)) => j.phase == RecoveryNeeded
  }

  predicate FactsFit(offer: UpdateOffer, last: Option<Op>, j: Journal) {
    && (j.writesResumed <==>
          last.Some? && (last.value.ResumeWrites? || last.value.Promote? || last.value.RecordPostResumeFailure?))
    && (last == None || last.value.RecordDownloaded? || last.value.WaitForIdle? ==> j.previous == offer.previous)
    && (PhaseRank(j.phase) >= PhaseRank(Maintenance) ==> j.drain.Some?)
    && (PhaseRank(j.phase) >= PhaseRank(BackupVerified) ==> j.backup.Some?)
    && (last.Some? && last.value.EnterMaintenance? ==> j.previous.database == last.value.drain.quiescedDatabase)
  }

  predicate ActionFits(last: Option<Op>, j: Journal) {
    match last
    case Some(RecordHealthFailure(reason)) =>
      j.recoveryAction.Some? && j.recoveryAction.value.RestorePreviousRuntime? && j.recoveryAction.value.reason == reason
    case Some(RecordPostResumeFailure(reason)) => j.recoveryAction == Some(QuarantineCurrentState(reason))
    case _ => j.recoveryAction == None
  }

  predicate Tracks(offer: UpdateOffer, last: Option<Op>, j: Journal) {
    Carries(offer, j) && PhaseFits(last, j) && FactsFit(offer, last, j) && ActionFits(last, j)
  }

  lemma AcceptedOpsMayFollow(platform: Platform, offer: UpdateOffer, last: Option<Op>, j: Journal, op: Op)
    requires Tracks(offer, last, j)
    ensures Apply(platform, j, op).Success? <==> MayFollow(platform, offer, last, op)
  {
    hide After, PathsEqual;
    VerdictsFollow(platform, offer, last, j, op);
    hide Tracks, MayFollow, Verdict;
  }

  lemma VerdictsFollow(platform: Platform, offer: UpdateOffer, last: Option<Op>, j: Journal, op: Op)
    requires Tracks(offer, last, j)
    ensures Verdict(platform, j, op).Pass? <==> MayFollow(platform, offer, last, op)
  {
    hide PathsEqual, ActionFits;
  }

  lemma PhasesFollow(platform: Platform, offer: UpdateOffer, last: Option<Op>, j: Journal, op: Op, j': Journal)
    requires Tracks(offer, last, j) && Accepted(platform, j, op, j')
    ensures Carries(offer, j') && PhaseFits(Some(op), j') && ActionFits(Some(op), j')
  {
    VerdictsFollow(platform, offer, last, j, op);
    hide Verdict, PathsEqual;
  }

  lemma FactsFollow(platform: Platform, offer: UpdateOffer, last: Option<Op>, j: Journal, op: Op, j': Journal)
    requires Tracks(offer, last, j) && Accepted(platform, j, op, j')
    ensures FactsFit(offer, Some(op), j')
  {
    VerdictsFollow(platform, offer, last, j, op);
    hide Verdict, PathsEqual, ActionFits, Carries;
  }

  lemma {:induction false} RunsAreTracked(run: Run, k: nat)
    requires run.Valid() && k < |run.journals|
    ensures Tracks(run.offer, LastOp(run, k), run.journals[k])
  {
    hide Accepted;
    if k > 0 {
      hide Carries, PhaseFits, FactsFit, ActionFits;
      RunsAreTracked(run, k - 1);
      var last, op := LastOp(run, k - 1), run.ops[k - 1];
      PhasesFollow(run.platform, run.offer, last, run.journals[k - 1], op, run.journals[k]);
      FactsFollow(run.platform, run.offer, last, run.journals[k - 1], op, run.journals[k]);
    }
  }

  // ---- Main results ----

  /** After any run, exactly the operations that may follow the last one are accepted. */
  lemma AcceptanceFollowsTheCourse(run: Run, k: nat, op: Op)
    requires run.Valid() && k < |run.journals|
    ensures Apply(run.platform, run.journals[k], op).Success? <==> MayFollow(run.platform, run.offer, LastOp(run, k), op)
  {
    hide Apply, MayFollow, Tracks;
    RunsAreTracked(run, k);
    AcceptedOpsMayFollow(run.platform, run.offer, LastOp(run, k), run.journals[k], op);
  }

  /** After any run, the action offered is the one that the last operation calls for, and it names the offer's facts. */
  lemma ActionsFollowTheCourse(run: Run, k: nat)
    requires run.Valid() && k < |run.journals|
    ensures Offers(run.offer, LastOp(run, k), run.journals[k].NextAction())
  {
    RunsAreTracked(run, k);
    hide Run.Valid, FactsFit;
  }

  /** Users may write exactly after a resumption or a promotion. */
  lemma WritesAreAcceptedExactlyAfter(run: Run, k: nat)
    requires run.Valid() && k < |run.journals|
    ensures run.journals[k].CanAcceptWrites() <==>
              LastOp(run, k).Some? && (LastOp(run, k).value.ResumeWrites? || LastOp(run, k).value.Promote?)
  {
    RunsAreTracked(run, k);
    hide Run.Valid, Carries, ActionFits;
  }

  /** Every update begins with a download of exactly the offered manifest, and a promoted one ends with its receipt. */
  lemma PromotionStemsFromTheOffer(run: Run, k: nat)
    requires run.Valid() && 0 < k < |run.journals|
    ensures run.ops[0] == RecordDownloaded(run.offer.stagedManifest)
    ensures run.journals[k].phase == Promoted <==> run.ops[k - 1].Promote?
    ensures run.ops[k - 1].Promote? ==>
              var receipt := run.ops[k - 1].receipt;
              && receipt.candidateId == run.offer.records.candidateId
              && receipt.manifestSha256 == run.offer.stagedManifest.manifestSha256
              && receipt.signedArtifactSha256 == run.offer.stagedManifest.signedArtifactSha256
  {
    RunsAreTracked(run, k);
    StepsAreAccepted(run, 0);
    StepsAreAccepted(run, k - 1);
    AcceptanceFollowsTheCourse(run, 0, run.ops[0]);
    AcceptanceFollowsTheCourse(run, k - 1, run.ops[k - 1]);
    hide Run.Valid, Accepted, Apply, FactsFit, ActionFits, Carries;
  }

  lemma StepsAreAccepted(run: Run, i: nat)
    requires run.Valid() && i < |run.ops|
    ensures Apply(run.platform, run.journals[i], run.ops[i]).Success?
  {
    hide Apply;
    assert Accepted(run.platform, run.journals[i], run.ops[i], run.journals[i + 1]);
  }

  // ---- Every offer can be promoted ----

  /** Go on with an operation that may follow. */
  lemma GoOn(run: Run, op: Op) returns (longer: Run)
    requires run.Valid() && MayFollow(run.platform, run.offer, LastOp(run, |run.ops|), op)
    ensures longer.Valid() && longer.platform == run.platform && longer.offer == run.offer
    ensures longer.ops == run.ops + [op]
  {
    var k := |run.ops|;
    AcceptanceFollowsTheCourse(run, k, op);
    hide Apply, MayFollow;
    var next := Apply(run.platform, run.journals[k], op).value;
    assert next == next.(revision := next.revision);
    RunsExtend(run, op, next);
    longer := run.(journals := run.journals + [next], ops := run.ops + [op]);
  }

  /** The operations that take an offer to its promotion, each with evidence that matches. */
  function Course(offer: UpdateOffer): seq<Op> {
    var database := offer.previous.database;
    [ RecordDownloaded(offer.stagedManifest),
      Op.WaitForIdle,
      EnterMaintenance(DrainProof("d", database)),
      VerifyBackup(VerifiedBackup(database, database.sha256, "c", "v")),
      BeginInstall,
      BeginValidation,
      AcceptHandshake(InstanceHandshake(offer.candidate.binary, offer.candidate.database, offer.nonce, 1, 1, "v", "h")),
      Op.ResumeWrites("r"),
      Promote(PromotionReceipt(offer.stagedManifest.manifestSha256, offer.stagedManifest.signedArtifactSha256,
                               offer.records.candidateId, "p")) ]
  }

  /** An offer is taken up exactly if all it names is there and its manifest announces its own binary's version. */
  lemma OffersAreTakenExactlyWhen(offer: UpdateOffer)
    ensures NewJournal(offer).Success? <==>
              && offer.records.policyId != "" && offer.records.candidateId != "" && offer.records.evidenceId != ""
              && Named(offer.previous.binary) && Named(offer.previous.database)
              && Named(offer.candidate.binary) && Named(offer.candidate.database)
              && offer.stagedManifest.manifestSha256 != "" && offer.stagedManifest.signedArtifactSha256 != ""
              && offer.stagedManifest.candidateVersion == offer.candidate.binary.version
              && offer.nonce != ""
  {}

  lemma CourseStepsMayFollow(platform: Platform, offer: UpdateOffer, i: nat)
    requires i < 9 && NewJournal(offer).Success?
    ensures MayFollow(platform, offer, if i == 0 then None else Some(Course(offer)[i - 1]), Course(offer)[i])
  {
    PathsEqualIsReflexive(platform);
    hide PathsEqual;
  }

  lemma PathsEqualIsReflexive(platform: Platform)
    ensures forall path :: PathsEqual(platform, path, path)
  {
    hide Components;
  }

  /** Each offered action can be answered: nine operations take every offer that is taken up to its promotion. */
  lemma {:induction false} EveryOfferCanBePromoted(platform: Platform, offer: UpdateOffer, n: nat) returns (run: Run)
    requires n <= 9 && NewJournal(offer).Success?
    ensures run.Valid() && run.platform == platform && run.offer == offer && run.ops == Course(offer)[..n]
    ensures n == 9 ==> run.journals[9].phase == Promoted && run.journals[9].CanAcceptWrites()
    decreases n
  {
    hide MayFollow, NewJournal;
    if n == 0 {
      run := Run(platform, offer, [NewJournal(offer).value], []);
    } else {
      var shorter := EveryOfferCanBePromoted(platform, offer, n - 1);
      CourseStepsMayFollow(platform, offer, n - 1);
      run := GoOn(shorter, Course(offer)[n - 1]);
      assert Course(offer)[..n] == Course(offer)[..n - 1] + [Course(offer)[n - 1]];
      if n == 9 {
        PromotionStemsFromTheOffer(run, 9);
        WritesAreAcceptedExactlyAfter(run, 9);
      }
    }
  }

  // ---- Files from elsewhere ----

  /** Whoever wrote it: a journal that loads never offers an incoherent rollback or install, nor accepts writes early. */
  lemma LoadedJournalsAreSafe(j: Journal)
    requires Loadable(j)
    ensures j.NextAction().RestorePreviousRuntime? ==>
              && !j.writesResumed && j.backup.Some?
              && j.NextAction().previous == j.previous && j.NextAction().snapshot == j.backup.value.snapshot
              && j.NextAction().snapshot.sha256 == j.previous.database.sha256
    ensures j.NextAction().InstallCandidate? || j.NextAction().RestorePreviousRuntime? || j.CanAcceptWrites() ==>
              && j.drain.Some? && j.drain.value.quiescedDatabase == j.previous.database
              && j.backup.Some? && j.backup.value.sourceDatabaseSha256 == j.previous.database.sha256
    ensures j.NextAction().InstallCandidate? || j.NextAction().ValidateCandidate? ==> !j.writesResumed
    ensures j.candidate.binary.version == j.stagedManifest.candidateVersion && j.formatVersion == 1
  {}
}
