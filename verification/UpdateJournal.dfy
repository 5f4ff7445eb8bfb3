/**
 The update journal: its recorded facts, the ten-phase transition system over them, and the
 validation a loaded or written journal has to pass.

 `Journal` is the persisted value and `Apply` says what each public transition does to it. The class
 `UpdateJournal` is the object whose methods change those fields in place; each method is proved to do
 exactly what `Apply` says, and to change nothing when it refuses.
 */
module UpdateJournals {
  import opened Basics
  import Text

  const JOURNAL_FORMAT_VERSION: nat := 1

  /** The build target, which decides how two paths compare. */
  datatype Platform = Windows | Other

  /** The text between slashes. */
  function SplitAtSlashes(path: string): (parts: seq<string>)
    ensures parts != []
  {
    if path == "" then [""]
    else
      var parts := SplitAtSlashes(path[..|path| - 1]);
      var last := |parts| - 1;
      if path[|path| - 1] == '/' then parts + [""] else parts[last := parts[last] + [path[|path| - 1]]]
  }

  /** `Path::components` off Windows: rooted or not, and the parts without empty ones and all but a leading dot. */
  function Components(path: string): (bool, seq<string>) {
    var parts := SplitAtSlashes(path);
    var named := (part: string) => part != "" && part != ".";
    if path != "" && path[0] == '/' then (true, Filter(named, parts))
    else if parts[0] == "." then (false, ["."] + Filter(named, parts[1..]))
    else (false, Filter(named, parts))
  }

  predicate PathsEqual(platform: Platform, left: string, right: string) {
    match platform
    case Windows => Text.EqIgnoreAsciiCase(left, right)
    case Other => Components(left) == Components(right)
  }

  /** A slash or a dot at the end of a path changes nothing. */
  lemma PathsCompareByComponent(path: string)
    requires path != ""
    ensures PathsEqual(Other, path + "/", path) && PathsEqual(Other, path + "/.", path)
  {
    var parts := SplitAtSlashes(path);
    var slash, dot := path + "/", path + "/.";
    assert slash[..|path|] == path && dot[..|slash|] == slash;
    assert SplitAtSlashes(slash) == parts + [""];
    assert "" + ['.'] == ".";
    assert SplitAtSlashes(dot) == parts + ["."];
    var named := (part: string) => part != "" && part != ".";
    forall extra | extra == "" || extra == "."
      ensures Filter(named, parts + [extra]) == Filter(named, parts)
      ensures Filter(named, (parts + [extra])[1..]) == Filter(named, parts[1..])
    {
      assert (parts + [extra])[..|parts|] == parts;
      assert (parts + [extra])[1..] == parts[1..] + [extra];
      assert (parts[1..] + [extra])[..|parts[1..]|] == parts[1..];
    }
  }

  datatype Phase =
    | Available
    | Downloaded
    | WaitingIdle
    | Maintenance
    | BackupVerified
    | Installing
    | Validating
    | Installed
    | Promoted
    | RecoveryNeeded

  datatype RecoveryError =
    | InvalidTransition(from: Phase)
    | InvalidFact
    | IdentityMismatch
    | UnsupportedJournalVersion(version: nat)
    | JournalAlreadyExists
    | ConcurrentWriter
    | StaleWriter(expected: nat, actual: nat)
    | Io

  type Check = Outcome<RecoveryError>

  datatype FileIdentity = FileIdentity(path: string, version: string, sha256: string) {
    predicate Valid() {
      path != "" && version != "" && sha256 != ""
    }
  }

  datatype RuntimeIdentity = RuntimeIdentity(binary: FileIdentity, database: FileIdentity) {
    predicate Valid() {
      binary.Valid() && database.Valid()
    }
  }

  datatype ImmutableRecords = ImmutableRecords(policyId: string, candidateId: string, evidenceId: string) {
    predicate Valid() {
      policyId != "" && candidateId != "" && evidenceId != ""
    }
  }

  datatype StagedManifest =
    StagedManifest(manifestSha256: string, signedArtifactSha256: string, candidateVersion: string) {
    predicate Valid() {
      manifestSha256 != "" && signedArtifactSha256 != "" && candidateVersion != ""
    }
  }

  datatype UpdateOffer = UpdateOffer(
    records: ImmutableRecords,
    nonce: string,
    previous: RuntimeIdentity,
    candidate: RuntimeIdentity,
    stagedManifest: StagedManifest)

  /** The one-valued witnesses of the source (queue and PTY drained, maintenance and write block on) carry no data. */
  datatype DrainProof = DrainProof(evidenceId: string, quiescedDatabase: FileIdentity) {
    predicate Valid() {
      quiescedDatabase.Valid() && evidenceId != ""
    }
  }

  datatype VerifiedBackup = VerifiedBackup(
    snapshot: FileIdentity,
    sourceDatabaseSha256: string,
    checkpointEvidenceId: string,
    verificationEvidenceId: string) {
    predicate ValidFor(database: FileIdentity) {
      && snapshot.Valid()
      && sourceDatabaseSha256 == database.sha256
      && snapshot.sha256 == database.sha256
      && checkpointEvidenceId != ""
      && verificationEvidenceId != ""
    }
  }

  datatype InstanceHandshake = InstanceHandshake(
    binary: FileIdentity,
    database: FileIdentity,
    nonce: string,
    processId: nat,
    startedAtUnixMillis: nat,
    validationEvidenceId: string,
    healthEvidenceId: string) {
    predicate ValidFacts() {
      processId != 0 && startedAtUnixMillis != 0 && validationEvidenceId != "" && healthEvidenceId != ""
    }
  }

  datatype PromotionReceipt =
    PromotionReceipt(manifestSha256: string, signedArtifactSha256: string, candidateId: string, evidenceId: string)

  datatype RecoveryAction =
    | NoAction
    | WaitForIdle
    | VerifyCoherentBackup
    | InstallCandidate(install: FileIdentity, stagedManifest: StagedManifest)
    | ValidateCandidate(candidate: RuntimeIdentity, nonce: string)
    | PromoteSameSignedBytes(manifestSha256: string, signedArtifactSha256: string, candidateId: string)
    | ResumeWrites
    | RestorePreviousRuntime(previous: RuntimeIdentity, snapshot: FileIdentity, reason: string)
    | QuarantineCurrentState(reason: string)

  /** The persisted journal. */
  datatype Journal = Journal(
    formatVersion: nat,
    revision: nat,
    records: ImmutableRecords,
    nonce: string,
    previous: RuntimeIdentity,
    candidate: RuntimeIdentity,
    stagedManifest: StagedManifest,
    phase: Phase,
    drain: Option<DrainProof>,
    backup: Option<VerifiedBackup>,
    writesResumed: bool,
    recoveryAction: Option<RecoveryAction>,
    installed: Option<RuntimeIdentity>) {

    predicate CanAcceptWrites() {
      (phase == Installed || phase == Promoted) && writesResumed
    }

    function NextAction(): RecoveryAction {
      match recoveryAction
      case Some(action) => action
      case None =>
        match phase
        case Available => NoAction
        case Downloaded => RecoveryAction.WaitForIdle
        case WaitingIdle => RecoveryAction.WaitForIdle
        case Maintenance => VerifyCoherentBackup
        case BackupVerified => InstallCandidate(candidate.binary, stagedManifest)
        case Installing => ValidateCandidate(candidate, nonce)
        case Validating => ValidateCandidate(candidate, nonce)
        case Installed =>
          if !writesResumed then RecoveryAction.ResumeWrites
          else PromoteSameSignedBytes(
                 stagedManifest.manifestSha256, stagedManifest.signedArtifactSha256, records.candidateId)
        case Promoted => NoAction
        case RecoveryNeeded => QuarantineCurrentState("journal is missing its recovery action")
    }
  }

  /** One public transition together with the evidence its caller hands in. */
  datatype Op =
    | RecordDownloaded(observed: StagedManifest)
    | WaitForIdle
    | EnterMaintenance(drain: DrainProof)
    | VerifyBackup(backup: VerifiedBackup)
    | BeginInstall
    | BeginValidation
    | AcceptHandshake(handshake: InstanceHandshake)
    | RecordHealthFailure(reason: string)
    | Promote(receipt: PromotionReceipt)
    | ResumeWrites(evidenceId: string)
    | RecordPostResumeFailure(reason: string)

  function NewJournal(offer: UpdateOffer): Result<Journal, RecoveryError> {
    if
      && offer.records.Valid()
      && offer.previous.Valid()
      && offer.candidate.Valid()
      && offer.stagedManifest.Valid()
      && offer.nonce != ""
      && offer.stagedManifest.candidateVersion == offer.candidate.binary.version
    then
      Success(Journal(JOURNAL_FORMAT_VERSION, 0, offer.records, offer.nonce, offer.previous, offer.candidate,
                      offer.stagedManifest, Available, None, None, false, None, None))
    else
      Failure(InvalidFact)
  }

  predicate HandshakeMatches(platform: Platform, j: Journal, h: InstanceHandshake) {
    && h.nonce == j.nonce
    && PathsEqual(platform, h.binary.path, j.candidate.binary.path)
    && h.binary.version == j.stagedManifest.candidateVersion
    && PathsEqual(platform, h.database.path, j.candidate.database.path)
  }

  predicate ReceiptMatches(j: Journal, r: PromotionReceipt) {
    && r.evidenceId != ""
    && r.candidateId == j.records.candidateId
    && r.manifestSha256 == j.stagedManifest.manifestSha256
    && r.signedArtifactSha256 == j.stagedManifest.signedArtifactSha256
  }

  function InPhase(j: Journal, phase: Phase): Check {
    Need(j.phase == phase, InvalidTransition(j.phase))
  }

  /** Whether a transition is accepted, and the first reason why not. */
  function Verdict(platform: Platform, j: Journal, op: Op): Check {
    match op
    case RecordDownloaded(observed) =>
      :- InPhase(j, Available);
      Need(observed == j.stagedManifest, IdentityMismatch)
    case WaitForIdle => InPhase(j, Downloaded)
    case EnterMaintenance(drain) =>
      :- InPhase(j, WaitingIdle);
      :- Need(drain.Valid(), InvalidFact);
      Need(PathsEqual(platform, drain.quiescedDatabase.path, j.previous.database.path), IdentityMismatch)
    case VerifyBackup(backup) =>
      :- InPhase(j, Maintenance);
      Need(j.drain.Some? && backup.ValidFor(j.previous.database), InvalidFact)
    case BeginInstall =>
      :- InPhase(j, BackupVerified);
      Need(j.drain.Some? && j.backup.Some?, InvalidFact)
    case BeginValidation => InPhase(j, Installing)
    case AcceptHandshake(handshake) =>
      :- InPhase(j, Validating);
      :- Need(handshake.ValidFacts(), InvalidFact);
      Need(HandshakeMatches(platform, j, handshake), IdentityMismatch)
    case RecordHealthFailure(reason) =>
      :- Need((j.phase == Validating || j.phase == Installed) && !j.writesResumed, InvalidTransition(j.phase));
      Need(reason != "" && j.backup.Some?, InvalidFact)
    case Promote(receipt) =>
      :- InPhase(j, Installed);
      :- Need(j.writesResumed, InvalidFact);
      Need(ReceiptMatches(j, receipt), IdentityMismatch)
    case ResumeWrites(evidenceId) =>
      :- InPhase(j, Installed);
      Need(evidenceId != "", InvalidFact)
    case RecordPostResumeFailure(reason) =>
      :- Need(j.writesResumed, InvalidTransition(j.phase));
      Need(reason != "", InvalidFact)
  }

  /** The journal an accepted transition leaves behind. */
  function After(platform: Platform, j: Journal, op: Op): Journal
    requires Verdict(platform, j, op).Pass?
  {
    match op
    case RecordDownloaded(_) => j.(phase := Downloaded)
    case WaitForIdle => j.(phase := WaitingIdle)
    case EnterMaintenance(drain) =>
      j.(previous := j.previous.(database := drain.quiescedDatabase), drain := Some(drain), phase := Maintenance)
    case VerifyBackup(backup) => j.(backup := Some(backup), phase := BackupVerified)
    case BeginInstall => j.(phase := Installing)
    case BeginValidation => j.(phase := Validating)
    case AcceptHandshake(h) => j.(installed := Some(RuntimeIdentity(h.binary, h.database)), phase := Installed)
    case RecordHealthFailure(reason) =>
      j.(phase := RecoveryNeeded,
         recoveryAction := Some(RestorePreviousRuntime(j.previous, j.backup.value.snapshot, reason)))
    case Promote(_) => j.(phase := Promoted)
    case ResumeWrites(_) => j.(writesResumed := true)
    case RecordPostResumeFailure(reason) =>
      j.(phase := RecoveryNeeded, recoveryAction := Some(QuarantineCurrentState(reason)))
  }

  function Apply(platform: Platform, j: Journal, op: Op): Result<Journal, RecoveryError> {
    match Verdict(platform, j, op)
    case Pass => Success(After(platform, j, op))
    case Fail(error) => Failure(error)
  }

  /** `validate_loaded`: what every read and every write of the file checks. */
  function ValidateLoaded(j: Journal): Check {
    if j.formatVersion != JOURNAL_FORMAT_VERSION then
      Fail(UnsupportedJournalVersion(j.formatVersion))
    else if !(j.records.Valid() && j.previous.Valid() && j.candidate.Valid() && j.stagedManifest.Valid()) then
      Fail(InvalidFact)
    else if j.drain.Some? && j.drain.value.quiescedDatabase != j.previous.database then
      Fail(IdentityMismatch)
    else if j.nonce == "" || j.stagedManifest.candidateVersion != j.candidate.binary.version then
      Fail(InvalidFact)
    else
      Need(PhaseFactsHold(j), InvalidFact)
  }

  predicate DrainedAndBackedUp(j: Journal) {
    && j.drain.Some? && j.drain.value.Valid()
    && j.backup.Some? && j.backup.value.ValidFor(j.previous.database)
  }

  predicate PhaseFactsHold(j: Journal) {
    match j.phase
    case Available => PreMaintenanceFactsHold(j)
    case Downloaded => PreMaintenanceFactsHold(j)
    case WaitingIdle => PreMaintenanceFactsHold(j)
    case Maintenance =>
      j.drain.Some? && j.drain.value.Valid() && j.backup.None? && !j.writesResumed && j.recoveryAction.None?
    case BackupVerified => DrainedAndBackedUp(j) && !j.writesResumed && j.recoveryAction.None?
    case Installing => DrainedAndBackedUp(j) && !j.writesResumed && j.recoveryAction.None?
    case Validating => DrainedAndBackedUp(j) && !j.writesResumed && j.recoveryAction.None?
    case Installed => DrainedAndBackedUp(j) && j.recoveryAction.None?
    case Promoted => DrainedAndBackedUp(j) && j.writesResumed && j.recoveryAction.None?
    case RecoveryNeeded =>
      && DrainedAndBackedUp(j)
      && match j.recoveryAction {
        case Some(RestorePreviousRuntime(previous, snapshot, reason)) =>
          !j.writesResumed && previous == j.previous && snapshot == j.backup.value.snapshot && reason != ""
        case Some(QuarantineCurrentState(reason)) => reason != ""
        case _ => false
      }
  }

  predicate PreMaintenanceFactsHold(j: Journal) {
    j.drain.None? && j.backup.None? && !j.writesResumed && j.recoveryAction.None?
  }

  predicate Loadable(j: Journal) {
    ValidateLoaded(j).Pass?
  }

  /** What a transition method has to do: the result of `Apply` on success, nothing at all on refusal. */
  ghost predicate Performs(platform: Platform, before: Journal, op: Op, r: Check, after: Journal) {
    match Apply(platform, before, op)
    case Success(j) => r.Pass? && after == j
    case Failure(error) => r == Fail(error) && after == before
  }

  class UpdateJournal {
    const platform: Platform
    const formatVersion: nat
    var revision: nat
    const records: ImmutableRecords
    const nonce: string
    var previous: RuntimeIdentity
    const candidate: RuntimeIdentity
    const stagedManifest: StagedManifest
    var phase: Phase
    var drain: Option<DrainProof>
    var backup: Option<VerifiedBackup>
    var writesResumed: bool
    var recoveryAction: Option<RecoveryAction>
    var installed: Option<RuntimeIdentity>

    function Value(): Journal
      reads this
    {
      Journal(formatVersion, revision, records, nonce, previous, candidate, stagedManifest,
              phase, drain, backup, writesResumed, recoveryAction, installed)
    }

    /** Deserialization and `clone` both build the object from a value. */
    constructor (platform: Platform, j: Journal)
      ensures this.platform == platform
      ensures Value() == j
    {
      this.platform := platform;
      formatVersion, revision := j.formatVersion, j.revision;
      records, nonce, previous := j.records, j.nonce, j.previous;
      candidate, stagedManifest, phase := j.candidate, j.stagedManifest, j.phase;
      drain, backup, writesResumed := j.drain, j.backup, j.writesResumed;
      recoveryAction, installed := j.recoveryAction, j.installed;
    }

    method RecordDownloaded(observed: StagedManifest) returns (r: Check)
      modifies this
      ensures Performs(platform, old(Value()), Op.RecordDownloaded(observed), r, Value())
    {
      if phase != Available {
        return Fail(InvalidTransition(phase));
      }
      if observed != stagedManifest {
        return Fail(IdentityMismatch);
      }
      phase := Downloaded;
      return Pass;
    }

    method WaitForIdle() returns (r: Check)
      modifies this
      ensures Performs(platform, old(Value()), Op.WaitForIdle, r, Value())
    {
      if phase != Downloaded {
        return Fail(InvalidTransition(phase));
      }
      phase := WaitingIdle;
      return Pass;
    }

    method EnterMaintenance(proof: DrainProof) returns (r: Check)
      modifies this
      ensures Performs(platform, old(Value()), Op.EnterMaintenance(proof), r, Value())
    {
      if phase != WaitingIdle {
        return Fail(InvalidTransition(phase));
      }
      if !proof.Valid() {
        return Fail(InvalidFact);
      }
      if !PathsEqual(platform, proof.quiescedDatabase.path, previous.database.path) {
        return Fail(IdentityMismatch);
      }
      previous := previous.(database := proof.quiescedDatabase);
      drain := Some(proof);
      phase := Maintenance;
      return Pass;
    }

    method VerifyBackup(proof: VerifiedBackup) returns (r: Check)
      modifies this
      ensures Performs(platform, old(Value()), Op.VerifyBackup(proof), r, Value())
    {
      if phase != Maintenance {
        return Fail(InvalidTransition(phase));
      }
      if drain.None? {
        return Fail(InvalidFact);
      }
      if !proof.ValidFor(previous.database) {
        return Fail(InvalidFact);
      }
      backup := Some(proof);
      phase := BackupVerified;
      return Pass;
    }

    method BeginInstall() returns (r: Check)
      modifies this
      ensures Performs(platform, old(Value()), Op.BeginInstall, r, Value())
    {
      if phase != BackupVerified {
        return Fail(InvalidTransition(phase));
      }
      if drain.None? || backup.None? {
        return Fail(InvalidFact);
      }
      phase := Installing;
      return Pass;
    }

    method BeginValidation() returns (r: Check)
      modifies this
      ensures Performs(platform, old(Value()), Op.BeginValidation, r, Value())
    {
      if phase != Installing {
        return Fail(InvalidTransition(phase));
      }
      phase := Validating;
      return Pass;
    }

    method AcceptHandshake(handshake: InstanceHandshake) returns (r: Check)
      modifies this
      ensures Performs(platform, old(Value()), Op.AcceptHandshake(handshake), r, Value())
    {
      if phase != Validating {
        return Fail(InvalidTransition(phase));
      }
      if !handshake.ValidFacts() {
        return Fail(InvalidFact);
      }
      if
        || handshake.nonce != nonce
        || !PathsEqual(platform, handshake.binary.path, candidate.binary.path)
        || handshake.binary.version != stagedManifest.candidateVersion
        || !PathsEqual(platform, handshake.database.path, candidate.database.path)
      {
        return Fail(IdentityMismatch);
      }
      installed := Some(RuntimeIdentity(handshake.binary, handshake.database));
      phase := Installed;
      return Pass;
    }

    method RecordHealthFailure(reason: string) returns (r: Check)
      modifies this
      ensures Performs(platform, old(Value()), Op.RecordHealthFailure(reason), r, Value())
    {
      if (phase != Validating && phase != Installed) || writesResumed {
        return Fail(InvalidTransition(phase));
      }
      if reason == "" {
        return Fail(InvalidFact);
      }
      if backup.None? {
        return Fail(InvalidFact);
      }
      phase := RecoveryNeeded;
      recoveryAction := Some(RestorePreviousRuntime(previous, backup.value.snapshot, reason));
      return Pass;
    }

    method Promote(receipt: PromotionReceipt) returns (r: Check)
      modifies this
      ensures Performs(platform, old(Value()), Op.Promote(receipt), r, Value())
    {
      if phase != Installed {
        return Fail(InvalidTransition(phase));
      }
      if !writesResumed {
        return Fail(InvalidFact);
      }
      if
        || receipt.evidenceId == ""
        || receipt.candidateId != records.candidateId
        || receipt.manifestSha256 != stagedManifest.manifestSha256
        || receipt.signedArtifactSha256 != stagedManifest.signedArtifactSha256
      {
        return Fail(IdentityMismatch);
      }
      phase := Promoted;
      return Pass;
    }

    method ResumeWrites(evidenceId: string) returns (r: Check)
      modifies this
      ensures Performs(platform, old(Value()), Op.ResumeWrites(evidenceId), r, Value())
    {
      if phase != Installed {
        return Fail(InvalidTransition(phase));
      }
      if evidenceId == "" {
        return Fail(InvalidFact);
      }
      writesResumed := true;
      return Pass;
    }

    method RecordPostResumeFailure(reason: string) returns (r: Check)
      modifies this
      ensures Performs(platform, old(Value()), Op.RecordPostResumeFailure(reason), r, Value())
    {
      if !writesResumed {
        return Fail(InvalidTransition(phase));
      }
      if reason == "" {
        return Fail(InvalidFact);
      }
      phase := RecoveryNeeded;
      recoveryAction := Some(QuarantineCurrentState(reason));
      return Pass;
    }

    /** Dispatch on the transition: the closure handed to `change` by each public wrapper. */
    method Perform(op: Op) returns (r: Check)
      modifies this
      ensures Performs(platform, old(Value()), op, r, Value())
    {
      match op {
        case RecordDownloaded(observed) => r := RecordDownloaded(observed);
        case WaitForIdle => r := WaitForIdle();
        case EnterMaintenance(proof) => r := EnterMaintenance(proof);
        case VerifyBackup(proof) => r := VerifyBackup(proof);
        case BeginInstall => r := BeginInstall();
        case BeginValidation => r := BeginValidation();
        case AcceptHandshake(handshake) => r := AcceptHandshake(handshake);
        case RecordHealthFailure(reason) => r := RecordHealthFailure(reason);
        case Promote(receipt) => r := Promote(receipt);
        case ResumeWrites(evidenceId) => r := ResumeWrites(evidenceId);
        case RecordPostResumeFailure(reason) => r := RecordPostResumeFailure(reason);
      }
    }
  }
}
