/**
 Database restores as steps on the files: any number of restores of one destination, interleaved, each stopping
 for good wherever it likes. A crash is a run in which some restore takes no further step.
 */
module RestoreSteps {
  import opened Basics
  import Text

  type Bytes = seq<Byte>

  /** A resolved path: its directory and its last component. */
  datatype Path = Path(dir: string, name: string)

  type Files = map<Path, Bytes>

  const SLOTS: nat := 32

  // ---- Names ----

  function TempPath(dest: Path, pid: nat, slot: nat): Path {
    Path(dest.dir, dest.name + ".restore-tmp-" + Text.Decimal(pid) + "-" + Text.Decimal(slot))
  }

  function Wal(dest: Path): Path {
    Path(dest.dir, dest.name + "-wal")
  }

  function Shm(dest: Path): Path {
    Path(dest.dir, dest.name + "-shm")
  }

  predicate IsPreMigrationName(dest: string, backup: string) {
    Text.HasPrefix(backup, dest + ".pre-migration-") && Text.HasSuffix(backup, ".bak")
  }

  predicate HasExtension(name: string) {
    exists i | 0 < i < |name| :: name[i] == '.'
  }

  /** `file_stem`: the name up to its last dot, unless that is its first character. */
  function FileStem(name: string): string {
    if !HasExtension(name) then name
    else if name[|name| - 1] == '.' then name[..|name| - 1]
    else FileStem(name[..|name| - 1])
  }

  /** `with_extension("update-backup")` */
  function UpdateBackupName(dest: string): string {
    FileStem(dest) + ".update-backup"
  }

  // ---- The machine ----

  datatype RestoreError = NoFileName | DestinationIsBackup | NotABackup | SlotsOccupied | Io

  /** One call: `source` is what the reader yields if it does not fail. */
  datatype Request = Request(backup: Path, source: Bytes, updateBackupToo: bool, pid: nat)

  /** The checks made before any file is touched. */
  function Refusal(dest: Path, request: Request): Option<RestoreError> {
    if dest.name == "" || request.backup.name == "" then Some(NoFileName)
    else if request.backup == dest then Some(DestinationIsBackup)
    else if !IsPreMigrationName(dest.name, request.backup.name)
            && !(request.updateBackupToo && UpdateBackupName(dest.name) == request.backup.name) then Some(NotABackup)
    else None
  }

  datatype Phase =
    | Checking
    | Allocating(slot: nat)
    | Copying(tmp: Path, copied: nat)
    | Replacing(tmp: Path)
    | Cleaning(tmp: Path, error: RestoreError)
    | UnlinkingWal
    | UnlinkingShm
    | Done
    | Failed(error: RestoreError)

  /** `last` is the restore that replaced the destination most recently. */
  datatype System = System(dest: Path, files: Files, requests: seq<Request>, phases: seq<Phase>, last: Option<nat>) {
    predicate WellFormed() {
      |phases| == |requests| && (last.Some? ==> last.value < |requests|)
    }
  }

  function Start(dest: Path, files: Files, requests: seq<Request>): System {
    System(dest, files, requests, seq(|requests|, _ => Checking), None)
  }

  /** What restore `i` does next; `ok` says whether the operating system does it. */
  datatype Step =
    | Check(i: nat, ok: bool)
    | Allocate(i: nat, ok: bool)
    | Copy(i: nat, upTo: nat)
    | Sync(i: nat, ok: bool)
    | Replace(i: nat, ok: bool)
    | Unlink(i: nat, ok: bool)
    | Clean(i: nat, ok: bool)

  predicate Enabled(s: System, step: Step) {
    && s.WellFormed() && step.i < |s.phases|
    && match step
       case Check(i, _) => s.phases[i].Checking?
       case Allocate(i, _) => s.phases[i].Allocating?
       case Copy(i, upTo) =>
         s.phases[i].Copying? && s.phases[i].copied < upTo <= |s.requests[i].source|
       case Sync(i, ok) => s.phases[i].Copying? && (ok ==> s.phases[i].copied == |s.requests[i].source|)
       case Replace(i, ok) => s.phases[i].Replacing? && (ok ==> s.phases[i].tmp in s.files)
       case Unlink(i, _) => s.phases[i].UnlinkingWal? || s.phases[i].UnlinkingShm?
       case Clean(i, _) => s.phases[i].Cleaning?
  }

  function Goto(s: System, i: nat, phase: Phase): System
    requires i < |s.phases|
  {
    s.(phases := s.phases[i := phase])
  }

  function Next(s: System, step: Step): System
    requires Enabled(s, step)
  {
    match step
    case Check(i, ok) =>
      var refusal := Refusal(s.dest, s.requests[i]);
      Goto(s, i, if refusal.Some? then Failed(refusal.value) else if ok then Allocating(0) else Failed(Io))
    case Allocate(i, ok) =>
      var slot := s.phases[i].slot;
      var tmp := TempPath(s.dest, s.requests[i].pid, slot);
      if !ok then Goto(s, i, Failed(Io))
      else if tmp in s.files then Goto(s, i, if slot + 1 < SLOTS then Allocating(slot + 1) else Failed(SlotsOccupied))
      else Goto(s.(files := s.files[tmp := []]), i, Copying(tmp, 0))
    case Copy(i, upTo) =>
      var tmp := s.phases[i].tmp;
      Goto(s.(files := s.files[tmp := s.requests[i].source[..upTo]]), i, Copying(tmp, upTo))
    case Sync(i, ok) =>
      Goto(s, i, if ok then Replacing(s.phases[i].tmp) else Cleaning(s.phases[i].tmp, Io))
    case Replace(i, ok) =>
      var tmp := s.phases[i].tmp;
      if ok then
        Goto(s.(files := (s.files - {tmp})[s.dest := s.files[tmp]], last := Some(i)), i, UnlinkingWal)
      else Goto(s, i, Cleaning(tmp, Io))
    case Unlink(i, ok) =>
      var wal := s.phases[i].UnlinkingWal?;
      var path := if wal then Wal(s.dest) else Shm(s.dest);
      Goto(if ok then s.(files := s.files - {path}) else s, i, if wal then UnlinkingShm else Done)
    case Clean(i, ok) =>
      var phase := s.phases[i];
      Goto(if ok then s.(files := s.files - {phase.tmp}) else s, i, Failed(phase.error))
  }

  /** A run; every prefix of it is one too, so that what holds of every run holds after every step. */
  datatype Run = Run(states: seq<System>, steps: seq<Step>) {
    ghost predicate Valid(dest: Path, files: Files, requests: seq<Request>) {
      && |states| == |steps| + 1
      && states[0] == Start(dest, files, requests)
      && forall n {:trigger steps[n]} | 0 <= n < |steps| ::
           Enabled(states[n], steps[n]) && states[n + 1] == Next(states[n], steps[n])
    }
  }

  lemma RunsExtend(run: Run, dest: Path, files: Files, requests: seq<Request>, step: Step)
    requires run.Valid(dest, files, requests) && Enabled(run.states[|run.steps|], step)
    ensures Run(run.states + [Next(run.states[|run.steps|], step)], run.steps + [step]).Valid(dest, files, requests)
  {
    hide Enabled, Next;
  }

  // ---- What holds throughout ----

  /** The temporary file the restore created and still holds. */
  function OwnedTemp(phase: Phase): Option<Path> {
    match phase
    case Copying(tmp, _) => Some(tmp)
    case Replacing(tmp) => Some(tmp)
    case Cleaning(tmp, _) => Some(tmp)
    case _ => None
  }

  predicate IsTemp(dest: Path, path: Path) {
    path.dir == dest.dir && Text.HasPrefix(path.name, dest.name + ".restore-tmp-") && Text.IsAsciiDigit(path.name[|path.name| - 1])
  }

  predicate IsOwn(dest: Path, path: Path) {
    path == dest || path == Wal(dest) || path == Shm(dest)
  }

  /** The same file in both, with the same bytes, or in neither. */
  predicate SameAt(files: Files, files': Files, path: Path) {
    (path in files <==> path in files') && (path in files ==> files[path] == files'[path])
  }

  /** The restore's temporary file is new, holds a prefix of what it copies, and is complete before the replace. */
  ghost predicate TempSound(files: Files, now: Files, dest: Path, phase: Phase, source: Bytes) {
    OwnedTemp(phase).Some? ==>
      var tmp := OwnedTemp(phase).value;
      && IsTemp(dest, tmp) && tmp in now && tmp !in files
      && now[tmp] <= source
      && (phase.Copying? ==> |now[tmp]| == phase.copied)
      && (phase.Replacing? ==> now[tmp] == source)
  }

  ghost predicate TempsSound(files: Files, s: System)
    requires s.WellFormed()
  {
    forall i | 0 <= i < |s.phases| :: TempSound(files, s.files, s.dest, s.phases[i], s.requests[i].source)
  }

  ghost predicate TempsApart(s: System) {
    forall i, j | 0 <= i < j < |s.phases| && OwnedTemp(s.phases[i]).Some? ::
      OwnedTemp(s.phases[i]) != OwnedTemp(s.phases[j])
  }

  /** Whatever was there before, other than the destination and its sidecars, is as it was. */
  ghost predicate OthersUntouched(files: Files, s: System) {
    forall path | path in files && !IsOwn(s.dest, path) :: path in s.files && s.files[path] == files[path]
  }

  /** Whatever is new, other than the destination, is a temporary file with a prefix of some restore's bytes. */
  ghost predicate NewFilesAreTemps(files: Files, s: System) {
    forall path | path in s.files && path !in files && path != s.dest ::
      IsTemp(s.dest, path) && exists i | 0 <= i < |s.requests| :: s.files[path] <= s.requests[i].source
  }

  predicate HasReplaced(phase: Phase) {
    phase.UnlinkingWal? || phase.UnlinkingShm? || phase.Done?
  }

  ghost predicate DestinationWhole(files: Files, s: System)
    requires s.WellFormed()
  {
    match s.last
    case None =>
      && SameAt(files, s.files, s.dest) && SameAt(files, s.files, Wal(s.dest)) && SameAt(files, s.files, Shm(s.dest))
      && forall i | 0 <= i < |s.phases| :: !HasReplaced(s.phases[i])
    case Some(k) =>
      && s.dest in s.files && s.files[s.dest] == s.requests[k].source
      && HasReplaced(s.phases[k])
  }

  predicate CheckPassed(dest: Path, phase: Phase, request: Request) {
    && (phase.Checking? || phase.Failed? || Refusal(dest, request) == None)
    && (phase.Allocating? ==> phase.slot < SLOTS)
    && (phase.Cleaning? ==> phase.error == Io)
  }

  predicate ChecksPassed(s: System)
    requires s.WellFormed()
  {
    forall i | 0 <= i < |s.phases| :: CheckPassed(s.dest, s.phases[i], s.requests[i])
  }

  /** The invariant, relative to the files before the first restore began. */
  ghost predicate Sound(files: Files, s: System) {
    && s.WellFormed()
    && TempsSound(files, s) && TempsApart(s)
    && OthersUntouched(files, s) && NewFilesAreTemps(files, s)
    && DestinationWhole(files, s) && ChecksPassed(s)
  }

  lemma TempNames(dest: Path, pid: nat, slot: nat)
    ensures IsTemp(dest, TempPath(dest, pid, slot))
  {
    Text.DecimalReadsBack(slot);
    var digits := Text.Decimal(slot);
    assert digits[|digits| - 1] in digits;
  }

  lemma TempsAreNotOwn(dest: Path, path: Path)
    requires IsTemp(dest, path)
    ensures !IsOwn(dest, path) && dest != Wal(dest) && dest != Shm(dest) && Wal(dest) != Shm(dest)
  {
    assert Wal(dest).name[|Wal(dest).name| - 1] == 'l' && Shm(dest).name[|Shm(dest).name| - 1] == 'm';
  }

  /** An accepted backup is neither the destination nor one of its sidecars. */
  lemma BackupsAreNotOwn(dest: Path, request: Request)
    requires Refusal(dest, request) == None
    ensures !IsOwn(dest, request.backup)
  {
    var name := request.backup.name;
    if IsPreMigrationName(dest.name, name) {
      assert name[|name| - 4..][3] == 'k';
    } else {
      assert name[|name| - 1] == 'p';
    }
    assert Wal(dest).name[|Wal(dest).name| - 1] == 'l' && Shm(dest).name[|Shm(dest).name| - 1] == 'm';
  }

  lemma StartIsSound(dest: Path, files: Files, requests: seq<Request>)
    ensures Sound(files, Start(dest, files, requests))
  {}

  /** Only the given paths differ. */
  ghost predicate ChangedOnly(before: Files, after: Files, paths: set<Path>) {
    forall path | path !in paths :: SameAt(before, after, path)
  }

  /** The other restores hold none of the given paths. */
  ghost predicate HeldByNoOther(s: System, i: nat, paths: set<Path>) {
    forall j | 0 <= j < |s.phases| && j != i && OwnedTemp(s.phases[j]).Some? :: OwnedTemp(s.phases[j]).value !in paths
  }

  /** A step of restore `i` that changes only files it may change. */
  ghost predicate LocalStep(files: Files, s: System, s': System, i: nat, paths: set<Path>) {
    && i < |s.phases| == |s.requests| && |s'.phases| == |s.phases|
    && s'.dest == s.dest && s'.requests == s.requests && s'.phases == s.phases[i := s'.phases[i]]
    && ChangedOnly(s.files, s'.files, paths)
    && HeldByNoOther(s, i, paths)
    && (forall path | path in paths :: path in files ==> IsOwn(s.dest, path))
    && (forall path | path in paths && path in s'.files && path !in files && path != s.dest ::
          IsTemp(s.dest, path) && s'.files[path] <= s.requests[i].source)
  }

  lemma LocalStepKeepsTemps(files: Files, s: System, s': System, i: nat, paths: set<Path>)
    requires s.WellFormed() && s'.WellFormed() && TempsSound(files, s) && TempsApart(s)
    requires LocalStep(files, s, s', i, paths)
    requires TempSound(files, s'.files, s.dest, s'.phases[i], s.requests[i].source)
    requires OwnedTemp(s'.phases[i]).Some? ==>
               OwnedTemp(s'.phases[i]) == OwnedTemp(s.phases[i]) || OwnedTemp(s'.phases[i]).value in paths
    ensures TempsSound(files, s') && TempsApart(s')
  {
    hide IsTemp, IsOwn;
    forall j | 0 <= j < |s.phases| && j != i
      ensures TempSound(files, s'.files, s.dest, s'.phases[j], s.requests[j].source)
    {
      assert TempSound(files, s.files, s.dest, s.phases[j], s.requests[j].source);
    }
  }

  lemma LocalStepKeepsOthers(files: Files, s: System, s': System, i: nat, paths: set<Path>)
    requires s.WellFormed() && s'.WellFormed() && OthersUntouched(files, s) && NewFilesAreTemps(files, s)
    requires LocalStep(files, s, s', i, paths)
    ensures OthersUntouched(files, s') && NewFilesAreTemps(files, s')
  {
    hide IsTemp, IsOwn, OwnedTemp, HeldByNoOther;
    forall path | path in s'.files && path !in files && path != s.dest
      ensures IsTemp(s.dest, path) && exists k | 0 <= k < |s.requests| :: s'.files[path] <= s.requests[k].source
    {
      if path !in paths {
        assert SameAt(s.files, s'.files, path);
      }
    }
    forall path | path in files && !IsOwn(s.dest, path) ensures path in s'.files && s'.files[path] == files[path] {
      assert SameAt(s.files, s'.files, path);
    }
  }

  /** A step that leaves the destination and its sidecars alone, and replaces nothing. */
  lemma LocalStepKeepsDestination(files: Files, s: System, s': System, i: nat, paths: set<Path>)
    requires s.WellFormed() && s'.WellFormed() && DestinationWhole(files, s) && LocalStep(files, s, s', i, paths)
    requires s.dest !in paths && Wal(s.dest) !in paths && Shm(s.dest) !in paths
    requires s'.last == s.last && (HasReplaced(s'.phases[i]) <==> HasReplaced(s.phases[i]))
    ensures DestinationWhole(files, s')
  {
    hide IsTemp, IsOwn, OwnedTemp, HeldByNoOther;
    assert SameAt(s.files, s'.files, s.dest) && SameAt(s.files, s'.files, Wal(s.dest)) && SameAt(s.files, s'.files, Shm(s.dest));
  }

  lemma LocalStepKeepsChecks(files: Files, s: System, s': System, i: nat, paths: set<Path>)
    requires s.WellFormed() && s'.WellFormed() && ChecksPassed(s) && LocalStep(files, s, s', i, paths)
    requires CheckPassed(s.dest, s'.phases[i], s.requests[i])
    ensures ChecksPassed(s')
  {
    hide IsTemp, IsOwn, CheckPassed, ChangedOnly, HeldByNoOther;
  }

  lemma LocalStepStaysSound(files: Files, s: System, s': System, i: nat, paths: set<Path>)
    requires Sound(files, s) && s'.WellFormed() && LocalStep(files, s, s', i, paths)
    requires TempSound(files, s'.files, s.dest, s'.phases[i], s.requests[i].source)
    requires OwnedTemp(s'.phases[i]).Some? ==>
               OwnedTemp(s'.phases[i]) == OwnedTemp(s.phases[i]) || OwnedTemp(s'.phases[i]).value in paths
    requires CheckPassed(s.dest, s'.phases[i], s.requests[i])
    requires DestinationWhole(files, s')
    ensures Sound(files, s')
  {
    LocalStepKeepsTemps(files, s, s', i, paths);
    LocalStepKeepsOthers(files, s, s', i, paths);
    LocalStepKeepsChecks(files, s, s', i, paths);
    hide TempsSound, TempsApart, OthersUntouched, NewFilesAreTemps, DestinationWhole, ChecksPassed;
  }

  /** Moving restore `i` to another phase without touching files. */
  lemma GotoStaysSound(files: Files, s: System, i: nat, phase: Phase)
    requires Sound(files, s) && i < |s.phases|
    requires OwnedTemp(phase).Some? ==> OwnedTemp(phase) == OwnedTemp(s.phases[i])
    requires TempSound(files, s.files, s.dest, phase, s.requests[i].source)
    requires HasReplaced(phase) <==> HasReplaced(s.phases[i])
    requires CheckPassed(s.dest, phase, s.requests[i])
    ensures Sound(files, Goto(s, i, phase))
  {
    hide IsTemp, IsOwn, CheckPassed, TempSound, OthersUntouched, NewFilesAreTemps, TempsApart, DestinationWhole;
    var s' := Goto(s, i, phase);
    LocalStepKeepsDestination(files, s, s', i, {});
    LocalStepStaysSound(files, s, s', i, {});
  }

  /** Changing the restore's own temporary file, and nothing else. */
  lemma TempStepStaysSound(files: Files, s: System, s': System, i: nat, tmp: Path)
    requires Sound(files, s) && s'.WellFormed() && i < |s.phases| == |s'.phases|
    requires s'.dest == s.dest && s'.requests == s.requests && s'.phases == s.phases[i := s'.phases[i]]
    requires s'.last == s.last && (HasReplaced(s'.phases[i]) <==> HasReplaced(s.phases[i]))
    requires OwnedTemp(s.phases[i]) == Some(tmp) || (IsTemp(s.dest, tmp) && tmp !in s.files)
    requires ChangedOnly(s.files, s'.files, {tmp}) && (tmp in s'.files ==> s'.files[tmp] <= s.requests[i].source)
    requires TempSound(files, s'.files, s.dest, s'.phases[i], s.requests[i].source)
    requires OwnedTemp(s'.phases[i]).Some? ==> OwnedTemp(s'.phases[i]) == Some(tmp)
    requires CheckPassed(s.dest, s'.phases[i], s.requests[i])
    ensures Sound(files, s')
  {
    NewTemp(files, s, i, tmp);
    TempsAreNotOwn(s.dest, tmp);
    HeldAlone(files, s, i, tmp);
    hide IsTemp, CheckPassed, TempSound, OthersUntouched, NewFilesAreTemps, TempsApart, DestinationWhole, ChangedOnly, HeldByNoOther;
    assert LocalStep(files, s, s', i, {tmp});
    LocalStepKeepsDestination(files, s, s', i, {tmp});
    LocalStepStaysSound(files, s, s', i, {tmp});
  }

  lemma NewTemp(files: Files, s: System, i: nat, tmp: Path)
    requires Sound(files, s) && i < |s.phases|
    requires OwnedTemp(s.phases[i]) == Some(tmp) || (IsTemp(s.dest, tmp) && tmp !in s.files)
    ensures IsTemp(s.dest, tmp) && tmp !in files
  {
    hide NewFilesAreTemps, TempsApart, DestinationWhole, ChecksPassed;
    if OwnedTemp(s.phases[i]) == Some(tmp) {
      assert TempSound(files, s.files, s.dest, s.phases[i], s.requests[i].source);
    } else {
      TempsAreNotOwn(s.dest, tmp);
    }
  }

  lemma HeldAlone(files: Files, s: System, i: nat, tmp: Path)
    requires Sound(files, s) && i < |s.phases|
    requires OwnedTemp(s.phases[i]) == Some(tmp) || tmp !in s.files
    ensures HeldByNoOther(s, i, {tmp})
  {
    hide NewFilesAreTemps, DestinationWhole, ChecksPassed, IsTemp, OthersUntouched;
    forall j | 0 <= j < |s.phases| && j != i && OwnedTemp(s.phases[j]).Some? ensures OwnedTemp(s.phases[j]).value != tmp {
      assert TempSound(files, s.files, s.dest, s.phases[j], s.requests[j].source);
      assert i < j || j < i;
    }
  }

  lemma CreatingStaysSound(files: Files, s: System, i: nat, tmp: Path)
    requires Sound(files, s) && i < |s.phases| && s.phases[i].Allocating?
    requires IsTemp(s.dest, tmp) && tmp !in s.files
    ensures Sound(files, Goto(s.(files := s.files[tmp := []]), i, Copying(tmp, 0)))
  {
    var s' := Goto(s.(files := s.files[tmp := []]), i, Copying(tmp, 0));
    NewTemp(files, s, i, tmp);
    hide NewFilesAreTemps, DestinationWhole, IsTemp, OthersUntouched, TempsApart, TempsSound, Refusal;
    assert s'.files[tmp] <= s.requests[i].source;
    assert CheckPassed(s.dest, s.phases[i], s.requests[i]);
    TempStepStaysSound(files, s, s', i, tmp);
  }

  lemma CopyingStaysSound(files: Files, s: System, i: nat, upTo: nat)
    requires Sound(files, s) && Enabled(s, Copy(i, upTo))
    ensures Sound(files, Next(s, Copy(i, upTo)))
  {
    hide NewFilesAreTemps, DestinationWhole, IsTemp, OthersUntouched, TempsApart, Refusal;
    var tmp := s.phases[i].tmp;
    assert TempSound(files, s.files, s.dest, s.phases[i], s.requests[i].source);
    assert CheckPassed(s.dest, s.phases[i], s.requests[i]);
    TempStepStaysSound(files, s, Next(s, Copy(i, upTo)), i, tmp);
  }

  lemma CleaningStaysSound(files: Files, s: System, i: nat, ok: bool)
    requires Sound(files, s) && Enabled(s, Clean(i, ok))
    ensures Sound(files, Next(s, Clean(i, ok)))
  {
    hide NewFilesAreTemps, DestinationWhole, IsTemp, OthersUntouched, TempsApart, Refusal;
    var tmp := s.phases[i].tmp;
    assert TempSound(files, s.files, s.dest, s.phases[i], s.requests[i].source);
    TempStepStaysSound(files, s, Next(s, Clean(i, ok)), i, tmp);
  }

  lemma ReplacingStaysSound(files: Files, s: System, i: nat)
    requires Sound(files, s) && Enabled(s, Replace(i, true))
    ensures Sound(files, Next(s, Replace(i, true)))
  {
    hide IsTemp, Refusal, OthersUntouched, NewFilesAreTemps, TempsApart, IsOwn, Wal, Shm;
    var tmp := s.phases[i].tmp;
    var s' := Next(s, Replace(i, true));
    assert TempSound(files, s.files, s.dest, s.phases[i], s.requests[i].source);
    assert CheckPassed(s.dest, s.phases[i], s.requests[i]);
    NewTemp(files, s, i, tmp);
    TempsAreNotOwn(s.dest, tmp);
    DestIsOwn(s.dest);
    HeldAlone(files, s, i, tmp);
    TempsAvoidOwn(files, s, s.dest);
    hide Enabled, Next;
    assert HeldByNoOther(s, i, {tmp, s.dest});
    assert LocalStep(files, s, s', i, {tmp, s.dest});
    LocalStepStaysSound(files, s, s', i, {tmp, s.dest});
  }

  lemma DestIsOwn(dest: Path)
    ensures IsOwn(dest, dest) && IsOwn(dest, Wal(dest)) && IsOwn(dest, Shm(dest)) && dest != Wal(dest) && dest != Shm(dest)
  {
    assert |Wal(dest).name| > |dest.name| && |Shm(dest).name| > |dest.name|;
  }

  lemma TempsAvoidOwn(files: Files, s: System, path: Path)
    requires Sound(files, s) && IsOwn(s.dest, path)
    ensures forall j | 0 <= j < |s.phases| && OwnedTemp(s.phases[j]).Some? :: OwnedTemp(s.phases[j]).value != path
  {
    hide NewFilesAreTemps, DestinationWhole, ChecksPassed, OthersUntouched, TempsApart;
    forall j | 0 <= j < |s.phases| && OwnedTemp(s.phases[j]).Some? ensures OwnedTemp(s.phases[j]).value != path {
      assert TempSound(files, s.files, s.dest, s.phases[j], s.requests[j].source);
      TempsAreNotOwn(s.dest, OwnedTemp(s.phases[j]).value);
    }
  }

  lemma UnlinkingStaysSound(files: Files, s: System, i: nat, ok: bool)
    requires Sound(files, s) && Enabled(s, Unlink(i, ok))
    ensures Sound(files, Next(s, Unlink(i, ok)))
  {
    hide IsTemp, Refusal, OthersUntouched, NewFilesAreTemps, TempsApart, IsOwn, Wal, Shm;
    var path := if s.phases[i].UnlinkingWal? then Wal(s.dest) else Shm(s.dest);
    var s' := Next(s, Unlink(i, ok));
    assert CheckPassed(s.dest, s.phases[i], s.requests[i]);
    if ok {
      DestIsOwn(s.dest);
      TempsAvoidOwn(files, s, path);
      assert HasReplaced(s.phases[i]) && s.last.Some?;
      assert LocalStep(files, s, s', i, {path});
      assert DestinationWhole(files, s');
      LocalStepStaysSound(files, s, s', i, {path});
    } else {
      GotoStaysSound(files, s, i, s'.phases[i]);
    }
  }

  lemma StepsKeepSound(files: Files, s: System, step: Step)
    requires Sound(files, s) && Enabled(s, step)
    ensures Sound(files, Next(s, step))
  {
    hide Sound, Refusal, IsTemp;
    match step
    case Check(i, ok) =>
      CheckingStaysSound(files, s, i, ok);
    case Allocate(i, ok) =>
      AllocatingStaysSound(files, s, i, ok);
    case Copy(i, upTo) =>
      CopyingStaysSound(files, s, i, upTo);
    case Sync(i, ok) =>
      SyncingStaysSound(files, s, i, ok);
    case Replace(i, ok) =>
      if ok {
        ReplacingStaysSound(files, s, i);
      } else {
        AbandoningStaysSound(files, s, i);
      }
    case Unlink(i, ok) =>
      UnlinkingStaysSound(files, s, i, ok);
    case Clean(i, ok) =>
      CleaningStaysSound(files, s, i, ok);
  }

  lemma CheckingStaysSound(files: Files, s: System, i: nat, ok: bool)
    requires Sound(files, s) && Enabled(s, Check(i, ok))
    ensures Sound(files, Next(s, Check(i, ok)))
  {
    GotoStaysSound(files, s, i, Next(s, Check(i, ok)).phases[i]);
  }

  lemma AllocatingStaysSound(files: Files, s: System, i: nat, ok: bool)
    requires Sound(files, s) && Enabled(s, Allocate(i, ok))
    ensures Sound(files, Next(s, Allocate(i, ok)))
  {
    hide IsTemp, TempPath, Refusal;
    var tmp := TempPath(s.dest, s.requests[i].pid, s.phases[i].slot);
    TempNames(s.dest, s.requests[i].pid, s.phases[i].slot);
    assert CheckPassed(s.dest, s.phases[i], s.requests[i]);
    if ok && tmp !in s.files {
      CreatingStaysSound(files, s, i, tmp);
    } else {
      GotoStaysSound(files, s, i, Next(s, Allocate(i, ok)).phases[i]);
    }
  }

  lemma SyncingStaysSound(files: Files, s: System, i: nat, ok: bool)
    requires Sound(files, s) && Enabled(s, Sync(i, ok))
    ensures Sound(files, Next(s, Sync(i, ok)))
  {
    hide IsTemp, Refusal;
    assert CheckPassed(s.dest, s.phases[i], s.requests[i]);
    assert TempSound(files, s.files, s.dest, s.phases[i], s.requests[i].source);
    GotoStaysSound(files, s, i, Next(s, Sync(i, ok)).phases[i]);
  }

  lemma AbandoningStaysSound(files: Files, s: System, i: nat)
    requires Sound(files, s) && Enabled(s, Replace(i, false))
    ensures Sound(files, Next(s, Replace(i, false)))
  {
    hide IsTemp, Refusal;
    assert CheckPassed(s.dest, s.phases[i], s.requests[i]);
    assert TempSound(files, s.files, s.dest, s.phases[i], s.requests[i].source);
    GotoStaysSound(files, s, i, Next(s, Replace(i, false)).phases[i]);
  }

  lemma {:induction false} RunsStaySound(run: Run, dest: Path, files: Files, requests: seq<Request>, n: nat)
    requires run.Valid(dest, files, requests) && n <= |run.steps|
    ensures Sound(files, run.states[n]) && run.states[n].dest == dest && run.states[n].requests == requests
  {
    hide Sound, Enabled, Next;
    if n == 0 {
      StartIsSound(dest, files, requests);
    } else {
      RunsStaySound(run, dest, files, requests, n - 1);
      var s, step := run.states[n - 1], run.steps[n - 1];
      StepsKeepSound(files, s, step);
      StepsKeepTheRequests(s, step);
    }
  }

  lemma StepsKeepTheRequests(s: System, step: Step)
    requires Enabled(s, step)
    ensures Next(s, step).dest == s.dest && Next(s, step).requests == s.requests
  {
    hide Refusal;
  }

  // ---- Main results ----

  /**
   At every moment of every run the destination holds exactly what it held before, or all of the bytes of one
   restore that passed its checks; and it holds such bytes once any restore is done.
   */
  lemma TheDestinationIsNeverMixed(run: Run, dest: Path, files: Files, requests: seq<Request>, n: nat)
    requires run.Valid(dest, files, requests) && n <= |run.steps|
    ensures var now := run.states[n].files;
            || SameAt(files, now, dest)
            || exists k | 0 <= k < |requests| :: Refusal(dest, requests[k]) == None && dest in now && now[dest] == requests[k].source
    ensures (exists i | 0 <= i < |requests| :: i < |run.states[n].phases| && run.states[n].phases[i].Done?) ==>
              exists k | 0 <= k < |requests| ::
                Refusal(dest, requests[k]) == None && dest in run.states[n].files && run.states[n].files[dest] == requests[k].source
  {
    RunsStaySound(run, dest, files, requests, n);
    var s := run.states[n];
    if s.last.Some? {
      assert HasReplaced(s.phases[s.last.value]);
      assert Refusal(dest, requests[s.last.value]) == None && s.files[dest] == requests[s.last.value].source;
    }
  }

  /** Every file that was there, except the destination and its sidecars, keeps its bytes: backups above all. */
  lemma EverythingElseIsPreserved(run: Run, dest: Path, files: Files, requests: seq<Request>, n: nat)
    requires run.Valid(dest, files, requests) && n <= |run.steps|
    ensures forall path | path in files && !IsOwn(dest, path) :: SameAt(files, run.states[n].files, path)
    ensures forall k | 0 <= k < |requests| && Refusal(dest, requests[k]) == None && requests[k].backup in files ::
              SameAt(files, run.states[n].files, requests[k].backup)
    ensures forall path | path in run.states[n].files && path !in files && path != dest :: IsTemp(dest, path)
  {
    RunsStaySound(run, dest, files, requests, n);
    forall k | 0 <= k < |requests| && Refusal(dest, requests[k]) == None ensures !IsOwn(dest, requests[k].backup) {
      BackupsAreNotOwn(dest, requests[k]);
    }
    hide IsOwn, IsTemp, Refusal;
  }

  /** Two restores never hold the same temporary file, nor one that was there before. */
  lemma TempsAreNeverShared(run: Run, dest: Path, files: Files, requests: seq<Request>, n: nat, i: nat, j: nat)
    requires run.Valid(dest, files, requests) && n <= |run.steps| && i < |requests| && j < |requests| && i != j
    ensures i < |run.states[n].phases| && j < |run.states[n].phases|
    ensures var tmp := OwnedTemp(run.states[n].phases[i]);
            tmp.Some? ==> tmp != OwnedTemp(run.states[n].phases[j]) && tmp.value !in files
  {
    RunsStaySound(run, dest, files, requests, n);
    assert i < j || j < i;
  }

  /** The sidecars of the old database are never touched before it is replaced as a whole. */
  lemma SidecarsOutliveTheOldDatabase(run: Run, dest: Path, files: Files, requests: seq<Request>, n: nat)
    requires run.Valid(dest, files, requests) && n <= |run.steps| && run.states[n].last == None
    ensures SameAt(files, run.states[n].files, Wal(dest)) && SameAt(files, run.states[n].files, Shm(dest))
  {
    RunsStaySound(run, dest, files, requests, n);
  }

  /** If every reader yields its backup's bytes, the destination is as before or equals a backup still in place. */
  lemma TheDestinationEqualsABackup(run: Run, dest: Path, files: Files, requests: seq<Request>, n: nat)
    requires run.Valid(dest, files, requests) && n <= |run.steps|
    requires forall k | 0 <= k < |requests| && Refusal(dest, requests[k]) == None ::
               requests[k].backup in files && files[requests[k].backup] == requests[k].source
    ensures var now := run.states[n].files;
            || SameAt(files, now, dest)
            || exists k | 0 <= k < |requests| ::
                 dest in now && requests[k].backup in now && now[dest] == now[requests[k].backup]
  {
    hide Refusal, IsTemp, IsOwn;
    TheDestinationIsNeverMixed(run, dest, files, requests, n);
    EverythingElseIsPreserved(run, dest, files, requests, n);
    var now := run.states[n].files;
    if !SameAt(files, now, dest) {
      var k :| 0 <= k < |requests| && Refusal(dest, requests[k]) == None && dest in now && now[dest] == requests[k].source;
      assert SameAt(files, now, requests[k].backup);
    }
  }

  /** The step removes a sidecar: the only one that can. */
  predicate Unlinks(s: System, step: Step, sidecar: Path) {
    && step.Unlink? && step.ok && step.i < |s.phases|
    && ((s.phases[step.i].UnlinkingWal? && sidecar == Wal(s.dest))
        || (s.phases[step.i].UnlinkingShm? && sidecar == Shm(s.dest)))
  }

  ghost predicate WasUnlinked(run: Run, n: nat, sidecar: Path)
    requires n <= |run.steps| < |run.states|
  {
    exists m | 0 <= m < n :: Unlinks(run.states[m], run.steps[m], sidecar)
  }

  lemma OneStepOfASidecar(files: Files, s: System, step: Step, sidecar: Path)
    requires Sound(files, s) && Enabled(s, step) && (sidecar == Wal(s.dest) || sidecar == Shm(s.dest))
    ensures if Unlinks(s, step, sidecar) then sidecar !in Next(s, step).files
            else SameAt(s.files, Next(s, step).files, sidecar)
  {
    hide Sound, Refusal, TempPath, Wal, Shm;
    SidecarsDiffer(s.dest);
    if !step.Unlink? {
      DestIsOwn(s.dest);
      TempsAvoidOwn(files, s, sidecar);
      hide IsOwn;
      if step.Allocate? {
        SlotsAreNoSidecars(s.dest, s.requests[step.i].pid, s.phases[step.i].slot);
      } else if step.Copy? || step.Replace? || step.Clean? {
        assert OwnedTemp(s.phases[step.i]) == Some(s.phases[step.i].tmp);
      }
    }
  }

  lemma SlotsAreNoSidecars(dest: Path, pid: nat, slot: nat)
    ensures TempPath(dest, pid, slot) != Wal(dest) && TempPath(dest, pid, slot) != Shm(dest)
  {
    hide TempPath;
    TempNames(dest, pid, slot);
    TempsAreNotOwn(dest, TempPath(dest, pid, slot));
  }

  lemma SidecarsDiffer(dest: Path)
    ensures Wal(dest) != Shm(dest)
  {
    assert Wal(dest).name[|Wal(dest).name| - 1] == 'l' && Shm(dest).name[|Shm(dest).name| - 1] == 'm';
  }

  /**
   At every moment of every run a sidecar is there exactly if it was there at first and no restore has unlinked it,
   and then with its old bytes. A restore that stops between its replace and its unlinks therefore leaves the old
   sidecars beside the new database.
   */
  lemma {:induction false} SidecarsGoOnlyByUnlinking(
    run: Run, dest: Path, files: Files, requests: seq<Request>, n: nat, sidecar: Path)
    requires run.Valid(dest, files, requests) && n <= |run.steps| && (sidecar == Wal(dest) || sidecar == Shm(dest))
    ensures sidecar in run.states[n].files <==> sidecar in files && !WasUnlinked(run, n, sidecar)
    ensures sidecar in run.states[n].files ==> run.states[n].files[sidecar] == files[sidecar]
  {
    hide Sound, Run.Valid, Enabled, Next, Unlinks, Wal, Shm;
    RunShape(run, dest, files, requests, n);
    if n > 0 {
      SidecarsGoOnlyByUnlinking(run, dest, files, requests, n - 1, sidecar);
      RunsStaySound(run, dest, files, requests, n - 1);
      OneStepOfASidecar(files, run.states[n - 1], run.steps[n - 1], sidecar);
      WasUnlinkedStep(run, n, sidecar);
    }
  }

  lemma RunShape(run: Run, dest: Path, files: Files, requests: seq<Request>, n: nat)
    requires run.Valid(dest, files, requests) && n <= |run.steps|
    ensures |run.states| == |run.steps| + 1 && run.states[0].files == files
    ensures n > 0 ==> Enabled(run.states[n - 1], run.steps[n - 1])
                      && run.states[n] == Next(run.states[n - 1], run.steps[n - 1])
  {
    hide Enabled, Next;
  }

  lemma WasUnlinkedStep(run: Run, n: nat, sidecar: Path)
    requires 0 < n <= |run.steps| < |run.states|
    ensures WasUnlinked(run, n, sidecar) <==>
              WasUnlinked(run, n - 1, sidecar) || Unlinks(run.states[n - 1], run.steps[n - 1], sidecar)
  {
    hide Unlinks;
  }

  /** Any accepted restore with a free first slot may stop right after its replace: both sidecars survive. */
  lemma SidecarsMaySurviveARestore(dest: Path, files: Files, request: Request) returns (run: Run)
    requires Refusal(dest, request) == None && TempPath(dest, request.pid, 0) !in files
    ensures run.Valid(dest, files, [request]) && run.steps != [] && run.steps[|run.steps| - 1] == Replace(0, true)
    ensures var now := run.states[|run.steps|].files;
            && dest in now && now[dest] == request.source
            && SameAt(files, now, Wal(dest)) && SameAt(files, now, Shm(dest))
  {
    hide Refusal, TempPath, Wal, Shm, Run.Valid, Next, Enabled;
    run := UpToTheReplace(dest, files, request);
    ReplaceIsNext(dest, files, request);
    run := Extend(run, dest, files, [request], Replace(0, true));
    var n := |run.steps|;
    RunShape(run, dest, files, [request], n);
    NeverUnlinked(run, n, Wal(dest));
    NeverUnlinked(run, n, Shm(dest));
    SidecarsGoOnlyByUnlinking(run, dest, files, [request], n, Wal(dest));
    SidecarsGoOnlyByUnlinking(run, dest, files, [request], n, Shm(dest));
  }

  /** One restore of `dest` in the given phase, before any replace. */
  function Alone(dest: Path, files: Files, request: Request, phase: Phase): System {
    System(dest, files, [request], [phase], None)
  }

  lemma ReplaceIsNext(dest: Path, files: Files, request: Request)
    ensures var tmp := TempPath(dest, request.pid, 0);
            var s := Alone(dest, files[tmp := request.source], request, Replacing(tmp));
            && Enabled(s, Replace(0, true))
            && dest in Next(s, Replace(0, true)).files && Next(s, Replace(0, true)).files[dest] == request.source
  {
    hide TempPath;
  }

  lemma UpToTheReplace(dest: Path, files: Files, request: Request) returns (run: Run)
    requires Refusal(dest, request) == None && TempPath(dest, request.pid, 0) !in files
    ensures run.Valid(dest, files, [request]) && |run.states| == |run.steps| + 1
    ensures forall m | 0 <= m < |run.steps| :: !run.steps[m].Unlink?
    ensures var tmp := TempPath(dest, request.pid, 0);
            run.states[|run.steps|] == Alone(dest, files[tmp := request.source], request, Replacing(tmp))
  {
    hide Refusal, TempPath, Run.Valid;
    var tmp := TempPath(dest, request.pid, 0);
    run := UpToTheCopy(dest, files, request);
    assert request.source[..|request.source|] == request.source;
    if request.source != [] {
      run := Extend(run, dest, files, [request], Copy(0, |request.source|));
      assert run.states[|run.steps|] == Alone(dest, files[tmp := request.source], request, Copying(tmp, |request.source|));
    }
    run := Extend(run, dest, files, [request], Sync(0, true));
  }

  lemma UpToTheCopy(dest: Path, files: Files, request: Request) returns (run: Run)
    requires Refusal(dest, request) == None && TempPath(dest, request.pid, 0) !in files
    ensures run.Valid(dest, files, [request]) && |run.states| == |run.steps| + 1
    ensures forall m | 0 <= m < |run.steps| :: !run.steps[m].Unlink?
    ensures var tmp := TempPath(dest, request.pid, 0);
            run.states[|run.steps|] == Alone(dest, files[tmp := []], request, Copying(tmp, 0))
  {
    hide Refusal, TempPath;
    run := Run([Start(dest, files, [request])], []);
    assert Start(dest, files, [request]) == Alone(dest, files, request, Checking);
    assert run.Valid(dest, files, [request]);
    hide Run.Valid;
    run := Extend(run, dest, files, [request], Check(0, true));
    assert run.states[|run.steps|] == Alone(dest, files, request, Allocating(0));
    run := Extend(run, dest, files, [request], Allocate(0, true));
  }

  lemma NeverUnlinked(run: Run, n: nat, sidecar: Path)
    requires n <= |run.steps| < |run.states| && forall m | 0 <= m < n :: !run.steps[m].Unlink?
    ensures !WasUnlinked(run, n, sidecar)
  {}

  lemma Extend(run: Run, dest: Path, files: Files, requests: seq<Request>, step: Step) returns (longer: Run)
    requires run.Valid(dest, files, requests) && Enabled(run.states[|run.steps|], step)
    ensures longer.Valid(dest, files, requests) && longer.steps == run.steps + [step]
    ensures |longer.states| == |longer.steps| + 1 && longer.states[|longer.steps|] == Next(run.states[|run.steps|], step)
  {
    hide Enabled, Next;
    RunsExtend(run, dest, files, requests, step);
    longer := Run(run.states + [Next(run.states[|run.steps|], step)], run.steps + [step]);
  }

  /** The restore's own attempt at the slot finds its file there. */
  ghost predicate FoundAt(run: Run, m: nat, i: nat, slot: nat, path: Path)
    requires m < |run.steps| < |run.states|
  {
    && run.steps[m] == Allocate(i, true)
    && i < |run.states[m].phases| && run.states[m].phases[i] == Allocating(slot)
    && path in run.states[m].files
  }

  ghost predicate FoundOccupied(run: Run, n: nat, i: nat, slot: nat, path: Path)
    requires n <= |run.steps| < |run.states|
  {
    exists m | 0 <= m < n :: FoundAt(run, m, i, slot, path)
  }

  lemma {:induction false} PassedSlotsWereOccupied(
    run: Run, dest: Path, files: Files, requests: seq<Request>, n: nat, i: nat, slot: nat)
    requires run.Valid(dest, files, requests) && n <= |run.steps| && i < |requests|
    requires run.states[n].WellFormed() && run.states[n].requests == requests
    requires || (run.states[n].phases[i].Allocating? && slot < run.states[n].phases[i].slot)
             || (run.states[n].phases[i] == Failed(SlotsOccupied) && slot < SLOTS)
    ensures FoundOccupied(run, n, i, slot, TempPath(dest, requests[i].pid, slot))
  {
    if n > 0 {
      RunsStaySound(run, dest, files, requests, n - 1);
      var s, step := run.states[n - 1], run.steps[n - 1];
      var path := TempPath(dest, requests[i].pid, slot);
      hide Sound, TempPath, FoundOccupied;
      OneAllocation(files, s, step, i, slot);
      if step == Allocate(i, true) && s.phases[i] == Allocating(slot) && path in s.files {
        FoundNow(run, n, i, slot, path);
      } else {
        PassedSlotsWereOccupied(run, dest, files, requests, n - 1, i, slot);
        FoundLater(run, n, i, slot, path);
      }
    }
  }

  /** A slot is passed by the restore's own attempt only, and only if that finds it occupied. */
  lemma OneAllocation(files: Files, s: System, step: Step, i: nat, slot: nat)
    requires Sound(files, s) && Enabled(s, step) && i < |s.phases|
    requires var phase := Next(s, step).phases[i];
             (phase.Allocating? && slot < phase.slot) || (phase == Failed(SlotsOccupied) && slot < SLOTS)
    ensures || (step == Allocate(i, true) && s.phases[i] == Allocating(slot)
                && TempPath(s.dest, s.requests[i].pid, slot) in s.files)
            || (s.phases[i].Allocating? && slot < s.phases[i].slot)
            || (s.phases[i] == Failed(SlotsOccupied) && slot < SLOTS)
  {
    hide TempPath, TempsSound, TempsApart, NewFilesAreTemps, OthersUntouched, DestinationWhole, Refusal;
    RefusalsAreNotOccupancy(s.dest, s.requests[i]);
    assert CheckPassed(s.dest, s.phases[i], s.requests[i]);
    hide ChecksPassed;
  }

  lemma RefusalsAreNotOccupancy(dest: Path, request: Request)
    ensures Refusal(dest, request) != Some(SlotsOccupied)
  {}

  lemma FoundNow(run: Run, n: nat, i: nat, slot: nat, path: Path)
    requires 0 < n <= |run.steps| < |run.states| && FoundAt(run, n - 1, i, slot, path)
    ensures FoundOccupied(run, n, i, slot, path)
  {}

  lemma FoundLater(run: Run, n: nat, i: nat, slot: nat, path: Path)
    requires 0 < n <= |run.steps| < |run.states| && FoundOccupied(run, n - 1, i, slot, path)
    ensures FoundOccupied(run, n, i, slot, path)
  {}

  /** Allocation reports that all slots are occupied only after its own attempts found each of the 32 so. */
  lemma OccupancyWasFound(run: Run, dest: Path, files: Files, requests: seq<Request>, n: nat, i: nat)
    requires run.Valid(dest, files, requests) && n <= |run.steps| && i < |requests|
    requires i < |run.states[n].phases| && run.states[n].phases[i] == Failed(SlotsOccupied)
    ensures forall slot: nat | slot < 32 :: FoundOccupied(run, n, i, slot, TempPath(dest, requests[i].pid, slot))
  {
    RunsStaySound(run, dest, files, requests, n);
    forall slot: nat | slot < 32 ensures FoundOccupied(run, n, i, slot, TempPath(dest, requests[i].pid, slot)) {
      PassedSlotsWereOccupied(run, dest, files, requests, n, i, slot);
    }
  }
}
