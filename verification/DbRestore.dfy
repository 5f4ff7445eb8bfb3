/**
 Restoring a database snapshot, step by step on the files. What the operating system and the reader answer is an
 argument; each method is proved to be a run of `RestoreSteps`, so that what is proved there about every moment of
 every run holds of it wherever it is interrupted.
 */
module DbRestores {
  import opened Basics
  import opened RestoreSteps

  /**
   `denied` is the first slot whose creation fails for another reason than that it exists; `readable` is how many
   bytes the reader yields before it fails.
   */
  datatype Env = Env(
    dirOk: bool, denied: Option<nat>, readable: nat, syncOk: bool, replaceOk: bool, walOk: bool, shmOk: bool, cleanOk: bool)

  const CHUNK: nat := 8192

  /** The run ends with one restore of `dest` in the given phase, over the given files. */
  ghost predicate Reaches(run: Run, dest: Path, start: Files, request: Request, files: Files, phase: Phase, replaced: bool) {
    && run.Valid(dest, start, [request])
    && run.states[|run.steps|] == Sys(dest, files, request, phase, replaced)
  }

  ghost function Extended(run: Run, step: Step): Run
    requires run.states != [] && Enabled(run.states[|run.states| - 1], step)
  {
    Run(run.states + [Next(run.states[|run.states| - 1], step)], run.steps + [step])
  }

  /** The slots below `n` all exist. */
  predicate OccupiedBelow(files: Files, dest: Path, pid: nat, n: nat) {
    forall slot: nat | slot < n :: TempPath(dest, pid, slot) in files
  }

  /** A free slot is found before any slot is denied. */
  predicate FreeSlot(files: Files, dest: Path, pid: nat, denied: Option<nat>, slot: nat) {
    && slot < SLOTS && OccupiedBelow(files, dest, pid, slot) && TempPath(dest, pid, slot) !in files
    && (denied.Some? ==> slot < denied.value)
  }

  function Ended(r: Result<Path, RestoreError>): Phase {
    match r
    case Success(_) => Done
    case Failure(error) => Failed(error)
  }

  function Allocated(r: Result<Path, RestoreError>): Phase {
    match r
    case Success(tmp) => Copying(tmp, 0)
    case Failure(error) => Failed(error)
  }

  function Sys(dest: Path, files: Files, request: Request, phase: Phase, replaced: bool): System {
    System(dest, files, [request], [phase], if replaced then Some(0) else None)
  }

  /** The run goes on with one step. */
  lemma Take(
    run: Run, dest: Path, start: Files, request: Request, files: Files, phase: Phase, replaced: bool, step: Step)
    requires Reaches(run, dest, start, request, files, phase, replaced)
    requires Enabled(Sys(dest, files, request, phase, replaced), step)
    ensures run.states != [] && Enabled(run.states[|run.states| - 1], step)
    ensures var s := Next(Sys(dest, files, request, phase, replaced), step);
            s == Sys(dest, s.files, request, s.phases[0], s.last.Some?) ==>
              Reaches(Extended(run, step), dest, start, request, s.files, s.phases[0], s.last.Some?)
  {
    hide Enabled, Next;
    RunsExtend(run, dest, start, [request], step);
  }

  lemma Begin(dest: Path, files: Files, request: Request) returns (run: Run)
    ensures Reaches(run, dest, files, request, files, Checking, false)
  {
    run := Run([Start(dest, files, [request])], []);
    assert Start(dest, files, [request]) == Sys(dest, files, request, Checking, false);
  }

  /** One new file, with a prefix of the bytes. */
  ghost predicate LeavesOne(before: Files, after: Files, source: Bytes) {
    exists tmp :: tmp !in before && tmp in after && after == before[tmp := after[tmp]] && after[tmp] <= source
  }

  lemma TheTempIsGone(before: Files, tmp: Path)
    requires tmp !in before
    ensures before[tmp := []] - {tmp} == before
  {}

  lemma NoneOrOneIsLeft(before: Files, after: Files, tmp: Path, source: Bytes)
    requires tmp !in before
    ensures tmp in after && after == before[tmp := []][tmp := after[tmp]] && after[tmp] <= source ==>
              LeavesOne(before, after, source)
  {
    if tmp in after {
      assert before[tmp := []][tmp := after[tmp]] == before[tmp := after[tmp]];
    }
  }

  class Disk {
    var files: Files

    constructor (files: Files)
      ensures this.files == files
    {
      this.files := files;
    }

    /** Create the first temporary file whose slot is free, exclusively. */
    method CreateRestoreTemp(dest: Path, request: Request, denied: Option<nat>, ghost start: Files, ghost run: Run)
      returns (r: Result<Path, RestoreError>, ghost run': Run)
      requires Reaches(run, dest, start, request, files, Allocating(0), false)
      modifies this
      ensures Reaches(run', dest, start, request, files, Allocated(r), false)
      ensures r.Success? <==> exists slot :: FreeSlot(old(files), dest, request.pid, denied, slot)
      ensures r.Success? ==> exists slot ::
                FreeSlot(old(files), dest, request.pid, denied, slot) && r.value == TempPath(dest, request.pid, slot)
      ensures r.Success? ==> r.value !in old(files) && files == old(files)[r.value := []]
      ensures r.Failure? ==> files == old(files)
      ensures r == Failure(SlotsOccupied) <==>
                OccupiedBelow(old(files), dest, request.pid, SLOTS) && (denied.Some? ==> denied.value >= SLOTS)
    {
      run' := run;
      var slot: nat := 0;
      while slot < SLOTS
        invariant slot <= SLOTS && OccupiedBelow(files, dest, request.pid, slot) && files == old(files)
        invariant denied.Some? ==> slot <= denied.value
        invariant Reaches(run', dest, start, request, files,
                          if slot < SLOTS then Allocating(slot) else Failed(SlotsOccupied), false)
      {
        hide TempPath;
        var path := TempPath(dest, request.pid, slot);
        var ok := denied != Some(slot);
        Take(run', dest, start, request, files, Allocating(slot), false, Allocate(0, ok));
        run' := Extended(run', Allocate(0, ok));
        if !ok {
          return Failure(Io), run';
        }
        if path !in files {
          files := files[path := []];
          assert FreeSlot(old(files), dest, request.pid, denied, slot);
          return Success(path), run';
        }
        slot := slot + 1;
      }
      r := Failure(SlotsOccupied);
    }

    /** Copy what the reader yields into the temporary file. */
    method CopyAll(dest: Path, request: Request, tmp: Path, env: Env, ghost start: Files, ghost run: Run)
      returns (ok: bool, ghost run': Run)
      requires Reaches(run, dest, start, request, files, Copying(tmp, 0), false) && tmp in files && files[tmp] == []
      modifies this
      ensures ok == (env.readable >= |request.source| && env.syncOk)
      ensures Reaches(run', dest, start, request, files, if ok then Replacing(tmp) else Cleaning(tmp, Io), false)
      ensures tmp in files && files == old(files)[tmp := files[tmp]] && files[tmp] <= request.source
      ensures ok ==> files[tmp] == request.source
    {
      run' := run;
      var limit := if env.readable < |request.source| then env.readable else |request.source|;
      var copied: nat := 0;
      assert files == files[tmp := files[tmp]];
      while copied < limit
        invariant copied <= limit && tmp in files && files[tmp] == request.source[..copied]
        invariant files == old(files)[tmp := files[tmp]]
        invariant Reaches(run', dest, start, request, files, Copying(tmp, copied), false)
      {
        var upTo := if copied + CHUNK < limit then copied + CHUNK else limit;
        Take(run', dest, start, request, files, Copying(tmp, copied), false, Copy(0, upTo));
        run' := Extended(run', Copy(0, upTo));
        files := files[tmp := request.source[..upTo]];
        copied := upTo;
      }
      ok := copied == |request.source| && env.syncOk;
      Take(run', dest, start, request, files, Copying(tmp, copied), false, Sync(0, ok));
      run' := Extended(run', Sync(0, ok));
    }

    /** Remove the temporary file after a failure, if that succeeds. */
    method CleanUp(dest: Path, request: Request, tmp: Path, env: Env, ghost start: Files, ghost run: Run)
      returns (ghost run': Run)
      requires Reaches(run, dest, start, request, files, Cleaning(tmp, Io), false)
      modifies this
      ensures files == if env.cleanOk then old(files) - {tmp} else old(files)
      ensures Reaches(run', dest, start, request, files, Failed(Io), false)
    {
      Take(run, dest, start, request, files, Cleaning(tmp, Io), false, Clean(0, env.cleanOk));
      run' := Extended(run, Clean(0, env.cleanOk));
      if env.cleanOk {
        files := files - {tmp};
      }
    }

    method UnlinkSidecars(dest: Path, request: Request, env: Env, ghost start: Files, ghost run: Run)
      returns (ghost run': Run)
      requires Reaches(run, dest, start, request, files, UnlinkingWal, true)
      modifies this
      ensures files == old(files) - (if env.walOk then {Wal(dest)} else {}) - (if env.shmOk then {Shm(dest)} else {})
      ensures Reaches(run', dest, start, request, files, Done, true)
    {
      Take(run, dest, start, request, files, UnlinkingWal, true, Unlink(0, env.walOk));
      run' := Extended(run, Unlink(0, env.walOk));
      if env.walOk {
        files := files - {Wal(dest)};
      }
      Take(run', dest, start, request, files, UnlinkingShm, true, Unlink(0, env.shmOk));
      run' := Extended(run', Unlink(0, env.shmOk));
      if env.shmOk {
        files := files - {Shm(dest)};
      }
    }

    /** Fill the temporary file and move it over the destination, or remove it again. */
    method FillAndReplace(dest: Path, request: Request, tmp: Path, env: Env, ghost start: Files, ghost run: Run)
      returns (ok: bool, ghost run': Run)
      requires Reaches(run, dest, start, request, files, Copying(tmp, 0), false) && tmp in files && files[tmp] == []
      modifies this
      ensures ok == (env.readable >= |request.source| && env.syncOk && env.replaceOk)
      ensures Reaches(run', dest, start, request, files, if ok then UnlinkingWal else Failed(Io), ok)
      ensures ok ==> files == (old(files) - {tmp})[dest := request.source]
      ensures !ok && env.cleanOk ==> files == old(files) - {tmp}
      ensures !ok && !env.cleanOk ==> tmp in files && files == old(files)[tmp := files[tmp]] && files[tmp] <= request.source
    {
      hide Reaches;
      ok, run' := CopyAll(dest, request, tmp, env, start, run);
      if !ok {
        run' := CleanUp(dest, request, tmp, env, start, run');
        return;
      }
      ok := env.replaceOk;
      Take(run', dest, start, request, files, Replacing(tmp), false, Replace(0, ok));
      run' := Extended(run', Replace(0, ok));
      if !ok {
        run' := CleanUp(dest, request, tmp, env, start, run');
        return;
      }
      files := (files - {tmp})[dest := files[tmp]];
    }

    /**
     Replace the destination with what the reader yields. On success nothing changes but the destination and the
     sidecars; on failure nothing changes but, if it cannot be removed, one new file with a prefix of the bytes.
     */
    method RestoreFromReader(dest: Path, request: Request, env: Env)
      returns (r: Result<Path, RestoreError>, ghost run: Run)
      modifies this
      ensures Reaches(run, dest, old(files), request, files, Ended(r), r.Success?)
      ensures r.Success? <==>
                && Refusal(dest, request) == None && env.dirOk
                && (exists slot :: FreeSlot(old(files), dest, request.pid, env.denied, slot))
                && env.readable >= |request.source| && env.syncOk && env.replaceOk
      ensures r.Success? ==> r.value == dest
      ensures Refusal(dest, request).Some? ==> r == Failure(Refusal(dest, request).value) && files == old(files)
      ensures r.Success? ==>
                files == old(files)[dest := request.source]
                         - (if env.walOk then {Wal(dest)} else {}) - (if env.shmOk then {Shm(dest)} else {})
      ensures r.Failure? ==> files == old(files) || (!env.cleanOk && LeavesOne(old(files), files, request.source))
    {
      hide Reaches, Refusal, FreeSlot, TempPath, Extended, LeavesOne;
      ghost var start := files;
      run := Begin(dest, files, request);
      Take(run, dest, start, request, files, Checking, false, Check(0, env.dirOk));
      run := Extended(run, Check(0, env.dirOk));
      var refusal := Refusal(dest, request);
      if refusal.Some? {
        return Failure(refusal.value), run;
      }
      if !env.dirOk {
        return Failure(Io), run;
      }
      var temp;
      temp, run := CreateRestoreTemp(dest, request, env.denied, start, run);
      if temp.Failure? {
        return Failure(temp.error), run;
      }
      var tmp := temp.value;
      var done;
      done, run := FillAndReplace(dest, request, tmp, env, start, run);
      TheTempIsGone(start, tmp);
      if !done {
        NoneOrOneIsLeft(start, files, tmp, request.source);
        return Failure(Io), run;
      }
      run := UnlinkSidecars(dest, request, env, start, run);
      r := Success(dest);
    }
  }
}
