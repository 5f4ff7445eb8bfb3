/**
 What the calls on the journal file answer: exactly when they succeed, what they then leave in the file and in
 memory, and which error they name otherwise.
 */
module DurableOutcomes {
  import opened Basics
  import opened UpdateJournals
  import opened JournalRuns
  import opened DurableJournals

  /** The file is there, can be read, and passes validation as `j`. */
  predicate Loads(disk: Option<Journal>, env: Env, j: Journal) {
    env.readable && disk == Some(j) && Loadable(j)
  }

  /** Loading yields exactly what a readable, valid file holds. */
  lemma LoadingAnswers(disk: Option<Journal>, env: Env, j: Journal)
    ensures Load(disk, env) == Success(j) <==> Loads(disk, env, j)
    ensures disk.None? || !env.readable ==> Load(disk, env) == Failure(Io)
    ensures env.readable && disk.Some? && !Loadable(disk.value) ==>
              Load(disk, env).Failure? && ValidateLoaded(disk.value) == Fail(Load(disk, env).error)
  {
    hide ValidateLoaded;
  }

  /** The errors of a refused transition are never those of the store. */
  lemma TransitionErrors(platform: Platform, j: Journal, op: Op)
    ensures Apply(platform, j, op).Failure? ==>
              var error := Apply(platform, j, op).error;
              error.InvalidTransition? || error.InvalidFact? || error.IdentityMismatch?
  {
    hide After, PathsEqual, HandshakeMatches, ReceiptMatches, DrainProof.Valid, VerifiedBackup.ValidFor,
      InstanceHandshake.ValidFacts;
  }

  lemma ValidationErrors(j: Journal)
    ensures ValidateLoaded(j).Fail? ==>
              var error := ValidateLoaded(j).error;
              error.UnsupportedJournalVersion? || error.InvalidFact? || error.IdentityMismatch?
  {
    hide PhaseFactsHold;
  }

  /** What a change of a loadable memory needs in order to succeed. */
  predicate CanChange(platform: Platform, disk: Option<Journal>, memory: Journal, op: Op, env: Env) {
    && Apply(platform, memory, op).Success?
    && env.lockFree
    && env.readable && disk.Some? && Loadable(disk.value)
    && disk.value.revision == memory.revision
    && memory.revision < 0xFFFF_FFFF_FFFF_FFFF
    && env.write == Replaced
  }

  lemma ResultsAreLoadable(platform: Platform, memory: Journal, op: Op)
    requires Loadable(memory) && Apply(platform, memory, op).Success?
    ensures Loadable(Apply(platform, memory, op).value.(revision := memory.revision + 1))
  {
    hide ValidateLoaded, Verdict, After;
    TransitionsKeepLoadable(platform, memory, op, Apply(platform, memory, op).value.(revision := memory.revision + 1));
  }

  /**
   A change succeeds exactly when its transition is accepted, the lock is free, the file loads at the handle's own
   revision below the cap, and the write ends well. File and memory then both hold the transition's result, one
   revision on. A failed change leaves the memory alone, and the file too unless the write itself failed late.
   */
  lemma ChangeSucceedsExactlyWhen(platform: Platform, disk: Option<Journal>, memory: Journal, op: Op, env: Env)
    requires Loadable(memory)
    ensures var (r, disk', memory') := ChangeIn(platform, disk, memory, op, env);
            && (r.Pass? <==> CanChange(platform, disk, memory, op, env))
            && (r.Pass? ==>
                  && memory' == Apply(platform, memory, op).value.(revision := memory.revision + 1)
                  && disk' == Some(memory'))
            && (r.Fail? ==> memory' == memory)
            && (r.Fail? && disk' != disk ==>
                  && CanChange(platform, disk, memory, op, env.(write := Replaced)) && env.write == ReplacedThenFailed
                  && r == Fail(Io)
                  && disk' == Some(Apply(platform, memory, op).value.(revision := memory.revision + 1)))
  {
    hide ValidateLoaded, Verdict, After;
    if Apply(platform, memory, op).Success? {
      ResultsAreLoadable(platform, memory, op);
    }
    hide Apply;
  }

  /** Why an accepted transition is not persisted: each error names its own cause, and nothing else does. */
  lemma ChangeErrorsNameTheirCause(platform: Platform, disk: Option<Journal>, memory: Journal, op: Op, env: Env)
    requires Loadable(memory)
    ensures var r := ChangeIn(platform, disk, memory, op, env).0;
            && (Apply(platform, memory, op).Failure? ==> r == Fail(Apply(platform, memory, op).error))
            && (r == Fail(ConcurrentWriter) <==> Apply(platform, memory, op).Success? && !env.lockFree)
            && (forall expected, actual ::
                  r == Fail(StaleWriter(expected, actual)) <==>
                    && Apply(platform, memory, op).Success? && env.lockFree
                    && disk.Some? && Loads(disk, env, disk.value)
                    && expected == memory.revision && actual == disk.value.revision && expected != actual)
  {
    hide Verdict, After;
    TransitionErrors(platform, memory, op);
    if disk.Some? {
      ValidationErrors(disk.value);
    }
    if Apply(platform, memory, op).Success? {
      ResultsAreLoadable(platform, memory, op);
    }
    hide Apply, ValidateLoaded;
  }

  /** Against a file that loads at the handle's own revision, the store refuses a free lock's holder only at the cap. */
  lemma OnlyTheCapRefuses(platform: Platform, disk: Option<Journal>, memory: Journal, op: Op, env: Env)
    requires Loadable(memory) && Apply(platform, memory, op).Success? && env.lockFree
    requires disk.Some? && Loads(disk, env, disk.value) && disk.value.revision == memory.revision
    ensures var r := ChangeIn(platform, disk, memory, op, env).0;
            && (r == Fail(InvalidFact) <==> memory.revision >= 0xFFFF_FFFF_FFFF_FFFF)
            && (r == Fail(Io) <==> memory.revision < 0xFFFF_FFFF_FFFF_FFFF && env.write != Replaced)
  {
    hide ValidateLoaded, Verdict, After;
    ResultsAreLoadable(platform, memory, op);
    hide Apply;
  }

  /** Creating succeeds exactly with a free lock, no file, a loadable journal and a write that ends well. */
  lemma CreateSucceedsExactlyWhen(disk: Option<Journal>, j: Journal, env: Env)
    ensures var (r, disk') := CreateIn(disk, j, env);
            && (r.Pass? <==> env.lockFree && disk.None? && Loadable(j) && env.write == Replaced)
            && (r.Pass? ==> disk' == Some(j))
            && (r == Fail(ConcurrentWriter) <==> !env.lockFree)
            && (r == Fail(JournalAlreadyExists) <==> env.lockFree && disk.Some?)
            && (r == Fail(Io) <==> env.lockFree && disk.None? && Loadable(j) && env.write != Replaced)
            && (disk' != disk ==> env.lockFree && disk.None? && Loadable(j) && env.write != NotReplaced && disk' == Some(j))
  {
    ValidationErrors(j);
    hide ValidateLoaded;
  }
}
