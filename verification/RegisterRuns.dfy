/**
 What holds of a register's log after any sequence of calls, accepted or refused, even when the
 registry tables change between calls.
 */
module RegisterRuns {
  import opened Basics
  import opened CoreRegisters
  import Text

  datatype Call =
    | SubmitCall(change: Request, actor: Actor, timestamp: nat)
    | TransitionCall(id: nat, state: State, actor: Actor, timestamp: nat)

  function Perform(registry: Registry, log: Log, call: Call): Result<Log, Error> {
    match call
    case SubmitCall(change, actor, timestamp) => Submitted(registry, log, change, actor, timestamp)
    case TransitionCall(id, state, actor, timestamp) => Transitioned(registry, log, id, state, actor, timestamp)
  }

  /** A refused call leaves the log as it was. */
  function Next(registry: Registry, log: Log, call: Call): Log {
    match Perform(registry, log, call)
    case Success(log') => log'
    case Failure(_) => log
  }

  datatype Run = Run(logs: seq<Log>, registries: seq<Registry>, calls: seq<Call>) {
    ghost predicate Valid() {
      && |logs| == |calls| + 1 && |registries| == |calls|
      && logs[0] == EMPTY
      && forall i {:trigger calls[i]} | 0 <= i < |calls| :: logs[i + 1] == Next(registries[i], logs[i], calls[i])
    }
  }

  // ---- How an accepted call grows the log ----

  predicate Moves(state: State) {
    state == Applied || state == RolledBack
  }

  /** The payload a request keeps in all its entries. */
  predicate SamePayload(a: JournalEntry, b: JournalEntry) {
    a.change == b.change && a.rollback == b.rollback && a.riskClass == b.riskClass && a.schemaVersion == b.schemaVersion
  }

  /** One entry is appended, and cached for its request: either a new one, or one whose turn it is. */
  ghost predicate Grows(log: Log, entry: JournalEntry, log': Log) {
    var id, key := entry.requestId, KeyOf(entry.change);
    && entry.id == |log.journal| + 1
    && entry.rollback.value == entry.change.old_
    && log'.journal == log.journal + [entry]
    && log'.revisions == (if Moves(entry.state) then log.revisions[key := Revision(log, key) + 1] else log.revisions)
    && if id < |log.requests| then
         && log'.requests == log.requests[id := entry]
         && SamePayload(entry, log.requests[id])
         && !SomeEarlierIsOpen(log, id)
         && Legal(log.requests[id].state, entry.state)
         && (entry.state == Applied ==> entry.change.expectedRevision == Revision(log, key))
       else
         id == |log.requests| && entry.state == Requested && log'.requests == log.requests + [entry]
  }

  lemma CallsGrowTheLog(registry: Registry, log: Log, call: Call) returns (entry: JournalEntry)
    requires Numbered(log) && Perform(registry, log, call).Success?
    ensures Grows(log, entry, Perform(registry, log, call).value)
    ensures if call.SubmitCall? then entry.requestId == |log.requests|
            else entry.requestId == call.id < |log.requests| && entry.state == call.state
  {
    hide FindSetting, MaySelfApply, LevelOf;
    var journal := Perform(registry, log, call).value.journal;
    entry := journal[|journal| - 1];
  }

  // ---- The invariant ----

  /** Ids count from one, and every entry repeats the payload of the request it belongs to. */
  ghost predicate Numbered(log: Log) {
    && (forall i | 0 <= i < |log.requests| ::
          log.requests[i].requestId == i && log.requests[i].rollback.value == log.requests[i].change.old_)
    && (forall n | 0 <= n < |log.journal| ::
          && log.journal[n].id == n + 1
          && log.journal[n].requestId < |log.requests|
          && SamePayload(log.journal[n], log.requests[log.journal[n].requestId]))
  }

  /** A cached request is the last journal entry written for it. */
  ghost predicate CachesLastEntry(log: Log, i: nat)
    requires i < |log.requests|
  {
    && 1 <= log.requests[i].id <= |log.journal|
    && log.journal[log.requests[i].id - 1] == log.requests[i]
    && forall n | log.requests[i].id <= n < |log.journal| :: log.journal[n].requestId != i
  }

  ghost predicate CachesLastEntries(log: Log) {
    forall i | 0 <= i < |log.requests| :: CachesLastEntry(log, i)
  }

  /** How often `key` changed: its `Applied` and `RolledBack` entries. */
  ghost function Changes(journal: seq<JournalEntry>, key: Key): nat {
    if journal == [] then 0
    else
      var last := journal[|journal| - 1];
      Changes(journal[..|journal| - 1], key) + if KeyOf(last.change) == key && Moves(last.state) then 1 else 0
  }

  ghost predicate CountsChanges(log: Log) {
    forall key: Key ::
      Revision(log, key) == Changes(log.journal, key) && (key in log.revisions ==> log.revisions[key] > 0)
  }

  /** First come, first served per key: a request leaves `Requested` only after all earlier ones have ended. */
  ghost predicate InOrder(log: Log) {
    forall i, j | 0 <= i < j < |log.requests| && KeyOf(log.requests[i].change) == KeyOf(log.requests[j].change) ::
      log.requests[j].state != Requested ==> log.requests[i].state.Terminal()
  }

  function StateRank(state: State): nat {
    match state
    case Requested => 0
    case Checked => 1
    case Applied => 2
    case _ => 3
  }

  /** The entries of one request only move forward, up to its cached state. */
  ghost predicate EntriesRise(log: Log) {
    && (forall m, n | 0 <= m < n < |log.journal| && log.journal[m].requestId == log.journal[n].requestId ::
          StateRank(log.journal[m].state) < StateRank(log.journal[n].state))
    && (forall n | 0 <= n < |log.journal| && log.journal[n].requestId < |log.requests| ::
          StateRank(log.journal[n].state) <= StateRank(log.requests[log.journal[n].requestId].state))
  }

  /** Every `Applied` entry named the revision its key had at that point of the journal. */
  ghost predicate AppliedAtTheirRevision(log: Log) {
    forall n | 0 <= n < |log.journal| && log.journal[n].state == Applied ::
      log.journal[n].change.expectedRevision == Changes(log.journal[..n], KeyOf(log.journal[n].change))
  }

  ghost predicate EndedBefore(journal: seq<JournalEntry>, n: nat, id: nat)
    requires n <= |journal|
  {
    exists p | 0 <= p < n :: journal[p].requestId == id && journal[p].state.Terminal()
  }

  /** An entry past `Requested` comes only after every earlier request of its key has a terminal entry. */
  ghost predicate TakesItsTurn(log: Log, n: nat)
    requires n < |log.journal|
  {
    log.journal[n].state != Requested ==>
      forall id | 0 <= id < log.journal[n].requestId && id < |log.requests|
                  && KeyOf(log.requests[id].change) == KeyOf(log.journal[n].change) ::
        EndedBefore(log.journal, n, id)
  }

  ghost predicate TakesTurns(log: Log) {
    forall n | 0 <= n < |log.journal| :: TakesItsTurn(log, n)
  }

  function RankSum(requests: seq<JournalEntry>): nat {
    if requests == [] then 0
    else RankSum(requests[..|requests| - 1]) + StateRank(requests[|requests| - 1].state) + 1
  }

  ghost predicate Sound(log: Log) {
    && Numbered(log) && CachesLastEntries(log) && CountsChanges(log)
    && InOrder(log) && TakesTurns(log) && EntriesRise(log) && AppliedAtTheirRevision(log)
    && |log.journal| <= RankSum(log.requests)
  }

  lemma ChangesOfAppend(journal: seq<JournalEntry>, entry: JournalEntry, key: Key)
    ensures Changes(journal + [entry], key) ==
            Changes(journal, key) + if KeyOf(entry.change) == key && Moves(entry.state) then 1 else 0
  {
    assert (journal + [entry])[..|journal|] == journal;
  }

  lemma GrowthKeepsNumbering(log: Log, entry: JournalEntry, log': Log)
    requires Numbered(log) && Grows(log, entry, log')
    ensures Numbered(log')
  {}

  lemma GrowthKeepsCaches(log: Log, entry: JournalEntry, log': Log)
    requires Numbered(log) && CachesLastEntries(log) && Grows(log, entry, log')
    ensures CachesLastEntries(log')
  {
    forall i | 0 <= i < |log'.requests| ensures CachesLastEntry(log', i) {
      if i == entry.requestId {
        assert log'.requests[i] == entry;
      } else {
        assert log'.requests[i] == log.requests[i] && CachesLastEntry(log, i);
      }
    }
  }

  lemma GrowthKeepsOrder(log: Log, entry: JournalEntry, log': Log)
    requires Numbered(log) && InOrder(log) && Grows(log, entry, log')
    ensures InOrder(log')
  {}

  lemma EndingsStay(journal: seq<JournalEntry>, entry: JournalEntry, n: nat, id: nat)
    requires n <= |journal| && EndedBefore(journal, n, id)
    ensures EndedBefore(journal + [entry], n, id)
  {
    var p :| 0 <= p < n && journal[p].requestId == id && journal[p].state.Terminal();
    assert (journal + [entry])[p] == journal[p];
  }

  lemma GrowthTakesTurns(log: Log, entry: JournalEntry, log': Log)
    requires Numbered(log) && CachesLastEntries(log) && Grows(log, entry, log')
    ensures TakesItsTurn(log', |log.journal|)
  {
    var n := |log.journal|;
    forall id | 0 <= id < entry.requestId && id < |log'.requests| && entry.state != Requested
                && KeyOf(log'.requests[id].change) == KeyOf(entry.change)
      ensures EndedBefore(log'.journal, n, id)
    {
      assert log'.requests[id] == log.requests[id] && CachesLastEntry(log, id);
      assert log.requests[id].state.Terminal();
      var p := log.requests[id].id - 1;
      assert log'.journal[p] == log.requests[id];
    }
  }

  lemma GrowthKeepsTurns(log: Log, entry: JournalEntry, log': Log)
    requires Numbered(log) && CachesLastEntries(log) && TakesTurns(log) && Grows(log, entry, log')
    ensures TakesTurns(log')
  {
    GrowthTakesTurns(log, entry, log');
    hide CachesLastEntries, EndedBefore;
    forall n | 0 <= n < |log.journal| ensures TakesItsTurn(log', n) {
      assert TakesItsTurn(log, n) && log'.journal[n] == log.journal[n];
      forall id | 0 <= id < log.journal[n].requestId && id < |log'.requests| && log.journal[n].state != Requested
                  && KeyOf(log'.requests[id].change) == KeyOf(log.journal[n].change)
        ensures EndedBefore(log'.journal, n, id)
      {
        EndingsStay(log.journal, entry, n, id);
      }
    }
  }

  lemma {:induction false} RankSumOfUpdate(requests: seq<JournalEntry>, id: nat, entry: JournalEntry)
    requires id < |requests|
    ensures RankSum(requests[id := entry]) ==
            RankSum(requests) - StateRank(requests[id].state) + StateRank(entry.state)
  {
    var last := |requests| - 1;
    if id == last {
      assert requests[id := entry][..last] == requests[..last];
    } else {
      assert requests[id := entry][..last] == requests[..last][id := entry];
      RankSumOfUpdate(requests[..last], id, entry);
    }
  }

  lemma GrowthKeepsTheBound(log: Log, entry: JournalEntry, log': Log)
    requires |log.journal| <= RankSum(log.requests) && Grows(log, entry, log')
    ensures |log'.journal| <= RankSum(log'.requests)
  {
    if entry.requestId < |log.requests| {
      RankSumOfUpdate(log.requests, entry.requestId, entry);
    } else {
      assert log'.requests[..|log.requests|] == log.requests;
    }
  }

  lemma GrowthKeepsRising(log: Log, entry: JournalEntry, log': Log)
    requires Numbered(log) && EntriesRise(log) && Grows(log, entry, log')
    ensures EntriesRise(log')
  {
    hide StateRank, KeyOf, Revision, SomeEarlierIsOpen;
    RanksRise(log, entry, log');
    var size := |log.journal|;
    forall m, n | 0 <= m < n < |log'.journal| && log'.journal[m].requestId == log'.journal[n].requestId
      ensures StateRank(log'.journal[m].state) < StateRank(log'.journal[n].state)
    {
      assert m < size && log'.journal[m] == log.journal[m];
    }
  }

  /** A request's next state ranks above its last. */
  lemma RanksRise(log: Log, entry: JournalEntry, log': Log)
    requires Numbered(log) && Grows(log, entry, log')
    ensures entry.requestId < |log.requests| ==>
              StateRank(log.requests[entry.requestId].state) < StateRank(entry.state)
  {}

  lemma GrowthKeepsCounts(log: Log, entry: JournalEntry, log': Log)
    requires CountsChanges(log) && Grows(log, entry, log')
    ensures CountsChanges(log')
  {
    forall key: Key
      ensures Revision(log', key) == Changes(log'.journal, key)
      ensures key in log'.revisions ==> log'.revisions[key] > 0
    {
      ChangesOfAppend(log.journal, entry, key);
    }
  }

  lemma GrowthKeepsRevisions(log: Log, entry: JournalEntry, log': Log)
    requires CountsChanges(log) && AppliedAtTheirRevision(log) && Grows(log, entry, log')
    ensures AppliedAtTheirRevision(log')
  {
    forall n | 0 <= n < |log'.journal| && log'.journal[n].state == Applied
      ensures log'.journal[n].change.expectedRevision == Changes(log'.journal[..n], KeyOf(log'.journal[n].change))
    {
      assert log'.journal[..n] == log.journal[..n];
      assert log.journal[..|log.journal|] == log.journal;
    }
  }

  lemma CallsKeepSound(registry: Registry, log: Log, call: Call)
    requires Sound(log)
    ensures Sound(Next(registry, log, call))
  {
    if Perform(registry, log, call).Success? {
      var entry := CallsGrowTheLog(registry, log, call);
      hide Perform, Grows, Numbered, CachesLastEntries, CountsChanges, InOrder, TakesTurns, EntriesRise,
           AppliedAtTheirRevision;
      var log' := Next(registry, log, call);
      GrowthKeepsNumbering(log, entry, log');
      GrowthKeepsCaches(log, entry, log');
      GrowthKeepsOrder(log, entry, log');
      GrowthKeepsTurns(log, entry, log');
      GrowthKeepsTheBound(log, entry, log');
      GrowthKeepsRising(log, entry, log');
      GrowthKeepsCounts(log, entry, log');
      GrowthKeepsRevisions(log, entry, log');
    }
  }

  lemma EmptyIsSound()
    ensures Sound(EMPTY)
  {
    NothingIsSound(EMPTY);
  }

  lemma NothingIsSound(log: Log)
    requires log.journal == [] && log.requests == [] && log.revisions == map[]
    ensures Sound(log)
  {
    hide KeyOf, StateRank, Revision, SamePayload, TakesItsTurn, CachesLastEntry;
    NothingCounts(log);
  }

  lemma NothingCounts(log: Log)
    requires log.journal == [] && log.revisions == map[]
    ensures CountsChanges(log)
  {
    forall key: Key ensures Revision(log, key) == Changes(log.journal, key) {
      assert key !in log.revisions;
    }
  }

  lemma {:induction false} RunsStaySound(run: Run, k: nat)
    requires run.Valid() && k < |run.logs|
    ensures Sound(run.logs[k])
  {
    hide Sound, Next;
    if k == 0 {
      EmptyIsSound();
    } else {
      RunsStaySound(run, k - 1);
      CallsKeepSound(run.registries[k - 1], run.logs[k - 1], run.calls[k - 1]);
    }
  }

  // ---- The caches refine the log ----

  lemma {:induction false} RankSumIsBounded(requests: seq<JournalEntry>)
    ensures RankSum(requests) <= 4 * |requests|
  {
    if requests != [] {
      RankSumIsBounded(requests[..|requests| - 1]);
    }
  }

  /**
   After any run the cached requests are the last entries written for them, the revisions count the
   `Applied` and `RolledBack` entries, ids are 1 to n, payloads never differ, and there are at most four
   entries per request.
   */
  lemma CachesRefineTheLog(run: Run, k: nat)
    requires run.Valid() && k < |run.logs|
    ensures Numbered(run.logs[k]) && CachesLastEntries(run.logs[k]) && CountsChanges(run.logs[k])
    ensures |run.logs[k].journal| <= 4 * |run.logs[k].requests|
  {
    hide Numbered, CachesLastEntries, CountsChanges, InOrder, TakesTurns, EntriesRise, AppliedAtTheirRevision;
    RunsStaySound(run, k);
    SoundLogsAreBounded(run.logs[k]);
  }

  /** The journal is only extended; a request keeps its place and payload and never moves back. */
  ghost predicate Extends(log: Log, log': Log) {
    && log.journal <= log'.journal
    && |log.requests| <= |log'.requests|
    && forall r | 0 <= r < |log.requests| ::
         && SamePayload(log'.requests[r], log.requests[r])
         && StateRank(log.requests[r].state) <= StateRank(log'.requests[r].state)
  }

  lemma CallsExtend(registry: Registry, log: Log, call: Call)
    requires Numbered(log)
    ensures Extends(log, Next(registry, log, call))
  {
    if Perform(registry, log, call).Success? {
      var entry := CallsGrowTheLog(registry, log, call);
      GrowthExtends(log, entry, Next(registry, log, call));
    }
  }

  lemma GrowthExtends(log: Log, entry: JournalEntry, log': Log)
    requires Numbered(log) && Grows(log, entry, log')
    ensures Extends(log, log')
  {}

  lemma {:induction false} JournalsOnlyExtend(run: Run, i: nat, k: nat)
    requires run.Valid() && i <= k < |run.logs|
    ensures Extends(run.logs[i], run.logs[k])
    decreases k
  {
    if i < k {
      hide Next, Sound;
      JournalsOnlyExtend(run, i, k - 1);
      RunsAreNumbered(run, k - 1);
      CallsExtend(run.registries[k - 1], run.logs[k - 1], run.calls[k - 1]);
    }
  }

  lemma RunsAreNumbered(run: Run, k: nat)
    requires run.Valid() && k < |run.logs|
    ensures Numbered(run.logs[k])
  {
    hide Numbered, Next;
    RunsStaySound(run, k);
  }

  // ---- First come, first served per key ----

  /** At most one request of a key is `Checked` or `Applied`. */
  lemma AtMostOneInProgress(run: Run, k: nat, i: nat, j: nat)
    requires run.Valid() && k < |run.logs| && i < j < |run.logs[k].requests|
    requires KeyOf(run.logs[k].requests[i].change) == KeyOf(run.logs[k].requests[j].change)
    ensures run.logs[k].requests[j].state != Requested ==> run.logs[k].requests[i].state.Terminal()
    ensures !((run.logs[k].requests[i].state == Checked || run.logs[k].requests[i].state == Applied)
              && (run.logs[k].requests[j].state == Checked || run.logs[k].requests[j].state == Applied))
  {
    RunsStaySound(run, k);
  }

  lemma {:induction false} ChangesGrow(journal: seq<JournalEntry>, m: nat, n: nat, key: Key)
    requires m <= n <= |journal|
    ensures Changes(journal[..m], key) <= Changes(journal[..n], key)
  {
    if m < n {
      assert journal[..n][..n - 1] == journal[..n - 1];
      ChangesGrow(journal, m, n - 1, key);
    }
  }

  lemma AppliedFollowSubmissions(log: Log, m: nat, n: nat)
    requires Numbered(log) && TakesTurns(log) && EntriesRise(log) && m < n < |log.journal|
    requires log.journal[m].state == Applied && log.journal[n].state == Applied
    requires KeyOf(log.journal[m].change) == KeyOf(log.journal[n].change)
    ensures log.journal[m].requestId < log.journal[n].requestId
  {
    var first, second := log.journal[m], log.journal[n];
    assert TakesItsTurn(log, m);
    assert second.requestId < first.requestId ==> EndedBefore(log.journal, m, second.requestId);
  }

  lemma AppliedRevisionsRise(log: Log, m: nat, n: nat)
    requires AppliedAtTheirRevision(log) && m < n < |log.journal|
    requires log.journal[m].state == Applied && log.journal[n].state == Applied
    requires KeyOf(log.journal[m].change) == KeyOf(log.journal[n].change)
    ensures log.journal[m].change.expectedRevision < log.journal[n].change.expectedRevision
  {
    var first := log.journal[m];
    assert log.journal[..m + 1] == log.journal[..m] + [first];
    ChangesOfAppend(log.journal[..m], first, KeyOf(first.change));
    ChangesGrow(log.journal, m + 1, n, KeyOf(first.change));
  }

  /** `Applied` entries of a key follow submission order, and name strictly increasing revisions. */
  lemma AppliedInSubmissionOrder(run: Run, k: nat, m: nat, n: nat)
    requires run.Valid() && k < |run.logs| && m < n < |run.logs[k].journal|
    requires run.logs[k].journal[m].state == Applied && run.logs[k].journal[n].state == Applied
    requires KeyOf(run.logs[k].journal[m].change) == KeyOf(run.logs[k].journal[n].change)
    ensures run.logs[k].journal[m].requestId < run.logs[k].journal[n].requestId
    ensures run.logs[k].journal[m].change.expectedRevision < run.logs[k].journal[n].change.expectedRevision
  {
    hide Numbered, TakesTurns, EntriesRise, AppliedAtTheirRevision, CachesLastEntries, CountsChanges, InOrder;
    RunsStaySound(run, k);
    AppliedFollowSubmissions(run.logs[k], m, n);
    AppliedRevisionsRise(run.logs[k], m, n);
  }

  // ---- Rollback ----

  /** The value of `key` as the log tells it: set by `Applied`, set back by `RolledBack`. */
  ghost function ValueOf(journal: seq<JournalEntry>, key: Key, initial: Value): Value {
    if journal == [] then initial
    else
      var last := journal[|journal| - 1];
      if KeyOf(last.change) == key && last.state == Applied then last.change.new_
      else if KeyOf(last.change) == key && last.state == RolledBack then last.rollback.value
      else ValueOf(journal[..|journal| - 1], key, initial)
  }

  lemma ValueOfAppend(journal: seq<JournalEntry>, entry: JournalEntry, key: Key, initial: Value)
    ensures ValueOf(journal + [entry], key, initial) ==
            if KeyOf(entry.change) == key && entry.state == Applied then entry.change.new_
            else if KeyOf(entry.change) == key && entry.state == RolledBack then entry.rollback.value
            else ValueOf(journal, key, initial)
  {
    assert (journal + [entry])[..|journal|] == journal;
  }

  /** While a request is `Applied`, no other one of its key can be applied or rolled back. */
  lemma AppliedBlocksItsKey(log: Log, entry: JournalEntry, log': Log, id: nat)
    requires Numbered(log) && InOrder(log) && Grows(log, entry, log')
    requires id < |log.requests| && log.requests[id].state == Applied && log'.requests[id].state == Applied
    ensures Moves(entry.state) ==> KeyOf(entry.change) != KeyOf(log.requests[id].change)
  {}

  /** What the key of a request looks like: its value, and how often it changed. */
  ghost predicate SameKeyState(log: Log, log': Log, key: Key, initial: Value) {
    && ValueOf(log'.journal, key, initial) == ValueOf(log.journal, key, initial)
    && Revision(log', key) == Revision(log, key)
  }

  lemma AppliedKeepsTheKey(registry: Registry, log: Log, call: Call, id: nat, initial: Value)
    requires Sound(log) && id < |log.requests| && log.requests[id].state == Applied
    requires Extends(log, Next(registry, log, call)) && Next(registry, log, call).requests[id].state == Applied
    ensures SameKeyState(log, Next(registry, log, call), KeyOf(log.requests[id].change), initial)
  {
    if Perform(registry, log, call).Success? {
      var entry := CallsGrowTheLog(registry, log, call);
      hide Perform, Numbered, InOrder, CachesLastEntries, CountsChanges, TakesTurns, EntriesRise, ValueOf,
           AppliedAtTheirRevision, SomeEarlierIsOpen;
      AppliedBlocksItsKey(log, entry, Next(registry, log, call), id);
      ValueOfAppend(log.journal, entry, KeyOf(log.requests[id].change), initial);
    }
  }

  lemma AppliedInBetween(a: Log, b: Log, c: Log, id: nat)
    requires Extends(a, b) && Extends(b, c) && id < |a.requests|
    requires a.requests[id].state == Applied && c.requests[id].state == Applied
    ensures id < |b.requests| && b.requests[id].state == Applied
    ensures KeyOf(b.requests[id].change) == KeyOf(a.requests[id].change)
  {
    assert SamePayload(b.requests[id], a.requests[id]);
  }

  lemma {:induction false} AppliedKeepsTheKeyThroughout(run: Run, i: nat, k: nat, id: nat, initial: Value)
    requires run.Valid() && i <= k < |run.logs| && id < |run.logs[i].requests|
    requires run.logs[i].requests[id].state == Applied
    requires Extends(run.logs[i], run.logs[k]) && run.logs[k].requests[id].state == Applied
    ensures SameKeyState(run.logs[i], run.logs[k], KeyOf(run.logs[i].requests[id].change), initial)
    decreases k
  {
    if i < k {
      hide Sound, Next, ValueOf, Revision, Extends;
      JournalsOnlyExtend(run, i, k - 1);
      JournalsOnlyExtend(run, k - 1, k);
      AppliedInBetween(run.logs[i], run.logs[k - 1], run.logs[k], id);
      AppliedKeepsTheKeyThroughout(run, i, k - 1, id, initial);
      RunsStaySound(run, k - 1);
      AppliedKeepsTheKey(run.registries[k - 1], run.logs[k - 1], run.calls[k - 1], id, initial);
    }
  }

  ghost predicate Accepts(run: Run, i: nat, id: nat, state: State)
    requires run.Valid()
  {
    && i < |run.calls| && run.calls[i].TransitionCall? && run.calls[i].id == id && run.calls[i].state == state
    && Perform(run.registries[i], run.logs[i], run.calls[i]).Success?
  }

  /** What one accepted `Applied` or `RolledBack` does to the key of its request. */
  lemma AcceptedMoveSetsTheKey(run: Run, i: nat, id: nat, state: State, initial: Value)
    requires run.Valid() && Accepts(run, i, id, state) && Moves(state)
    ensures id < |run.logs[i].requests| && Extends(run.logs[i], run.logs[i + 1])
    ensures run.logs[i].requests[id].state == (if state == Applied then Checked else Applied)
    ensures run.logs[i + 1].requests[id].state == state
    ensures var change := run.logs[i].requests[id].change;
            && ValueOf(run.logs[i + 1].journal, KeyOf(change), initial) ==
               (if state == Applied then change.new_ else change.old_)
            && Revision(run.logs[i + 1], KeyOf(change)) == Revision(run.logs[i], KeyOf(change)) + 1
  {
    RunsAreNumbered(run, i);
    CallsExtend(run.registries[i], run.logs[i], run.calls[i]);
    var entry := CallsGrowTheLog(run.registries[i], run.logs[i], run.calls[i]);
    hide Perform, ValueOf, Extends, SomeEarlierIsOpen, Numbered;
    ValueOfAppend(run.logs[i].journal, entry, KeyOf(entry.change), initial);
  }

  /**
   Apply a request, then anything at all, then roll it back: in between the key keeps the new value and one
   revision, and afterwards it has its value from before the apply, exactly if the request named that value
   as the old one.
   */
  lemma RollbackRestores(run: Run, i: nat, j: nat, id: nat, initial: Value)
    requires run.Valid() && i < j && Accepts(run, i, id, Applied) && Accepts(run, j, id, RolledBack)
    requires id < |run.logs[i].requests|
    ensures var change := run.logs[i].requests[id].change;
            var key := KeyOf(change);
            var before := ValueOf(run.logs[i].journal, key, initial);
            && (forall m | i < m <= j ::
                  && ValueOf(run.logs[m].journal, key, initial) == change.new_
                  && Revision(run.logs[m], key) == Revision(run.logs[i], key) + 1)
            && (ValueOf(run.logs[j + 1].journal, key, initial) == before <==> change.old_ == before)
  {
    hide Next, Perform, ValueOf, Revision;
    var key := KeyOf(run.logs[i].requests[id].change);
    AcceptedMoveSetsTheKey(run, i, id, Applied, initial);
    AcceptedMoveSetsTheKey(run, j, id, RolledBack, initial);
    JournalsOnlyExtend(run, i + 1, j);
    forall m | i < m <= j
      ensures SameKeyState(run.logs[i + 1], run.logs[m], key, initial)
    {
      JournalsOnlyExtend(run, i + 1, m);
      JournalsOnlyExtend(run, m, j);
      AppliedKeepsTheKeyThroughout(run, i + 1, m, id, initial);
    }
    assert forall m | i < m <= j :: SameKeyState(run.logs[i + 1], run.logs[m], key, initial);
  }

  /** A text that begins and ends with something else than whitespace. */
  predicate IsPlain(s: string) {
    s != "" && Text.IsTrimmed(s)
  }

  lemma PlainTextIsNotBlank(s: string)
    requires IsPlain(s)
    ensures !Text.IsBlank(s)
  {
    Text.TrimYieldsTrimmed(s);
  }

  lemma TheOnlySettingIsFound(setting: Setting)
    requires setting.owner.Some?
    requires IsPlain(setting.key) && IsPlain(setting.scope) && IsPlain(setting.area) && IsPlain(setting.effectSite)
    ensures FindSetting(Registry([setting], [], []), setting.scope, setting.key) == Success(setting)
  {
    hide Text.IsBlank, IsPlain;
    PlainTextIsNotBlank(setting.key);
    PlainTextIsNotBlank(setting.scope);
    PlainTextIsNotBlank(setting.area);
    PlainTextIsNotBlank(setting.effectSite);
    var keep := (s: Setting) => s.key == setting.key && s.scope == setting.scope;
    assert [setting][..0] == [];
    assert Filter(keep, []) == [];
    assert Filter(keep, [setting]) == [setting];
  }

  /** The user moves the only request on. */
  lemma UserMovesTheOnlyRequest(registry: Registry, log: Log, user: Actor, state: State, entry: JournalEntry)
    requires |log.requests| == 1 && entry == log.requests[0].(id := |log.journal| + 1, actor := user, timestamp := 0, state := state)
    requires FindSetting(registry, entry.change.scope, entry.change.key).Success?
    requires FindSetting(registry, entry.change.scope, entry.change.key).value.owner == user.authority == Some(User)
    requires Legal(log.requests[0].state, state) && Revision(log, KeyOf(entry.change)) < 9
    requires state == Applied ==> entry.change.expectedRevision == Revision(log, KeyOf(entry.change))
    ensures var key := KeyOf(entry.change);
            Perform(registry, log, TransitionCall(0, state, user, 0)) ==
            Success(Log([entry], log.journal + [entry],
                        if Moves(state) then log.revisions[key := Revision(log, key) + 1] else log.revisions))
  {
    hide FindSetting, MaySelfApply, Revision;
    assert log.requests[0 := entry] == [entry];
  }

  lemma TheFirstRequestIsLogged(registry: Registry, setting: Setting, change: Request, user: Actor, entry: JournalEntry)
    requires FindSetting(registry, change.scope, change.key) == Success(setting) && user.authority == Some(User)
    requires IsPlain(change.scope) && IsPlain(change.key) && IsPlain(change.reason) && IsPlain(change.evidence)
    requires entry == JournalEntry(1, 0, change, setting.riskClass, Rollback(setting.effectSite, change.old_), user, 0, Requested, 1)
    ensures Perform(registry, EMPTY, SubmitCall(change, user, 0)) == Success(Log([entry], [entry], map[]))
  {
    hide FindSetting, LevelOf, Text.IsBlank, IsPlain;
    PlainTextIsNotBlank(change.scope);
    PlainTextIsNotBlank(change.key);
    PlainTextIsNotBlank(change.reason);
    PlainTextIsNotBlank(change.evidence);
    assert EMPTY.journal + [entry] == [entry];
  }

  const CYCLE: seq<State> := [Requested, Checked, Applied, RolledBack]

  /** The entry of the `n`-th call of a request that is applied and rolled back. */
  function CycleEntry(first: JournalEntry, n: nat): JournalEntry
    requires n < 4
  {
    first.(id := n + 1, state := CYCLE[n])
  }

  /** The log after `n` such calls. */
  function CycleLog(first: JournalEntry, n: nat): Log
    requires n <= 4
  {
    if n == 0 then EMPTY
    else
      var entry, before := CycleEntry(first, n - 1), CycleLog(first, n - 1);
      var key := KeyOf(first.change);
      Log([entry], before.journal + [entry],
          if Moves(entry.state) then before.revisions[key := Revision(before, key) + 1] else before.revisions)
  }

  lemma CycleSteps(registry: Registry, first: JournalEntry, n: nat)
    requires 1 <= n < 4 && first.timestamp == 0 && first.change.expectedRevision == 0
    requires first.actor.authority == Some(User)
    requires FindSetting(registry, first.change.scope, first.change.key).Success?
    requires FindSetting(registry, first.change.scope, first.change.key).value.owner == Some(User)
    ensures Perform(registry, CycleLog(first, n), TransitionCall(0, CYCLE[n], first.actor, 0)) == Success(CycleLog(first, n + 1))
  {
    hide FindSetting, KeyOf, Perform;
    CycleShape(first, n);
    UserMovesTheOnlyRequest(registry, CycleLog(first, n), first.actor, CYCLE[n], CycleEntry(first, n));
  }

  lemma {:induction false} CycleShape(first: JournalEntry, n: nat)
    requires 1 <= n <= 4
    ensures |CycleLog(first, n).journal| == n && CycleLog(first, n).requests == [CycleEntry(first, n - 1)]
    ensures Revision(CycleLog(first, n), KeyOf(first.change)) == if n <= 2 then 0 else n - 2
  {
    hide KeyOf;
    if n > 1 {
      CycleShape(first, n - 1);
    }
  }

  /** The user may take any first request through an apply and a rollback: the key then holds the old value it named. */
  lemma ApplyAndRollBack(registry: Registry, setting: Setting, change: Request, user: Actor, initial: Value)
    returns (run: Run)
    requires FindSetting(registry, change.scope, change.key) == Success(setting)
    requires setting.owner == user.authority == Some(User) && change.expectedRevision == 0
    requires IsPlain(change.scope) && IsPlain(change.key) && IsPlain(change.reason) && IsPlain(change.evidence)
    ensures run.Valid() && Accepts(run, 2, 0, Applied) && Accepts(run, 3, 0, RolledBack)
    ensures |run.logs[2].requests| == 1 && run.logs[2].requests[0].change == change
    ensures ValueOf(run.logs[2].journal, KeyOf(change), initial) == initial
    ensures ValueOf(run.logs[3].journal, KeyOf(change), initial) == change.new_
    ensures ValueOf(run.logs[4].journal, KeyOf(change), initial) == change.old_
  {
    hide FindSetting, IsPlain, ValueOf, KeyOf, Perform, CycleLog, Accepts, Run.Valid;
    var first :=
      JournalEntry(1, 0, change, setting.riskClass, Rollback(setting.effectSite, change.old_), user, 0, Requested, 1);
    TheFirstRequestIsLogged(registry, setting, change, user, first);
    CycleStarts(first);
    CycleSteps(registry, first, 1);
    CycleSteps(registry, first, 2);
    CycleSteps(registry, first, 3);
    CycleShape(first, 2);
    run := FourCalls(registry, [EMPTY, CycleLog(first, 1), CycleLog(first, 2), CycleLog(first, 3), CycleLog(first, 4)],
                     [SubmitCall(change, user, 0), TransitionCall(0, Checked, user, 0),
                      TransitionCall(0, Applied, user, 0), TransitionCall(0, RolledBack, user, 0)]);
    ValueOfTheCycle(first, initial, 2);
    ValueOfTheCycle(first, initial, 3);
    ValueOfTheCycle(first, initial, 4);
  }

  lemma {:induction false} CycleStarts(first: JournalEntry)
    requires first.id == 1 && first.state == Requested
    ensures CycleLog(first, 1) == Log([first], [first], map[])
  {
    assert CycleLog(first, 0) == EMPTY;
    assert CycleEntry(first, 0) == first;
    assert [] + [first] == [first];
  }

  lemma FourCalls(registry: Registry, logs: seq<Log>, calls: seq<Call>) returns (run: Run)
    requires |logs| == 5 && |calls| == 4 && logs[0] == EMPTY
    requires Perform(registry, logs[0], calls[0]) == Success(logs[1])
    requires Perform(registry, logs[1], calls[1]) == Success(logs[2])
    requires Perform(registry, logs[2], calls[2]) == Success(logs[3])
    requires Perform(registry, logs[3], calls[3]) == Success(logs[4])
    ensures run.Valid() && run.logs == logs && run.calls == calls
    ensures forall i | 0 <= i < 4 :: run.registries[i] == registry
    ensures calls[2].TransitionCall? ==> Accepts(run, 2, calls[2].id, calls[2].state)
    ensures calls[3].TransitionCall? ==> Accepts(run, 3, calls[3].id, calls[3].state)
  {
    hide Perform;
    run := Run(logs, [registry, registry, registry, registry], calls);
    forall i {:trigger calls[i]} | 0 <= i < 4 ensures logs[i + 1] == Next(registry, logs[i], calls[i]) {
      assert i == 0 || i == 1 || i == 2 || i == 3;
    }
  }

  lemma {:induction false} ValueOfTheCycle(first: JournalEntry, initial: Value, n: nat)
    requires n <= 4 && first.rollback.value == first.change.old_
    ensures ValueOf(CycleLog(first, n).journal, KeyOf(first.change), initial) ==
            if n <= 2 then initial else if n == 3 then first.change.new_ else first.change.old_
  {
    hide ValueOf, KeyOf;
    var key := KeyOf(first.change);
    if n == 0 {
      NothingHappened(key, initial);
    } else {
      ValueOfTheCycle(first, initial, n - 1);
      ValueOfAppend(CycleLog(first, n - 1).journal, CycleEntry(first, n - 1), key, initial);
    }
  }

  lemma NothingHappened(key: Key, initial: Value)
    ensures ValueOf([], key, initial) == initial
  {}

  /** A request may name any old value: rolling this one back leaves a value the key never had. */
  lemma RollbackOfAWrongOldValue() returns (run: Run)
    ensures run.Valid() && Accepts(run, 2, 0, Applied) && Accepts(run, 3, 0, RolledBack)
    ensures |run.logs[2].requests| == 1 && KeyOf(run.logs[2].requests[0].change) == ("app", "theme")
    ensures ValueOf(run.logs[2].journal, ("app", "theme"), Null) == Null
    ensures ValueOf(run.logs[3].journal, ("app", "theme"), Null) == Bool(false)
    ensures ValueOf(run.logs[4].journal, ("app", "theme"), Null) == Bool(true)
  {
    hide Run.Valid, Accepts, ValueOf;
    var setting := Setting("theme", "app", Some(User), "ui", RiskClass.Ordinary, "view");
    TheOnlySettingIsFound(setting);
    hide FindSetting;
    run := ApplyAndRollBack(Registry([setting], [], []), setting,
                            Request("app", "theme", 0, Bool(true), Bool(false), "r", "e"), Actor("u", Some(User)), Null);
  }

  // ---- With a fixed registry ----

  ghost predicate FixedRegistry(run: Run, registry: Registry) {
    run.Valid() && forall i | 0 <= i < |run.registries| :: run.registries[i] == registry
  }

  /**
   Every logged request is registered; every entry past `Requested` was made by the setting's owner; and
   where that owner is the core or a rule, checking and applying was covered by policy and capability.
   */
  ghost predicate Authorized(registry: Registry, log: Log) {
    && (forall i | 0 <= i < |log.requests| ::
          FindSetting(registry, log.requests[i].change.scope, log.requests[i].change.key).Success?)
    && (forall n | 0 <= n < |log.journal| && log.journal[n].state != Requested ::
          EntryIsAuthorized(registry, log.journal[n]))
  }

  ghost predicate EntryIsAuthorized(registry: Registry, entry: JournalEntry) {
    var found := FindSetting(registry, entry.change.scope, entry.change.key);
    && found.Success?
    && entry.actor.authority.Some? && entry.actor.authority == found.value.owner
    && (ActsForItself(entry.actor) && (entry.state == Checked || entry.state == Applied) ==>
          MaySelfApply(registry, entry.change, found.value))
  }

  lemma CallsKeepAuthorized(registry: Registry, log: Log, call: Call)
    requires Sound(log) && Authorized(registry, log)
    ensures Authorized(registry, Next(registry, log, call))
  {
    hide FindSetting, MaySelfApply, LevelOf, SomeEarlierIsOpen;
  }

  lemma NothingIsAuthorized(registry: Registry, log: Log)
    requires log.requests == [] && log.journal == []
    ensures Authorized(registry, log)
  {
    hide FindSetting, EntryIsAuthorized;
  }

  lemma {:induction false} RunsStayAuthorized(run: Run, registry: Registry, k: nat)
    requires FixedRegistry(run, registry) && k < |run.logs|
    ensures Authorized(registry, run.logs[k])
  {
    hide Authorized, Next;
    if k == 0 {
      NothingIsAuthorized(registry, run.logs[0]);
    } else {
      RunsStayAuthorized(run, registry, k - 1);
      RunsStaySound(run, k - 1);
      CallsKeepAuthorized(registry, run.logs[k - 1], run.calls[k - 1]);
    }
  }

  /** A setting outside the ordinary risk class is only ever checked or applied by the user. */
  lemma ProtectedSettingsNeedTheUser(run: Run, registry: Registry, k: nat, n: nat)
    requires FixedRegistry(run, registry) && k < |run.logs| && n < |run.logs[k].journal|
    requires run.logs[k].journal[n].state == Checked || run.logs[k].journal[n].state == Applied
    requires var change := run.logs[k].journal[n].change;
             var found := FindSetting(registry, change.scope, change.key);
             found.Success? ==> found.value.riskClass != RiskClass.Ordinary
    ensures run.logs[k].journal[n].actor.authority == Some(User)
  {
    RunsStayAuthorized(run, registry, k);
    var entry := run.logs[k].journal[n];
    assert EntryIsAuthorized(registry, entry);
    match entry.actor.authority.value {
      case User =>
      case Core =>
      case Rule =>
    }
  }

  /** One attempt to make a policy. */
  datatype Attempt = Attempt(scope: string, area: string, level: Level, actor: Actor)

  /** The policies that a number of attempts yield. */
  function PoliciesFrom(attempts: seq<Attempt>): seq<AreaPolicy> {
    if attempts == [] then []
    else
      var last := attempts[|attempts| - 1];
      var earlier := PoliciesFrom(attempts[..|attempts| - 1]);
      match PolicyFromUser(last.scope, last.area, last.level, last.actor)
      case Success(policy) => earlier + [policy]
      case Failure(_) => earlier
  }

  lemma {:induction false} OthersMakeNoPolicies(attempts: seq<Attempt>)
    requires forall n | 0 <= n < |attempts| :: attempts[n].actor.authority != Some(User)
    ensures PoliciesFrom(attempts) == []
  {
    if attempts != [] {
      OthersMakeNoPolicies(attempts[..|attempts| - 1]);
    }
  }

  /**
   Nobody raises a level for itself: unless the user made some policy, no core or rule ever checks or applies
   anything, whatever the effects and settings are registered as.
   */
  lemma OnlyTheUserLetsOthersApply(run: Run, registry: Registry, attempts: seq<Attempt>, k: nat, n: nat)
    requires FixedRegistry(run, registry) && k < |run.logs| && n < |run.logs[k].journal|
    requires registry.policies == PoliciesFrom(attempts)
    requires run.logs[k].journal[n].state == Checked || run.logs[k].journal[n].state == Applied
    requires ActsForItself(run.logs[k].journal[n].actor)
    ensures exists m | 0 <= m < |attempts| :: attempts[m].actor.authority == Some(User)
  {
    RunsStayAuthorized(run, registry, k);
    var entry := run.logs[k].journal[n];
    assert EntryIsAuthorized(registry, entry);
    hide FindSetting, FixedRegistry, Authorized;
    if forall m | 0 <= m < |attempts| :: attempts[m].actor.authority != Some(User) {
      OthersMakeNoPolicies(attempts);
      assert false;
    }
  }

  // ---- Waiting never deadlocks ----

  function OpenCount(requests: seq<JournalEntry>): nat {
    if requests == [] then 0
    else OpenCount(requests[1..]) + if requests[0].state.Terminal() then 0 else 1
  }

  /** All calls are accepted, one after the other. */
  ghost predicate AllAccepted(registry: Registry, log: Log, calls: seq<Call>, end: Log)
    decreases |calls|
  {
    if calls == [] then log == end
    else
      && Perform(registry, log, calls[0]).Success?
      && AllAccepted(registry, Perform(registry, log, calls[0]).value, calls[1..], end)
  }

  /** The calls end open requests of the log, in the order of their ids. */
  ghost predicate EndsOldestFirst(log: Log, from: nat, calls: seq<Call>) {
    && (forall n | 0 <= n < |calls| ::
          && calls[n].TransitionCall? && from <= calls[n].id < |log.requests|
          && (calls[n].state == Rejected || calls[n].state == Confirmed)
          && !log.requests[calls[n].id].state.Terminal())
    && forall m, n | 0 <= m < n < |calls| :: calls[m].TransitionCall? && calls[n].TransitionCall? && calls[m].id < calls[n].id
  }

  /** The oldest open request can always be ended by its setting's owner. */
  lemma OldestOpenCanEnd(registry: Registry, log: Log, id: nat) returns (call: Call, log': Log)
    requires Sound(log) && Authorized(registry, log) && id < |log.requests|
    requires forall i | 0 <= i < id :: log.requests[i].state.Terminal()
    requires !log.requests[id].state.Terminal()
    ensures call.TransitionCall? && call.id == id && (call.state == Rejected || call.state == Confirmed)
    ensures Perform(registry, log, call) == Success(log')
    ensures |log'.requests| == |log.requests| && log'.requests[id].state.Terminal()
    ensures forall i | 0 <= i < |log.requests| && i != id :: log'.requests[i] == log.requests[i]
  {
    hide FindSetting, MaySelfApply, LevelOf;
    var change := log.requests[id].change;
    var setting := FindSetting(registry, change.scope, change.key).value;
    FoundSettingsHaveOwners(registry, change.scope, change.key);
    call := TransitionCall(id, if log.requests[id].state == Applied then Confirmed else Rejected,
                           Actor("owner", setting.owner), 0);
    log' := Perform(registry, log, call).value;
  }

  lemma FoundSettingsHaveOwners(registry: Registry, scope: string, key: string)
    requires FindSetting(registry, scope, key).Success?
    ensures FindSetting(registry, scope, key).value.owner.Some?
  {}

  lemma {:induction false} DrainFrom(registry: Registry, log: Log, id: nat) returns (calls: seq<Call>, end: Log)
    requires Sound(log) && Authorized(registry, log) && id <= |log.requests|
    requires forall i | 0 <= i < id :: log.requests[i].state.Terminal()
    ensures AllAccepted(registry, log, calls, end)
    ensures |calls| == OpenCount(log.requests[id..]) && EndsOldestFirst(log, id, calls) && Sound(end)
    ensures |end.requests| == |log.requests| && forall i | 0 <= i < |end.requests| :: end.requests[i].state.Terminal()
    decreases |log.requests| - id
  {
    hide Perform, Sound, Authorized;
    if id == |log.requests| {
      return [], log;
    }
    assert log.requests[id..][1..] == log.requests[id + 1..];
    if log.requests[id].state.Terminal() {
      calls, end := DrainFrom(registry, log, id + 1);
    } else {
      var call, log' := OldestOpenCanEnd(registry, log, id);
      CallsKeepSound(registry, log, call);
      CallsKeepAuthorized(registry, log, call);
      assert log'.requests[id + 1..] == log.requests[id + 1..];
      calls, end := DrainFrom(registry, log', id + 1);
      calls := [call] + calls;
    }
  }

  lemma SoundLogsAreBounded(log: Log)
    requires Sound(log)
    ensures |log.journal| <= 4 * |log.requests|
  {
    hide Numbered, CachesLastEntries, CountsChanges, InOrder, TakesTurns, EntriesRise, AppliedAtTheirRevision;
    RankSumIsBounded(log.requests);
  }

  /**
   From every reachable log the owners can end every open request with one accepted call each, oldest
   first: waiting for earlier requests never deadlocks.
   */
  lemma EveryLogCanBeDrained(run: Run, registry: Registry, k: nat) returns (calls: seq<Call>, end: Log)
    requires FixedRegistry(run, registry) && k < |run.logs|
    ensures AllAccepted(registry, run.logs[k], calls, end)
    ensures |calls| == OpenCount(run.logs[k].requests) && EndsOldestFirst(run.logs[k], 0, calls)
    ensures |end.requests| == |run.logs[k].requests| && |end.journal| <= 4 * |end.requests|
    ensures forall i | 0 <= i < |end.requests| :: end.requests[i].state.Terminal()
  {
    hide Perform, Sound, Authorized;
    RunsStaySound(run, k);
    RunsStayAuthorized(run, registry, k);
    assert run.logs[k].requests[0..] == run.logs[k].requests;
    calls, end := DrainFrom(registry, run.logs[k], 0);
    SoundLogsAreBounded(end);
  }
}
