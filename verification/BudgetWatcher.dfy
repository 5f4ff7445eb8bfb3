/** The budget watcher: sweeps that block profiles over their thresholds, pause their agents, and lift expired blocks. */
module BudgetWatchers {
  import opened Basics
  import opened BudgetLimits
  import Text

  type I64 = x: int | I64_MIN <= x <= I64_MAX

  function SaturatingAdd(a: I64, b: I64): I64 {
    if a + b > I64_MAX then I64_MAX else if a + b < I64_MIN then I64_MIN else a + b
  }

  // ---- Evaluating a measurement ----

  datatype RateWindowUsage = RateWindowUsage(percent: Option<nat>, resetsAt: Option<I64>)

  datatype Usage = Usage(fiveHour: Option<RateWindowUsage>, sevenDay: Option<RateWindowUsage>, observedAt: I64) {
    function In(window: Window): Option<RateWindowUsage> {
      match window
      case FiveHour => fiveHour
      case SevenDay => sevenDay
      case Month => None
    }
  }

  const REASON_PREFIX: string := "Budget: "

  datatype BudgetStop = BudgetStop(profileId: string, window: Window, percent: nat, limit: nat, blockedUntil: I64) {
    function Reason(): string {
      REASON_PREFIX + window.Label() + " bei " + Text.Decimal(percent) + " % (Limit " + Text.Decimal(limit) + " %)"
    }
  }

  function EvaluateWindow(
    profileId: string, window: Window, limit: nat, observed: Option<RateWindowUsage>, now: I64)
    : Option<BudgetStop>
  {
    match observed
    case None => None
    case Some(RateWindowUsage(None, _)) => None
    case Some(RateWindowUsage(Some(percent), resetsAt)) =>
      if percent < limit then None
      else
        var ceiling := SaturatingAdd(now, window.LengthSecs());
        var blockedUntil :=
          if resetsAt.Some? && resetsAt.value > now then
            if resetsAt.value < ceiling then resetsAt.value else ceiling
          else ceiling;
        Some(BudgetStop(profileId, window, percent, limit, blockedUntil))
  }

  function EvaluateOne(limits: Limits, usage: Usage, window: Window, now: I64): Option<BudgetStop> {
    match limits.Get(window)
    case None => None
    case Some(limit) => EvaluateWindow(limits.profileId, window, limit, usage.In(window), now)
  }

  /** The five-hour window first: a profile over both is reported for the shorter one. */
  function Evaluate(limits: Limits, usage: Usage, now: I64): Option<BudgetStop> {
    match EvaluateOne(limits, usage, FiveHour, now)
    case Some(stop) => Some(stop)
    case None => EvaluateOne(limits, usage, SevenDay, now)
  }

  /** The measurement reaches the threshold set on that window. */
  predicate Crosses(limits: Limits, usage: Usage, window: Window) {
    && limits.Get(window).Some? && usage.In(window).Some? && usage.In(window).value.percent.Some?
    && usage.In(window).value.percent.value >= limits.Get(window).value
  }

  /** A profile is stopped exactly when a window crosses its threshold, for the shortest such window. */
  lemma StopsExactlyWhenAWindowCrosses(limits: Limits, usage: Usage, now: I64)
    ensures Evaluate(limits, usage, now).Some? <==> exists window :: Crosses(limits, usage, window)
    ensures Evaluate(limits, usage, now).Some? ==>
              var stop := Evaluate(limits, usage, now).value;
              && stop.profileId == limits.profileId
              && Crosses(limits, usage, stop.window)
              && (forall window | Crosses(limits, usage, window) :: stop.window.LengthSecs() <= window.LengthSecs())
              && limits.Get(stop.window) == Some(stop.limit)
              && usage.In(stop.window).value.percent == Some(stop.percent)
  {
    if EvaluateOne(limits, usage, FiveHour, now).Some? {
      assert Crosses(limits, usage, FiveHour);
    } else if EvaluateOne(limits, usage, SevenDay, now).Some? {
      assert Crosses(limits, usage, SevenDay);
    }
    forall window | Crosses(limits, usage, window) ensures window != Month {}
  }

  /**
   Every block has an end: never further than the window's length, never after a reset the provider named for
   the future, and in the future exactly when the clock has not reached the last representable second.
   */
  lemma BlocksEndWithinTheWindow(limits: Limits, usage: Usage, now: I64)
    requires Evaluate(limits, usage, now).Some?
    ensures var stop := Evaluate(limits, usage, now).value;
            && stop.blockedUntil <= now + stop.window.LengthSecs()
            && (now < stop.blockedUntil <==> now < I64_MAX)
            && (usage.In(stop.window).value.resetsAt.Some? && usage.In(stop.window).value.resetsAt.value > now ==>
                  stop.blockedUntil <= usage.In(stop.window).value.resetsAt.value)
            && (now + stop.window.LengthSecs() <= I64_MAX
                && (usage.In(stop.window).value.resetsAt.Some? ==> usage.In(stop.window).value.resetsAt.value <= now) ==>
                  stop.blockedUntil == now + stop.window.LengthSecs())
  {
    StopsExactlyWhenAWindowCrosses(limits, usage, now);
  }

  /**
   When a block ends: at the reset the provider named, if that lies ahead and within the window's length of five
   hours or seven days, and otherwise a full window from now, short of the last representable second.
   */
  lemma BlocksEndExactly(limits: Limits, usage: Usage, now: I64)
    requires Evaluate(limits, usage, now).Some?
    ensures var stop := Evaluate(limits, usage, now).value;
            var length := if stop.window == FiveHour then 18_000 else 604_800;
            var full := if now + length <= I64_MAX then now + length else I64_MAX;
            var reset := usage.In(stop.window).value.resetsAt;
            && stop.window != Month
            && stop.blockedUntil == if reset.Some? && now < reset.value < full then reset.value else full
  {
    StopsExactlyWhenAWindowCrosses(limits, usage, now);
  }

  // ---- The quota map ----

  datatype QuotaState = Ok | Blocked | Unknown

  datatype QuotaRow = QuotaRow(state: QuotaState, blockedUntil: Option<I64>, reason: Option<string>)

  const MAX_REASON: nat := 200
  const ELLIPSIS: char := '\U{2026}'

  function ClampReason(reason: string): Option<string> {
    var trimmed := Text.Trim(reason);
    if trimmed == "" then None
    else if |trimmed| <= MAX_REASON then Some(trimmed)
    else Some(trimmed[..MAX_REASON] + [ELLIPSIS])
  }

  predicate IsBlocked(row: Option<QuotaRow>) {
    row.Some? && row.value.state == Blocked
  }

  /** The row's reason carries the mark of a budget block. */
  predicate IsOurs(row: Option<QuotaRow>) {
    row.Some? && row.value.reason.Some? && Text.HasPrefix(row.value.reason.value, REASON_PREFIX)
  }

  /** The mark survives the clamping of stored reasons, and a reason made of real percentages survives whole. */
  lemma BudgetReasonsAreRecognised(stop: BudgetStop)
    ensures ClampReason(stop.Reason()).Some? && Text.HasPrefix(ClampReason(stop.Reason()).value, "Budget: ")
    ensures stop.percent < 1000 && stop.limit < 1000 ==> ClampReason(stop.Reason()) == Some(stop.Reason())
  {
    hide Text.Trim, Text.Decimal, Text.DigitsValue, Text.AllDigits;
    var reason := stop.Reason();
    assert reason[0] == 'B' && reason[|reason| - 1] == ')';
    Text.TrimYieldsTrimmed(reason);
    Text.DecimalReadsBack(stop.percent);
    Text.DecimalReadsBack(stop.limit);
  }

  // ---- One profile in one sweep ----

  /** What the watcher knows about one profile: its quota row, and the measurement behind its last stop. */
  datatype View = View(quota: Option<QuotaRow>, seen: Option<I64>)

  datatype Action = Stopped(stop: BudgetStop) | Released(profileId: string)

  /** What a sweep does about one profile that has a threshold. */
  function Look(view: View, limits: Limits, usage: Option<Usage>, now: I64): (View, Option<Action>) {
    if IsBlocked(view.quota) then
      if IsOurs(view.quota) && (view.quota.value.blockedUntil.Some? ==> now >= view.quota.value.blockedUntil.value)
      then (view.(quota := Some(QuotaRow(Ok, None, None))), Some(Released(limits.profileId)))
      else (view, None)
    else if usage.None? || (view.seen.Some? && usage.value.observedAt <= view.seen.value) then (view, None)
    else
      match Evaluate(limits, usage.value, now)
      case None => (view, None)
      case Some(stop) =>
        (View(Some(QuotaRow(Blocked, Some(stop.blockedUntil), ClampReason(stop.Reason()))), Some(usage.value.observedAt)),
         Some(Stopped(stop)))
  }

  /** The quota map, and the measurement behind each profile's last stop. */
  datatype Ledger = Ledger(quota: map<string, QuotaRow>, seen: map<string, I64>) {
    function ViewOf(profileId: string): View {
      View(if profileId in quota then Some(quota[profileId]) else None,
           if profileId in seen then Some(seen[profileId]) else None)
    }
  }

  /** What the sweep reads: the settings listing, if it could be read, the measurements and the clock. */
  datatype Sweep = Sweep(listing: Option<Settings>, usage: map<string, Usage>, now: I64) {
    function LimitsFor(profileId: string): Limits {
      match listing
      case None => NoLimits(profileId)
      case Some(settings) =>
        Limits(profileId,
               LastReadable(settings, SettingKey(profileId, FiveHour)),
               LastReadable(settings, SettingKey(profileId, SevenDay)))
    }

    /** The profile has a threshold, so that the sweep looks at it. */
    predicate Covers(profileId: string) {
      profileId != "" && LimitsFor(profileId) != NoLimits(profileId)
    }

    function UsageOf(profileId: string): Option<Usage> {
      if profileId in usage then Some(usage[profileId]) else None
    }

    /** The profile's view and action after the sweep. */
    function On(profileId: string, view: View): (View, Option<Action>) {
      if Covers(profileId) then Look(view, LimitsFor(profileId), UsageOf(profileId), now) else (view, None)
    }
  }

  /** The sweep treats every profile by itself. */
  ghost predicate Follows(before: Ledger, sweep: Sweep, after: Ledger) {
    forall profileId :: after.ViewOf(profileId) == sweep.On(profileId, before.ViewOf(profileId)).0
  }

  function Actions(ledger: Ledger, sweep: Sweep, rows: seq<Limits>): seq<Action> {
    if rows == [] then []
    else
      var row := rows[|rows| - 1];
      match sweep.On(row.profileId, ledger.ViewOf(row.profileId)).1
      case None => Actions(ledger, sweep, rows[..|rows| - 1])
      case Some(action) => Actions(ledger, sweep, rows[..|rows| - 1]) + [action]
  }

  /** The actions are those of the covered profiles, in the order of their ids. */
  ghost predicate ActionsInOrder(ledger: Ledger, sweep: Sweep, actions: seq<Action>) {
    match sweep.listing
    case None => actions == []
    case Some(settings) =>
      exists rows :: Folds(settings, rows) && SortedByProfile(rows) && actions == Actions(ledger, sweep, rows)
  }

  // ---- Pausing agents ----

  /** The columns of a worker's row that pausing reads or writes. */
  datatype Agent = Agent(id: string, profileId: string, status: string, pausedReason: Option<string>)

  const STATUS_RUNNING: string := "running"

  /** Stored workers, the sessions bound to them, and the sessions killed so far. */
  datatype Fleet = Fleet(workers: seq<Agent>, sessions: map<string, string>, killed: seq<string>)

  /** Store failures of one sweep: the workers cannot be listed, or some notes cannot be written. */
  datatype Faults = Faults(workersUnreadable: bool, unmarkable: set<string>)

  predicate RunsOn(worker: Agent, profileId: string) {
    worker.profileId == profileId && worker.status == STATUS_RUNNING
  }

  ghost predicate UniqueWorkers(workers: seq<Agent>) {
    forall i, j | 0 <= i < j < |workers| :: workers[i].id != workers[j].id
  }

  /** Unbind one worker's session, kill it and leave the note. */
  function PauseOne(fleet: Fleet, k: nat, profileId: string, reason: string, faults: Faults): Fleet
    requires k < |fleet.workers|
  {
    var worker := fleet.workers[k];
    if !RunsOn(worker, profileId) || worker.id !in fleet.sessions then fleet
    else
      Fleet(if worker.id in faults.unmarkable then fleet.workers
            else fleet.workers[k := worker.(pausedReason := Some(reason))],
            fleet.sessions - {worker.id},
            fleet.killed + [fleet.sessions[worker.id]])
  }

  function PauseFirst(fleet: Fleet, n: nat, profileId: string, reason: string, faults: Faults): (r: Fleet)
    requires n <= |fleet.workers|
    ensures |r.workers| == |fleet.workers|
  {
    if n == 0 then fleet
    else PauseOne(PauseFirst(fleet, n - 1, profileId, reason, faults), n - 1, profileId, reason, faults)
  }

  function Paused(fleet: Fleet, profileId: string, reason: string, faults: Faults): (r: Fleet)
    ensures |r.workers| == |fleet.workers|
  {
    if faults.workersUnreadable then fleet
    else PauseFirst(fleet, |fleet.workers|, profileId, reason, faults)
  }

  function PausedBy(fleet: Fleet, action: Option<Action>, faults: Faults): (r: Fleet)
    ensures |r.workers| == |fleet.workers|
  {
    match action
    case Some(Stopped(stop)) => Paused(fleet, stop.profileId, stop.Reason(), faults)
    case _ => fleet
  }

  function PausedFor(fleet: Fleet, actions: seq<Action>, faults: Faults): (r: Fleet)
    ensures |r.workers| == |fleet.workers|
  {
    if actions == [] then fleet
    else PausedBy(PausedFor(fleet, actions[..|actions| - 1], faults), Some(actions[|actions| - 1]), faults)
  }

  // ---- The watcher ----

  class BudgetWatcher {
    var quota: map<string, QuotaRow>
    var lastStopObservation: map<string, I64>
    var fleet: Fleet

    ghost function State(): Ledger
      reads this
    {
      Ledger(quota, lastStopObservation)
    }

    constructor (quota: map<string, QuotaRow>, fleet: Fleet)
      ensures this.quota == quota && this.fleet == fleet && lastStopObservation == map[]
    {
      this.quota := quota;
      this.fleet := fleet;
      lastStopObservation := map[];
    }

    method NoteBlocked(profileId: string, reason: string, blockedUntil: Option<I64>)
      modifies this`quota
      ensures quota == old(quota)[profileId := QuotaRow(Blocked, blockedUntil, ClampReason(reason))]
    {
      quota := quota[profileId := QuotaRow(Blocked, blockedUntil, ClampReason(reason))];
    }

    method NoteOk(profileId: string)
      modifies this`quota
      ensures quota == old(quota)[profileId := QuotaRow(Ok, None, None)]
    {
      quota := quota[profileId := QuotaRow(Ok, None, None)];
    }

    /** Stop every live agent of one profile; its row keeps its status and gains a note. */
    method PauseWorkers(profileId: string, reason: string, faults: Faults)
      modifies this`fleet
      ensures fleet == Paused(old(fleet), profileId, reason, faults)
    {
      if faults.workersUnreadable {
        return;
      }
      var workers := fleet.workers;
      for k := 0 to |workers|
        invariant fleet == PauseFirst(old(fleet), k, profileId, reason, faults)
        invariant |fleet.workers| == |workers|
        invariant forall j | k <= j < |workers| :: fleet.workers[j] == workers[j]
      {
        var worker := workers[k];
        if worker.profileId != profileId || worker.status != STATUS_RUNNING {
          continue;
        }
        if worker.id !in fleet.sessions {
          continue;
        }
        var session := fleet.sessions[worker.id];
        fleet := fleet.(sessions := fleet.sessions - {worker.id});
        fleet := fleet.(killed := fleet.killed + [session]);
        if worker.id !in faults.unmarkable {
          fleet := fleet.(workers := fleet.workers[k := worker.(pausedReason := Some(reason))]);
        }
      }
    }

    /** What one sweep does about the profile of one row. */
    method CheckRow(row: Limits, usage: Option<Usage>, now: I64, faults: Faults) returns (action: Option<Action>)
      modifies this
      ensures State().ViewOf(row.profileId) == Look(old(State()).ViewOf(row.profileId), row, usage, now).0
      ensures action == Look(old(State()).ViewOf(row.profileId), row, usage, now).1
      ensures forall other | other != row.profileId :: State().ViewOf(other) == old(State()).ViewOf(other)
      ensures fleet == PausedBy(old(fleet), action, faults)
    {
      hide Evaluate, ClampReason, BudgetStop.Reason, Paused;
      var current := if row.profileId in quota then Some(quota[row.profileId]) else None;
      if IsBlocked(current) {
        if !IsOurs(current) {
          return None;
        }
        var until := current.value.blockedUntil;
        if until.None? || now >= until.value {
          NoteOk(row.profileId);
          return Some(Released(row.profileId));
        }
        return None;
      }
      if usage.None? {
        return None;
      }
      if row.profileId in lastStopObservation && usage.value.observedAt <= lastStopObservation[row.profileId] {
        return None;
      }
      var stop := Evaluate(row, usage.value, now);
      if stop.None? {
        return None;
      }
      StopsExactlyWhenAWindowCrosses(row, usage.value, now);
      NoteBlocked(stop.value.profileId, stop.value.Reason(), Some(stop.value.blockedUntil));
      lastStopObservation := lastStopObservation[stop.value.profileId := usage.value.observedAt];
      PauseWorkers(stop.value.profileId, stop.value.Reason(), faults);
      action := Some(Stopped(stop.value));
    }

    /** One sweep over every profile that has a threshold. */
    method CheckOnce(sweep: Sweep, faults: Faults) returns (actions: seq<Action>)
      modifies this
      ensures Follows(old(State()), sweep, State())
      ensures ActionsInOrder(old(State()), sweep, actions)
      ensures fleet == PausedFor(old(fleet), actions, faults)
    {
      if sweep.listing.None? {
        return [];
      }
      var rows := LimitsFromSettings(sweep.listing.value);
      SortedIsUnique(rows);
      actions := [];
      ghost var start := State();
      for i := 0 to |rows|
        invariant Treated(start, sweep, State(), rows, i)
        invariant actions == Actions(start, sweep, rows[..i])
        invariant fleet == PausedFor(old(fleet), actions, faults)
      {
        hide *;
        RowsAreCovered(sweep, rows, i);
        var profileId := rows[i].profileId;
        ghost var before := State();
        var action := CheckRow(rows[i], sweep.UsageOf(profileId), sweep.now, faults);
        OneMoreIsTreated(start, sweep, before, State(), rows, i);
        ActionsStep(start, sweep, before, rows, i, action);
        PausedForStep(old(fleet), actions, action, faults);
        if action.Some? {
          actions := actions + [action.value];
        }
      }
      assert rows[..|rows|] == rows;
      EveryoneIsTreated(start, sweep, State(), rows);
    }
  }

  /** The first `n` rows' profiles have been looked at, and nobody else. */
  ghost predicate Treated(before: Ledger, sweep: Sweep, after: Ledger, rows: seq<Limits>, n: nat)
    requires n <= |rows|
  {
    && (forall j | 0 <= j < n ::
          after.ViewOf(rows[j].profileId) == sweep.On(rows[j].profileId, before.ViewOf(rows[j].profileId)).0)
    && (forall id | (forall j | 0 <= j < n :: rows[j].profileId != id) :: after.ViewOf(id) == before.ViewOf(id))
  }

  lemma OneMoreIsTreated(start: Ledger, sweep: Sweep, before: Ledger, after: Ledger, rows: seq<Limits>, i: nat)
    requires UniqueProfiles(rows) && i < |rows| && Treated(start, sweep, before, rows, i)
    requires rows[i] == sweep.LimitsFor(rows[i].profileId) && sweep.Covers(rows[i].profileId)
    requires var id := rows[i].profileId;
             after.ViewOf(id) == Look(before.ViewOf(id), rows[i], sweep.UsageOf(id), sweep.now).0
    requires forall other | other != rows[i].profileId :: after.ViewOf(other) == before.ViewOf(other)
    ensures Treated(start, sweep, after, rows, i + 1)
    ensures before.ViewOf(rows[i].profileId) == start.ViewOf(rows[i].profileId)
  {
    hide Look, Sweep.LimitsFor, Sweep.Covers, Ledger.ViewOf;
  }

  lemma ActionsStep(start: Ledger, sweep: Sweep, before: Ledger, rows: seq<Limits>, i: nat, action: Option<Action>)
    requires i < |rows|
    requires rows[i] == sweep.LimitsFor(rows[i].profileId) && sweep.Covers(rows[i].profileId)
    requires before.ViewOf(rows[i].profileId) == start.ViewOf(rows[i].profileId)
    requires var id := rows[i].profileId;
             action == Look(before.ViewOf(id), rows[i], sweep.UsageOf(id), sweep.now).1
    ensures Actions(start, sweep, rows[..i + 1]) ==
            if action.Some? then Actions(start, sweep, rows[..i]) + [action.value] else Actions(start, sweep, rows[..i])
  {
    hide Look, Sweep.LimitsFor, Sweep.Covers, Ledger.ViewOf;
    assert rows[..i + 1][..i] == rows[..i];
  }

  lemma PausedForStep(fleet: Fleet, actions: seq<Action>, action: Option<Action>, faults: Faults)
    ensures PausedBy(PausedFor(fleet, actions, faults), action, faults) ==
            PausedFor(fleet, if action.Some? then actions + [action.value] else actions, faults)
  {
    hide Paused;
    if action.Some? {
      assert (actions + [action.value])[..|actions|] == actions;
    }
  }

  /** The row of a folded listing is what the sweep reads about its profile. */
  lemma RowsAreCovered(sweep: Sweep, rows: seq<Limits>, i: nat)
    requires sweep.listing.Some? && Folds(sweep.listing.value, rows) && i < |rows|
    ensures rows[i] == sweep.LimitsFor(rows[i].profileId) && sweep.Covers(rows[i].profileId)
  {
    assert rows[i] in rows;
  }

  lemma EveryoneIsTreated(before: Ledger, sweep: Sweep, after: Ledger, rows: seq<Limits>)
    requires sweep.listing.Some? && Folds(sweep.listing.value, rows)
    requires Treated(before, sweep, after, rows, |rows|)
    ensures Follows(before, sweep, after)
  {
    hide Look;
    forall id ensures after.ViewOf(id) == sweep.On(id, before.ViewOf(id)).0 {
      if forall j | 0 <= j < |rows| :: rows[j].profileId != id {
        assert !Listed(rows, id);
      }
    }
  }
}
