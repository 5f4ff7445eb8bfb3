/**
 Whole runs of the budget watcher: any number of sweeps, over any settings, measurements and clock readings, as
 long as nobody else changes the quota map. Settings may change between sweeps.
 */
module BudgetRuns {
  import opened Basics
  import opened BudgetLimits
  import opened BudgetWatchers
  import BudgetStores
  import Text

  datatype Run = Run(ledgers: seq<Ledger>, sweeps: seq<Sweep>) {
    ghost predicate Valid() {
      && |ledgers| == |sweeps| + 1
      && forall i {:trigger sweeps[i]} | 0 <= i < |sweeps| :: Follows(ledgers[i], sweeps[i], ledgers[i + 1])
    }

    ghost function ViewAt(i: nat, id: string): View
      requires i < |ledgers|
    {
      ledgers[i].ViewOf(id)
    }

    /** What sweep `i` did about the profile. */
    ghost function ActionAt(i: nat, id: string): Option<Action>
      requires i < |sweeps| < |ledgers|
    {
      sweeps[i].On(id, ledgers[i].ViewOf(id)).1
    }

    ghost predicate StopsAt(i: nat, id: string)
      requires i < |sweeps| < |ledgers|
    {
      ActionAt(i, id).Some? && ActionAt(i, id).value.Stopped?
    }

    ghost predicate QuietBetween(s: nat, t: nat, id: string)
      requires t <= |sweeps| < |ledgers|
    {
      forall k | s <= k < t :: ActionAt(k, id) == None
    }

    /** The profile still has a threshold, and the clock has reached the end of its block. */
    ghost predicate Due(i: nat, id: string, until: int)
      requires i < |sweeps|
    {
      sweeps[i].Covers(id) && until <= sweeps[i].now
    }

    ghost predicate ClockNeverGoesBack() {
      forall i, j | 0 <= i <= j < |sweeps| :: sweeps[i].now <= sweeps[j].now
    }
  }

  // ---- One sweep, one profile ----

  /** A sweep over a listing of the settings table goes by the thresholds in the table. */
  lemma SweepsReadTheTable(sweep: Sweep, table: BudgetStores.Table, id: string)
    requires sweep.listing.Some? && BudgetStores.Lists(table, KEY_PREFIX, sweep.listing.value)
    ensures sweep.LimitsFor(id) == BudgetStores.LimitsIn(table, id)
  {
    BudgetStores.ListingReadsTheTable(table, sweep.listing.value, SettingKey(id, FiveHour));
    BudgetStores.ListingReadsTheTable(table, sweep.listing.value, SettingKey(id, SevenDay));
  }

  /** A sweep that does nothing about a profile leaves its view alone. */
  lemma NoActionNoChange(sweep: Sweep, id: string, view: View)
    requires sweep.On(id, view).1 == None
    ensures sweep.On(id, view).0 == view
  {
    hide Evaluate;
  }

  /** A stop needs a newer measurement than the last one, blocks the profile and remembers the measurement. */
  lemma AStopBlocks(sweep: Sweep, id: string, view: View)
    requires sweep.On(id, view).1.Some? && sweep.On(id, view).1.value.Stopped?
    ensures var stop := sweep.On(id, view).1.value.stop;
            var view' := sweep.On(id, view).0;
            && !IsBlocked(view.quota)
            && stop.profileId == id && sweep.Covers(id) && id in sweep.usage
            && Evaluate(sweep.LimitsFor(id), sweep.usage[id], sweep.now) == Some(stop)
            && (view.seen.Some? ==> view.seen.value < sweep.usage[id].observedAt)
            && IsBlocked(view'.quota) && IsOurs(view'.quota)
            && view'.quota.value.blockedUntil == Some(stop.blockedUntil)
            && view'.seen == Some(sweep.usage[id].observedAt)
  {
    hide Evaluate, ClampReason, BudgetStop.Reason, Text.HasPrefix;
    StopsExactlyWhenAWindowCrosses(sweep.LimitsFor(id), sweep.usage[id], sweep.now);
    BudgetReasonsAreRecognised(sweep.On(id, view).1.value.stop);
  }

  /**
   A sweep stops a profile exactly if it is not blocked, and a measurement newer than that of its last stop reaches
   a threshold the settings have for it.
   */
  lemma ASweepStopsExactlyWhen(sweep: Sweep, id: string, view: View)
    ensures (sweep.On(id, view).1.Some? && sweep.On(id, view).1.value.Stopped?) <==>
              && id != "" && !(view.quota.Some? && view.quota.value.state == Blocked)
              && id in sweep.usage
              && (view.seen.Some? ==> view.seen.value < sweep.usage[id].observedAt)
              && exists window :: Crosses(sweep.LimitsFor(id), sweep.usage[id], window)
  {
    hide IsOurs, ClampReason, BudgetStop.Reason;
    if id in sweep.usage {
      StopsExactlyWhenAWindowCrosses(sweep.LimitsFor(id), sweep.usage[id], sweep.now);
    }
  }

  /** The quota row is a block whose reason begins with the budget's mark. */
  predicate IsBudgetBlock(row: Option<QuotaRow>) {
    row.Some? && row.value.state == Blocked && row.value.reason.Some? && "Budget: " <= row.value.reason.value
  }

  /**
   A sweep releases a profile exactly if it has a threshold and a block with the budget's mark whose end, if it has
   one, has come. Its row is then plain again, and its last measurement is kept.
   */
  lemma ASweepReleasesExactlyWhen(sweep: Sweep, id: string, view: View)
    ensures (sweep.On(id, view).1.Some? && sweep.On(id, view).1.value.Released?) <==>
              && id != "" && (exists window :: sweep.LimitsFor(id).Get(window).Some?)
              && IsBudgetBlock(view.quota)
              && (view.quota.value.blockedUntil.Some? ==> view.quota.value.blockedUntil.value <= sweep.now)
    ensures sweep.On(id, view).1.Some? && sweep.On(id, view).1.value.Released? ==>
              sweep.On(id, view) == (View(Some(QuotaRow(Ok, None, None)), view.seen), Some(Released(id)))
  {
    hide Evaluate, ClampReason, BudgetStop.Reason;
    var limits := sweep.LimitsFor(id);
    if limits != NoLimits(id) {
      assert limits.Get(FiveHour).Some? || limits.Get(SevenDay).Some?;
    }
  }

  /** A release lifts one of the watcher's own blocks and forgets no measurement. */
  lemma AReleaseLifts(sweep: Sweep, id: string, view: View)
    requires sweep.On(id, view).1.Some? && sweep.On(id, view).1.value.Released?
    ensures sweep.On(id, view).1 == Some(Released(id))
    ensures IsBlocked(view.quota) && IsOurs(view.quota) && !IsBlocked(sweep.On(id, view).0.quota)
    ensures sweep.On(id, view).0.seen == view.seen
  {
    hide Evaluate, ClampReason, BudgetStop.Reason;
  }

  function ProfileOf(action: Action): string {
    match action
    case Stopped(stop) => stop.profileId
    case Released(profileId) => profileId
  }

  lemma ActionsNameTheirProfile(sweep: Sweep, id: string, view: View)
    ensures sweep.On(id, view).1.Some? ==> ProfileOf(sweep.On(id, view).1.value) == id
  {
    if sweep.On(id, view).1.Some? {
      if sweep.On(id, view).1.value.Stopped? {
        AStopBlocks(sweep, id, view);
      } else {
        AReleaseLifts(sweep, id, view);
      }
    }
  }

  ghost predicate IdsRise(actions: seq<Action>) {
    forall a, b | 0 <= a < b < |actions| :: Text.StringLess(ProfileOf(actions[a]), ProfileOf(actions[b]))
  }

  lemma {:induction false} ActionsOfRows(ledger: Ledger, sweep: Sweep, rows: seq<Limits>)
    requires SortedByProfile(rows)
    ensures IdsRise(Actions(ledger, sweep, rows))
    ensures forall action | action in Actions(ledger, sweep, rows) ::
              Listed(rows, ProfileOf(action))
              && sweep.On(ProfileOf(action), ledger.ViewOf(ProfileOf(action))).1 == Some(action)
    ensures forall i | 0 <= i < |rows| ::
              var done := sweep.On(rows[i].profileId, ledger.ViewOf(rows[i].profileId)).1;
              done.Some? ==> done.value in Actions(ledger, sweep, rows)
  {
    hide Sweep.On, Ledger.ViewOf, Text.StringLess;
    if rows != [] {
      var front, last := rows[..|rows| - 1], rows[|rows| - 1];
      ActionsOfRows(ledger, sweep, front);
      ActionsNameTheirProfile(sweep, last.profileId, ledger.ViewOf(last.profileId));
      forall action | action in Actions(ledger, sweep, front)
        ensures Listed(rows, ProfileOf(action)) && Text.StringLess(ProfileOf(action), last.profileId)
      {
        var row :| row in front && row.profileId == ProfileOf(action);
        var i :| 0 <= i < |front| && front[i] == row;
        assert rows[i] == row && row in rows;
      }
      assert last in rows;
    }
  }

  /** A sweep reports exactly what it did, once for each profile, in the order of the ids. */
  lemma ASweepReportsWhatItDid(ledger: Ledger, sweep: Sweep, actions: seq<Action>)
    requires ActionsInOrder(ledger, sweep, actions)
    ensures IdsRise(actions)
    ensures forall id, action ::
              action in actions && ProfileOf(action) == id <==> sweep.On(id, ledger.ViewOf(id)).1 == Some(action)
  {
    hide Look, IdsRise;
    if sweep.listing.None? {
      NothingRises();
    } else {
      var rows :| Folds(sweep.listing.value, rows) && SortedByProfile(rows) && actions == Actions(ledger, sweep, rows);
      ActionsOfRows(ledger, sweep, rows);
      hide Actions, SortedByProfile;
      forall id | sweep.On(id, ledger.ViewOf(id)).1.Some? ensures sweep.On(id, ledger.ViewOf(id)).1.value in actions {
        CoveredIsListed(sweep, rows, id);
      }
      forall id ensures sweep.On(id, ledger.ViewOf(id)).1.Some? ==> ProfileOf(sweep.On(id, ledger.ViewOf(id)).1.value) == id {
        ActionsNameTheirProfile(sweep, id, ledger.ViewOf(id));
      }
    }
  }

  lemma NothingRises()
    ensures IdsRise([])
  {}

  lemma CoveredIsListed(sweep: Sweep, rows: seq<Limits>, id: string)
    requires sweep.listing.Some? && Folds(sweep.listing.value, rows) && sweep.Covers(id)
    ensures exists i | 0 <= i < |rows| :: rows[i].profileId == id
  {
    assert !Listed(rows, id) ==> RowAgrees(sweep.listing.value, NoLimits(id));
    if Listed(rows, id) {
      var row :| row in rows && row.profileId == id;
      var i :| 0 <= i < |rows| && rows[i] == row;
    }
  }

  // ---- Whole runs ----

  lemma Continues(run: Run, i: nat, id: string)
    requires run.Valid() && i < |run.sweeps|
    ensures run.ViewAt(i + 1, id) == run.sweeps[i].On(id, run.ViewAt(i, id)).0
  {
    assert Follows(run.ledgers[i], run.sweeps[i], run.ledgers[i + 1]);
  }

  lemma {:induction false} QuietSweepsKeepTheView(run: Run, id: string, s: nat, t: nat)
    requires run.Valid() && s <= t <= |run.sweeps| && run.QuietBetween(s, t, id)
    ensures run.ViewAt(t, id) == run.ViewAt(s, id)
    decreases t - s
  {
    hide Sweep.On;
    if s < t {
      Continues(run, s, id);
      assert run.ActionAt(s, id) == None;
      NoActionNoChange(run.sweeps[s], id, run.ViewAt(s, id));
      QuietSweepsKeepTheView(run, id, s + 1, t);
    }
  }

  /** Each profile's actions alternate between stops and releases. */
  lemma StopsAndReleasesAlternate(run: Run, id: string, s: nat, t: nat)
    requires run.Valid() && s < t < |run.sweeps|
    requires run.ActionAt(s, id).Some? && run.ActionAt(t, id).Some? && run.QuietBetween(s + 1, t, id)
    ensures run.StopsAt(s, id) <==> !run.StopsAt(t, id)
  {
    hide Sweep.On, IsBlocked, IsOurs, Evaluate;
    QuietSweepsKeepTheView(run, id, s + 1, t);
    Continues(run, s, id);
    if run.StopsAt(s, id) {
      AStopBlocks(run.sweeps[s], id, run.ViewAt(s, id));
    } else {
      AReleaseLifts(run.sweeps[s], id, run.ViewAt(s, id));
    }
    if run.StopsAt(t, id) {
      AStopBlocks(run.sweeps[t], id, run.ViewAt(t, id));
    } else {
      AReleaseLifts(run.sweeps[t], id, run.ViewAt(t, id));
    }
  }

  /** A profile that was not blocked at the start is first stopped, and is blocked only by such a stop. */
  lemma EveryBlockHasItsStop(run: Run, id: string, t: nat)
    requires run.Valid() && t <= |run.sweeps|
    requires !IsBlocked(run.ViewAt(0, id).quota) && IsBlocked(run.ViewAt(t, id).quota)
    ensures exists s: nat | s < t :: run.StopsAt(s, id) && run.QuietBetween(s + 1, t, id)
  {
    hide Sweep.On, IsBlocked, IsOurs, Evaluate;
    var s := LastAction(run, id, t);
    if s == t {
      QuietSweepsKeepTheView(run, id, 0, t);
      assert false;
    } else {
      QuietSweepsKeepTheView(run, id, s + 1, t);
      Continues(run, s, id);
      if !run.StopsAt(s, id) {
        AReleaseLifts(run.sweeps[s], id, run.ViewAt(s, id));
      }
    }
  }

  /** The last sweep before `t` that did something about the profile, or `t` itself. */
  lemma {:induction false} LastAction(run: Run, id: string, t: nat) returns (s: nat)
    requires t <= |run.sweeps| < |run.ledgers|
    ensures s <= t
    ensures s < t ==> run.ActionAt(s, id).Some? && run.QuietBetween(s + 1, t, id)
    ensures s == t ==> run.QuietBetween(0, t, id)
  {
    hide Run.ActionAt;
    s := t;
    if t > 0 {
      if run.ActionAt(t - 1, id).Some? {
        s := t - 1;
      } else {
        s := LastAction(run, id, t - 1);
        if s == t - 1 {
          s := t;
        }
      }
    }
  }

  /**
   A block stands, whatever is measured, until the first sweep at or after its end that still finds a threshold
   for the profile, and that very sweep lifts it.
   */
  lemma {:induction false} ABlockStandsUntilItIsDue(run: Run, id: string, s: nat, t: nat)
    requires run.Valid() && s < t < |run.sweeps| && run.StopsAt(s, id)
    requires forall k | s < k < t :: !run.Due(k, id, run.ActionAt(s, id).value.stop.blockedUntil)
    ensures IsBlocked(run.ViewAt(t, id).quota) && run.QuietBetween(s + 1, t, id)
    ensures run.ActionAt(t, id) ==
            if run.Due(t, id, run.ActionAt(s, id).value.stop.blockedUntil) then Some(Released(id)) else None
    decreases t - s
  {
    hide Sweep.On, IsBlocked, IsOurs, Evaluate;
    var until := run.ActionAt(s, id).value.stop.blockedUntil;
    AStopBlocks(run.sweeps[s], id, run.ViewAt(s, id));
    Continues(run, s, id);
    if s + 1 < t {
      ABlockStandsUntilItIsDue(run, id, s, t - 1);
      assert run.ActionAt(t - 1, id) == None;
    }
    QuietSweepsKeepTheView(run, id, s + 1, t);
    BlockedProfilesAreOnlyReleased(run.sweeps[t], id, run.ViewAt(t, id), until);
  }

  lemma BlockedProfilesAreOnlyReleased(sweep: Sweep, id: string, view: View, until: I64)
    requires IsBlocked(view.quota) && IsOurs(view.quota) && view.quota.value.blockedUntil == Some(until)
    ensures sweep.On(id, view).1 == if sweep.Covers(id) && until <= sweep.now then Some(Released(id)) else None
  {
    hide Sweep.Covers, Evaluate;
  }

  /** The end alone does not lift a block: once the profile's thresholds are all gone, no sweep ever does. */
  lemma WithoutThresholdsABlockNeverEnds(run: Run, id: string, s: nat, t: nat)
    requires run.Valid() && s < t < |run.sweeps| && run.StopsAt(s, id)
    requires forall k | s < k < t :: !run.sweeps[k].Covers(id)
    ensures IsBlocked(run.ViewAt(t, id).quota)
  {
    ABlockStandsUntilItIsDue(run, id, s, t);
  }

  /** One profile's five-hour threshold of 90 percent. */
  function OneThreshold(): Settings {
    [(SettingKey("a", FiveHour), Text.Decimal(90))]
  }

  lemma OneThresholdCoversOne(id: string, window: Window)
    ensures LastReadable(OneThreshold(), SettingKey(id, window)) ==
            if id == "a" && window == FiveHour then Some(90) else None
  {
    hide ParsePercent, SettingKey, Text.Decimal;
    PercentsReadBack(90);
    LastReadableStep([], SettingKey("a", FiveHour), Text.Decimal(90), SettingKey(id, window));
    assert [] + OneThreshold() == OneThreshold();
    if SettingKey(id, window) == SettingKey("a", FiveHour) {
      SettingKeysAreInjective(id, window, "a", FiveHour);
    }
  }

  /** A measurement of 95 percent stops the profile, its threshold is cleared, and days later it is still blocked. */
  lemma AClearedThresholdLeavesABlock() returns (run: Run)
    ensures run.Valid() && run.ClockNeverGoesBack() && |run.sweeps| == 2
    ensures !IsBlocked(run.ViewAt(0, "a").quota) && run.StopsAt(0, "a")
    ensures !run.sweeps[1].Covers("a") && run.sweeps[1].now > run.ActionAt(0, "a").value.stop.blockedUntil
    ensures IsBlocked(run.ViewAt(2, "a").quota)
  {
    hide SettingKey, OneThreshold, ClampReason, BudgetStop.Reason;
    var usage := Usage(Some(RateWindowUsage(Some(95), None)), None, 1);
    var stop := BudgetStop("a", FiveHour, 95, 90, 18_000);
    var first := Sweep(Some(OneThreshold()), map["a" := usage], 0);
    var second := Sweep(Some([]), map[], 1_000_000);
    var before := Ledger(map[], map[]);
    var after := Ledger(map["a" := QuotaRow(Blocked, Some(18_000), ClampReason(stop.Reason()))], map["a" := 1]);
    forall id: string, window: Window
      ensures LastReadable(OneThreshold(), SettingKey(id, window)) ==
              if id == "a" && window == FiveHour then Some(90) else None
    {
      OneThresholdCoversOne(id, window);
    }
    assert first.LimitsFor("a") == Limits("a", Some(90), None);
    assert Evaluate(first.LimitsFor("a"), usage, 0) == Some(stop);
    assert first.On("a", before.ViewOf("a")) == (after.ViewOf("a"), Some(Stopped(stop)));
    hide Evaluate, Look;
    assert Follows(before, first, after);
    assert Follows(after, second, after);
    run := Run([before, after, after], [first, second]);
  }

  /** A profile's remembered measurement never gets older. */
  lemma {:induction false} MeasurementsOnlyGetNewer(run: Run, id: string, s: nat, t: nat)
    requires run.Valid() && s <= t <= |run.sweeps| && run.ViewAt(s, id).seen.Some?
    ensures run.ViewAt(t, id).seen.Some? && run.ViewAt(s, id).seen.value <= run.ViewAt(t, id).seen.value
    decreases t - s
  {
    hide Sweep.On, IsBlocked, IsOurs, Evaluate;
    if s < t {
      MeasurementsOnlyGetNewer(run, id, s, t - 1);
      Continues(run, t - 1, id);
      var sweep, view := run.sweeps[t - 1], run.ViewAt(t - 1, id);
      if run.ActionAt(t - 1, id) == None {
        NoActionNoChange(sweep, id, view);
      } else if run.StopsAt(t - 1, id) {
        AStopBlocks(sweep, id, view);
      } else {
        AReleaseLifts(sweep, id, view);
      }
    }
  }

  /** No measurement stops a profile twice: later stops rest on strictly newer ones. */
  lemma StopsUseNewMeasurements(run: Run, id: string, s: nat, t: nat)
    requires run.Valid() && s < t < |run.sweeps| && run.StopsAt(s, id) && run.StopsAt(t, id)
    ensures id in run.sweeps[s].usage && id in run.sweeps[t].usage
    ensures run.sweeps[s].usage[id].observedAt < run.sweeps[t].usage[id].observedAt
  {
    hide Sweep.On, IsBlocked, IsOurs, Evaluate;
    AStopBlocks(run.sweeps[s], id, run.ViewAt(s, id));
    AStopBlocks(run.sweeps[t], id, run.ViewAt(t, id));
    Continues(run, s, id);
    MeasurementsOnlyGetNewer(run, id, s + 1, t);
  }

  /** The sweeps that stopped the profile. */
  ghost function Stops(run: Run, id: string): set<nat>
    requires run.Valid()
  {
    set s: nat | s < |run.sweeps| && run.StopsAt(s, id)
  }

  /** The times of the measurements that the sweeps found for the profile. */
  ghost function Measurements(run: Run, id: string): set<int> {
    set s: nat | s < |run.sweeps| && id in run.sweeps[s].usage :: run.sweeps[s].usage[id].observedAt as int
  }

  /** A profile is never stopped more often than it was measured. */
  lemma NoMoreStopsThanMeasurements(run: Run, id: string)
    requires run.Valid()
    ensures |Stops(run, id)| <= |Measurements(run, id)|
  {
    hide Run.StopsAt;
    forall s | s in Stops(run, id) ensures id in run.sweeps[s].usage {
      AStopIsMeasured(run, id, s);
    }
    var times := map s | s in Stops(run, id) :: run.sweeps[s].usage[id].observedAt as int;
    forall s, t | s in times && t in times && s < t ensures times[s] != times[t] {
      StopsUseNewMeasurements(run, id, s, t);
    }
    InjectiveMapsHaveAsManyValues(times);
    assert times.Keys == Stops(run, id);
    SubsetIsSmaller(times.Values, Measurements(run, id));
  }

  lemma {:induction false} InjectiveMapsHaveAsManyValues(m: map<nat, int>)
    requires forall s, t | s in m && t in m && s < t :: m[s] != m[t]
    ensures |m.Values| == |m.Keys|
    decreases |m|
  {
    if k :| k in m {
      var rest := m - {k};
      InjectiveMapsHaveAsManyValues(rest);
      ValuesOfOneMore(m, k, rest);
      assert m.Keys == rest.Keys + {k} && k !in rest.Keys;
    } else {
      assert m.Keys == {} && m.Values == {};
    }
  }

  lemma ValuesOfOneMore(m: map<nat, int>, k: nat, rest: map<nat, int>)
    requires k in m && rest == m - {k} && forall s, t | s in m && t in m && s < t :: m[s] != m[t]
    ensures m.Values == rest.Values + {m[k]} && m[k] !in rest.Values
  {
    forall v | v in m.Values ensures v in rest.Values + {m[k]} {
      var s :| s in m && m[s] == v;
      assert s != k ==> rest[s] == v;
    }
    forall v | v in rest.Values ensures v in m.Values && v != m[k] {
      var s :| s in rest && rest[s] == v;
      assert m[s] == v && (s < k || k < s);
    }
  }

  lemma AStopIsMeasured(run: Run, id: string, s: nat)
    requires run.Valid() && s < |run.sweeps| && run.StopsAt(s, id)
    ensures id in run.sweeps[s].usage
  {
    AStopBlocks(run.sweeps[s], id, run.ViewAt(s, id));
  }

  lemma {:induction false} SubsetIsSmaller<T>(a: set<T>, b: set<T>)
    requires a <= b
    ensures |a| <= |b|
  {
    if x :| x in a {
      SubsetIsSmaller(a - {x}, b - {x});
    } else {
      assert a == {};
    }
  }

  /** Blocks of one profile do not overlap: the next stop comes no earlier than the end of the last block. */
  lemma BlocksDoNotOverlap(run: Run, id: string, s: nat, t: nat)
    requires run.Valid() && run.ClockNeverGoesBack() && s < t < |run.sweeps|
    requires run.StopsAt(s, id) && run.StopsAt(t, id)
    ensures run.ActionAt(s, id).value.stop.blockedUntil <= run.sweeps[t].now
    ensures run.sweeps[s].now < I64_MAX ==> run.sweeps[s].now < run.sweeps[t].now
  {
    hide Sweep.On, IsBlocked, IsOurs, Evaluate, Sweep.Covers;
    var until := run.ActionAt(s, id).value.stop.blockedUntil;
    AStopBlocks(run.sweeps[s], id, run.ViewAt(s, id));
    BlocksEndWithinTheWindow(run.sweeps[s].LimitsFor(id), run.sweeps[s].usage[id], run.sweeps[s].now);
    if until > run.sweeps[t].now {
      forall k | s < k < t ensures !run.Due(k, id, until) {
        assert run.sweeps[k].now <= run.sweeps[t].now;
      }
      ABlockStandsUntilItIsDue(run, id, s, t);
    }
  }

  /** A block without the budget mark is never lifted, and nothing is done about its profile. */
  lemma {:induction false} ProviderBlocksStand(run: Run, id: string, s: nat, t: nat)
    requires run.Valid() && s <= t <= |run.sweeps|
    requires IsBlocked(run.ViewAt(s, id).quota) && !IsBudgetBlock(run.ViewAt(s, id).quota)
    ensures run.ViewAt(t, id) == run.ViewAt(s, id) && run.QuietBetween(s, t, id)
    decreases t - s
  {
    hide Sweep.On, IsBlocked, IsOurs;
    if s < t {
      ProviderBlocksStand(run, id, s, t - 1);
      Continues(run, t - 1, id);
      ProviderBlocksAreLeftAlone(run.sweeps[t - 1], id, run.ViewAt(t - 1, id));
    }
  }

  lemma ProviderBlocksAreLeftAlone(sweep: Sweep, id: string, view: View)
    requires IsBlocked(view.quota) && !IsBudgetBlock(view.quota)
    ensures sweep.On(id, view) == (view, None)
  {
    hide Sweep.Covers, Evaluate;
  }
}
