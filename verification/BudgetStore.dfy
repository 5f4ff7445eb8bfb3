/**
 The settings table behind the budget thresholds: the two ways of reading it agree, and writing one
 threshold changes that threshold only.
 */
module BudgetStores {
  import opened Basics
  import opened BudgetLimits
  import Text

  type Table = map<string, string>

  datatype LimitError = ProfileIdRequired | NotAPercentage | UnknownProfile

  // ---- Reading ----

  /** The listing holds each pair under the prefix once, in key order: what the table's query yields. */
  ghost predicate Lists(table: Table, prefix: string, listing: Settings) {
    && (forall i | 0 <= i < |listing| ::
          Text.HasPrefix(listing[i].0, prefix) && listing[i].0 in table && table[listing[i].0] == listing[i].1)
    && (forall i, j | 0 <= i < j < |listing| :: Text.StringLess(listing[i].0, listing[j].0))
    && (forall key | key in table && Text.HasPrefix(key, prefix) :: (key, table[key]) in listing)
  }

  function ReadLimit(table: Table, key: string): Option<nat> {
    if key in table then ParsePercent(table[key]) else None
  }

  function LimitsIn(table: Table, profileId: string): Limits {
    Limits(profileId, ReadLimit(table, SettingKey(profileId, FiveHour)), ReadLimit(table, SettingKey(profileId, SevenDay)))
  }

  /** What a list of rows says about a profile; a missing row says that there is no limit. */
  ghost function RowOf(rows: seq<Limits>, profileId: string): Limits {
    if Listed(rows, profileId) then
      var row :| row in rows && row.profileId == profileId; row
    else NoLimits(profileId)
  }

  lemma {:induction false} ListedValueIsLastReadable(listing: Settings, key: string, i: nat)
    requires i < |listing| && listing[i].0 == key
    requires forall j | 0 <= j < |listing| && j != i :: listing[j].0 != key
    ensures LastReadable(listing, key) == ParsePercent(listing[i].1)
  {
    var front := listing[..|listing| - 1];
    if i == |listing| - 1 {
      UnlistedIsUnread(front, key);
    } else {
      ListedValueIsLastReadable(front, key, i);
    }
  }

  lemma {:induction false} UnlistedIsUnread(listing: Settings, key: string)
    requires forall j | 0 <= j < |listing| :: listing[j].0 != key
    ensures LastReadable(listing, key) == None
  {
    if listing != [] {
      UnlistedIsUnread(listing[..|listing| - 1], key);
    }
  }

  lemma ListingReadsTheTable(table: Table, listing: Settings, key: string)
    requires Lists(table, KEY_PREFIX, listing) && Text.HasPrefix(key, KEY_PREFIX)
    ensures LastReadable(listing, key) == ReadLimit(table, key)
  {
    if key in table {
      var i :| 0 <= i < |listing| && listing[i] == (key, table[key]);
      forall j | 0 <= j < |listing| && j != i ensures listing[j].0 != key {
        Text.StringLessIsTotal(listing[j].0, listing[i].0);
        assert j < i || i < j;
      }
      ListedValueIsLastReadable(listing, key, i);
    } else {
      UnlistedIsUnread(listing, key);
    }
  }

  /** Folding the whole listing and looking the keys up one by one give every profile the same limits. */
  lemma BothViewsAgree(table: Table, listing: Settings, rows: seq<Limits>, profileId: string)
    requires Lists(table, KEY_PREFIX, listing) && Folds(listing, rows) && profileId != ""
    ensures RowOf(rows, profileId) == LimitsIn(table, profileId)
    ensures Listed(rows, profileId) <==> LimitsIn(table, profileId) != NoLimits(profileId)
  {
    forall window: Window
      ensures LastReadable(listing, SettingKey(profileId, window)) == ReadLimit(table, SettingKey(profileId, window))
    {
      ListingReadsTheTable(table, listing, SettingKey(profileId, window));
    }
  }

  // ---- Writing ----

  predicate ValidLimit(percent: Option<Byte>) {
    percent.Some? ==> 1 <= percent.value <= 100
  }

  function Stored(percent: Option<Byte>): Option<nat> {
    match percent
    case None => None
    case Some(p) => Some(p as nat)
  }

  /** The table after one threshold is written or cleared. */
  function AfterSet(table: Table, profileId: string, window: Window, percent: Option<Byte>)
    : Result<Table, LimitError>
  {
    if Text.IsBlank(profileId) then Failure(ProfileIdRequired)
    else
      var key := SettingKey(profileId, window);
      match percent
      case None => Success(table - {key})
      case Some(p) =>
        match ParsePercent(Text.Decimal(p as nat))
        case None => Failure(NotAPercentage)
        case Some(value) => Success(table[key := Text.Decimal(value)])
  }

  /** Setting a threshold succeeds exactly for a named profile and a valid value, and every other key keeps its value. */
  lemma SetLimitChangesOnlyItsKey(table: Table, profileId: string, window: Window, percent: Option<Byte>)
    ensures var r := AfterSet(table, profileId, window, percent);
            && (r.Success? <==> !Text.IsBlank(profileId) && ValidLimit(percent))
            && (r.Success? ==>
                  && ReadLimit(r.value, SettingKey(profileId, window)) == Stored(percent)
                  && (forall other, w: Window | other != profileId || w != window ::
                        ReadLimit(r.value, SettingKey(other, w)) == ReadLimit(table, SettingKey(other, w)))
                  && (forall key | key != SettingKey(profileId, window) ::
                        (key in r.value <==> key in table) && (key in table ==> r.value[key] == table[key])))
  {
    if percent.Some? {
      PercentsReadBack(percent.value as nat);
    }
    forall other, w: Window | other != profileId || w != window
      ensures SettingKey(other, w) != SettingKey(profileId, window)
    {
      if SettingKey(other, w) == SettingKey(profileId, window) {
        SettingKeysAreInjective(other, w, profileId, window);
      }
    }
  }

  /** In the folded listing too, only the profile's own row changes, and only in the window written. */
  lemma SetLimitChangesOnlyItsRow(
    table: Table, profileId: string, window: Window, percent: Option<Byte>,
    listing: Settings, rows: seq<Limits>, listing': Settings, rows': seq<Limits>, other: string)
    requires AfterSet(table, profileId, window, percent).Success? && other != ""
    requires Lists(table, KEY_PREFIX, listing) && Folds(listing, rows)
    requires Lists(AfterSet(table, profileId, window, percent).value, KEY_PREFIX, listing') && Folds(listing', rows')
    ensures RowOf(rows', other) ==
            if other != profileId then RowOf(rows, other)
            else match window
                 case FiveHour => RowOf(rows, other).(fiveHourPct := Stored(percent))
                 case SevenDay => RowOf(rows, other).(sevenDayPct := Stored(percent))
                 case Month => RowOf(rows, other)
  {
    hide Lists, Folds, ParsePercent, SettingKey, ReadLimit;
    var table' := AfterSet(table, profileId, window, percent).value;
    SetLimitChangesOnlyItsKey(table, profileId, window, percent);
    BothViewsAgree(table, listing, rows, other);
    BothViewsAgree(table', listing', rows', other);
  }

  // ---- Writing both windows ----

  type Change = Option<Option<Byte>>

  function AfterChange(table: Table, profileId: string, window: Window, change: Change): Result<Table, LimitError> {
    match change
    case None => Success(table)
    case Some(percent) => AfterSet(table, profileId, window, percent)
  }

  /** The table after both windows were written, one after the other, and the answer. */
  function AfterUpdate(known: set<string>, table: Table, profileId: string, fiveHour: Change, sevenDay: Change)
    : (Table, Result<Limits, LimitError>)
  {
    if profileId !in known then (table, Failure(UnknownProfile))
    else
      match AfterChange(table, profileId, FiveHour, fiveHour)
      case Failure(error) => (table, Failure(error))
      case Success(first) =>
        match AfterChange(first, profileId, SevenDay, sevenDay)
        case Failure(error) => (first, Failure(error))
        case Success(second) => (second, Success(LimitsIn(second, profileId)))
  }

  predicate ValidChange(profileId: string, change: Change) {
    change.Some? ==> !Text.IsBlank(profileId) && ValidLimit(change.value)
  }

  /** Writing the change to the table would make a difference. */
  predicate MakesADifference(table: Table, key: string, change: Change) {
    match change
    case None => false
    case Some(None) => key in table
    case Some(Some(p)) => key !in table || table[key] != Text.Decimal(p as nat)
  }

  /** An accepted update answers with each window as asked, or as it was, and touches no other profile. */
  lemma AcceptedUpdateDoesWhatWasAsked(
    known: set<string>, table: Table, profileId: string, fiveHour: Change, sevenDay: Change)
    ensures var (table', r) := AfterUpdate(known, table, profileId, fiveHour, sevenDay);
            && (r.Success? <==>
                  profileId in known && ValidChange(profileId, fiveHour) && ValidChange(profileId, sevenDay))
            && (r.Success? ==>
                  && r.value == LimitsIn(table', profileId)
                  && r.value.fiveHourPct ==
                     (if fiveHour.Some? then Stored(fiveHour.value) else LimitsIn(table, profileId).fiveHourPct)
                  && r.value.sevenDayPct ==
                     (if sevenDay.Some? then Stored(sevenDay.value) else LimitsIn(table, profileId).sevenDayPct))
            && (forall other | other != profileId :: LimitsIn(table', other) == LimitsIn(table, other))
  {
    hide ParsePercent, SettingKey, ReadLimit, Text.IsBlank;
    if fiveHour.Some? {
      SetLimitChangesOnlyItsKey(table, profileId, FiveHour, fiveHour.value);
    }
    if sevenDay.Some? && AfterChange(table, profileId, FiveHour, fiveHour).Success? {
      SetLimitChangesOnlyItsKey(
        AfterChange(table, profileId, FiveHour, fiveHour).value, profileId, SevenDay, sevenDay.value);
    }
  }

  /**
   A refused update is not all or nothing: it leaves a change behind exactly when the profile is known, the
   five-hour change is valid and makes a difference, and the seven-day value is the invalid one.
   */
  lemma RefusedUpdateChangesNothingIff(
    known: set<string>, table: Table, profileId: string, fiveHour: Change, sevenDay: Change)
    requires AfterUpdate(known, table, profileId, fiveHour, sevenDay).1.Failure?
    ensures AfterUpdate(known, table, profileId, fiveHour, sevenDay).0 == table <==>
            !(&& profileId in known && ValidChange(profileId, fiveHour)
              && MakesADifference(table, SettingKey(profileId, FiveHour), fiveHour))
  {
    hide SettingKey, Text.IsBlank;
    var key := SettingKey(profileId, FiveHour);
    if fiveHour.Some? {
      SetLimitChangesOnlyItsKey(table, profileId, FiveHour, fiveHour.value);
      if fiveHour.value.Some? {
        PercentsReadBack(fiveHour.value.value as nat);
        hide ParsePercent;
        assert ValidChange(profileId, fiveHour) ==> table[key := Text.Decimal(fiveHour.value.value as nat)][key]
                                                    == Text.Decimal(fiveHour.value.value as nat);
      } else if ValidChange(profileId, fiveHour) {
        assert key !in table ==> table - {key} == table;
      }
    }
  }

  /** Asking for 90 % of five hours and 200 % of seven days is refused, and the 90 % stay. */
  lemma AHalfWrittenUpdate()
    ensures var (table, r) := AfterUpdate({"claude"}, map[], "claude", Some(Some(90)), Some(Some(200)));
            r == Failure(NotAPercentage) && LimitsIn(table, "claude") == Limits("claude", Some(90), None)
  {
    SetLimitChangesOnlyItsKey(map[], "claude", FiveHour, Some(90));
    assert AfterSet(map[], "claude", FiveHour, Some(90)).Success?;
    var first := AfterSet(map[], "claude", FiveHour, Some(90)).value;
    SetLimitChangesOnlyItsKey(first, "claude", SevenDay, Some(200));
    PercentsReadBack(200);
  }

  // ---- The store ----

  class SettingsStore {
    var table: Table

    constructor ()
      ensures table == map[]
    {
      table := map[];
    }

    method SetLimit(profileId: string, window: Window, percent: Option<Byte>) returns (r: Outcome<LimitError>)
      modifies this
      ensures match AfterSet(old(table), profileId, window, percent)
              case Success(table') => r == Pass && table == table'
              case Failure(error) => r == Fail(error) && table == old(table)
    {
      if Text.IsBlank(profileId) {
        return Fail(ProfileIdRequired);
      }
      var key := SettingKey(profileId, window);
      match percent
      case None =>
        table := table - {key};
        return Pass;
      case Some(p) =>
        var value := ParsePercent(Text.Decimal(p as nat));
        if value.None? {
          return Fail(NotAPercentage);
        }
        table := table[key := Text.Decimal(value.value)];
        return Pass;
    }

    /** One profile's thresholds, looked up key by key. */
    method LimitsOf(profileId: string) returns (limits: Limits)
      ensures limits == LimitsIn(table, profileId)
    {
      limits := NoLimits(profileId);
      var windows := [FiveHour, SevenDay];
      for i := 0 to 2
        invariant limits.profileId == profileId
        invariant limits.fiveHourPct == if i >= 1 then LimitsIn(table, profileId).fiveHourPct else None
        invariant limits.sevenDayPct == if i >= 2 then LimitsIn(table, profileId).sevenDayPct else None
      {
        var key := SettingKey(profileId, windows[i]);
        if key !in table {
          continue;
        }
        var percent := ParsePercent(table[key]);
        if percent.None? {
          continue;
        }
        limits := limits.Set(windows[i], percent.value);
      }
    }

    method MonthLimitOf(profileId: string) returns (percent: Option<nat>)
      ensures percent == ReadLimit(table, SettingKey(profileId, Month))
    {
      var key := SettingKey(profileId, Month);
      percent := None;
      if key in table {
        percent := ParsePercent(table[key]);
      }
    }

    /** Write both windows of a profile in the registry, and answer with what is stored afterwards. */
    method UpdateLimits(known: set<string>, profileId: string, fiveHour: Change, sevenDay: Change)
      returns (r: Result<Limits, LimitError>)
      modifies this
      ensures (table, r) == AfterUpdate(known, old(table), profileId, fiveHour, sevenDay)
    {
      if profileId !in known {
        return Failure(UnknownProfile);
      }
      if fiveHour.Some? {
        var written := SetLimit(profileId, FiveHour, fiveHour.value);
        if written.Fail? {
          return Failure(written.error);
        }
      }
      if sevenDay.Some? {
        var written := SetLimit(profileId, SevenDay, sevenDay.value);
        if written.Fail? {
          return Failure(written.error);
        }
      }
      var limits := LimitsOf(profileId);
      r := Success(limits);
    }
  }
}
