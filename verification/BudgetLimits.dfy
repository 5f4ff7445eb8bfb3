/** Budget thresholds: how they are read from, and written to, a flat table of settings. */
module BudgetLimits {
  import opened Basics
  import Text

  const KEY_PREFIX: string := "budget."
  const U32_MAX: nat := 0xFFFF_FFFF

  datatype Window = FiveHour | SevenDay | Month {
    function Suffix(): string {
      match this
      case FiveHour => ".five_hour_pct"
      case SevenDay => ".seven_day_pct"
      case Month => ".month_pct"
    }

    function Label(): string {
      match this
      case FiveHour => "5-Stunden-Fenster"
      case SevenDay => "7-Tage-Fenster"
      case Month => "Monats-Fenster"
    }

    function LengthSecs(): int {
      match this
      case FiveHour => 5 * 60 * 60
      case SevenDay => 7 * 24 * 60 * 60
      case Month => 30 * 24 * 60 * 60
    }
  }

  function SettingKey(profileId: string, window: Window): string {
    KEY_PREFIX + profileId + window.Suffix()
  }

  /** One profile's thresholds on the two rate windows. */
  datatype Limits = Limits(profileId: string, fiveHourPct: Option<nat>, sevenDayPct: Option<nat>) {
    function Get(window: Window): Option<nat> {
      match window
      case FiveHour => fiveHourPct
      case SevenDay => sevenDayPct
      case Month => None
    }

    function Set(window: Window, percent: nat): Limits {
      match window
      case FiveHour => this.(fiveHourPct := Some(percent))
      case SevenDay => this.(sevenDayPct := Some(percent))
      case Month => this
    }
  }

  function NoLimits(profileId: string): Limits {
    Limits(profileId, None, None)
  }

  // ---- Percentages ----

  /** `str::parse::<u32>()`: an optional plus sign, then digits, within 32 bits. */
  function ParseU32(s: string): Option<nat> {
    var digits := if s != "" && s[0] == '+' then s[1..] else s;
    if digits == "" || !Text.AllDigits(digits) || Text.DigitsValue(digits) > U32_MAX then None
    else Some(Text.DigitsValue(digits))
  }

  /** A stored threshold: a whole percentage between 1 and 100. */
  function ParsePercent(raw: string): Option<nat> {
    match ParseU32(Text.Trim(raw))
    case None => None
    case Some(value) => if 1 <= value <= 100 then Some(value) else None
  }

  /** What `to_string` prints, `parse_percent` reads, if it is in range. */
  lemma PercentsReadBack(percent: nat)
    requires percent <= U32_MAX
    ensures ParsePercent(Text.Decimal(percent)) == if 1 <= percent <= 100 then Some(percent) else None
  {
    hide Text.Trim, Text.Decimal, Text.DigitsValue;
    Text.DecimalReadsBack(percent);
    var s := Text.Decimal(percent);
    DigitsAreTrimmed(s);
    assert s[0] in s;
  }

  lemma DigitsAreTrimmed(s: string)
    requires s != "" && Text.AllDigits(s)
    ensures Text.Trim(s) == s
  {
    hide Text.Trim;
    assert s[0] in s && s[|s| - 1] in s;
    Text.TrimYieldsTrimmed(s);
  }

  predicate IsZeros(s: string) {
    forall c | c in s :: c == '0'
  }

  lemma DigitsStep(front: string, c: char)
    requires Text.AllDigits(front) && Text.IsAsciiDigit(c)
    ensures Text.AllDigits(front + [c])
    ensures Text.DigitsValue(front + [c]) == Text.DigitsValue(front) * 10 + (c as int - '0' as int)
  {
    assert (front + [c])[..|front|] == front;
  }

  lemma {:induction false} ZerosAreWorthNothing(zeros: string)
    requires IsZeros(zeros)
    ensures Text.AllDigits(zeros) && Text.DigitsValue(zeros) == 0
  {
    if zeros != "" {
      var front := zeros[..|zeros| - 1];
      assert zeros[|zeros| - 1] in zeros && zeros == front + ['0'];
      assert forall c | c in front :: c in zeros;
      ZerosAreWorthNothing(front);
      DigitsStep(front, '0');
    }
  }

  lemma {:induction false} LeadingZerosChangeNothing(zeros: string, n: nat)
    requires IsZeros(zeros)
    ensures Text.AllDigits(zeros + Text.Decimal(n)) && Text.DigitsValue(zeros + Text.Decimal(n)) == n
    decreases n
  {
    var digit := ('0' as int + n % 10) as char;
    if n < 10 {
      ZerosAreWorthNothing(zeros);
      DigitsStep(zeros, digit);
    } else {
      LeadingZerosChangeNothing(zeros, n / 10);
      DigitsStep(zeros + Text.Decimal(n / 10), digit);
      assert zeros + Text.Decimal(n) == zeros + Text.Decimal(n / 10) + [digit];
    }
  }

  lemma DecimalStep(value: nat, c: char)
    requires Text.IsAsciiDigit(c)
    ensures var digit := c as int - '0' as int;
            && (value >= 1 ==> Text.Decimal(value * 10 + digit) == Text.Decimal(value) + [c])
            && Text.Decimal(digit) == [c]
  {
    var digit := c as int - '0' as int;
    assert (value * 10 + digit) / 10 == value && (value * 10 + digit) % 10 == digit;
  }

  /** A digit string is the decimal of its value, with zeros before it. */
  lemma {:induction false} DigitsAreADecimal(s: string) returns (zeros: string)
    requires Text.AllDigits(s) && Text.DigitsValue(s) >= 1
    ensures IsZeros(zeros) && s == zeros + Text.Decimal(Text.DigitsValue(s))
    decreases |s|
  {
    hide Text.Decimal, Text.DigitsValue, Text.AllDigits, IsZeros;
    var front, c := LastDigit(s);
    DigitsStep(front, c);
    var value := Text.DigitsValue(front);
    DecimalStep(value, c);
    if value >= 1 {
      zeros := DigitsAreADecimal(front);
      ConcatAgain(zeros, Text.Decimal(value), [c]);
    } else {
      zeros := front;
      WorthNothingIsZeros(front);
    }
  }

  lemma ConcatAgain(a: string, b: string, c: string)
    ensures a + b + c == a + (b + c)
  {}

  lemma LastDigit(s: string) returns (front: string, c: char)
    requires Text.AllDigits(s) && Text.DigitsValue(s) >= 1
    ensures |front| < |s| && s == front + [c] && Text.AllDigits(front) && Text.IsAsciiDigit(c)
  {
    front, c := s[..|s| - 1], s[|s| - 1];
    assert c in s && s == front + [c];
    assert forall d | d in front :: d in s;
  }

  lemma {:induction false} WorthNothingIsZeros(s: string)
    requires Text.AllDigits(s) && Text.DigitsValue(s) == 0
    ensures IsZeros(s)
  {
    if s != "" {
      var front, c := s[..|s| - 1], s[|s| - 1];
      assert c in s && s == front + [c];
      assert forall d | d in front :: d in s;
      DigitsStep(front, c);
      WorthNothingIsZeros(front);
    }
  }

  /** Whitespace, at most one plus sign, zeros, the decimal of `n`, and whitespace again. */
  ghost predicate Spells(raw: string, n: nat) {
    exists left, sign, zeros, right ::
      && Text.AllWhitespace(left) && (sign == "" || sign == "+") && IsZeros(zeros) && Text.AllWhitespace(right)
      && SpellsWith(raw, left, sign, zeros, n, right)
  }

  predicate SpellsWith(raw: string, left: string, sign: string, zeros: string, n: nat, right: string) {
    raw == left + (sign + (zeros + Text.Decimal(n))) + right
  }

  /** A text is read as a percentage exactly if it spells one between 1 and 100, and nothing else. */
  lemma PercentsAreReadExactly(raw: string, n: nat)
    ensures ParsePercent(raw) == Some(n) <==> 1 <= n <= 100 && Spells(raw, n)
  {
    hide Text.Trim, Text.Decimal, Text.DigitsValue, Text.IsWhitespace;
    if ParsePercent(raw) == Some(n) {
      var left, right := Text.TrimDropsWhitespace(raw);
      var s := Text.Trim(raw);
      var sign, digits := if s[0] == '+' then "+" else "", if s[0] == '+' then s[1..] else s;
      var zeros := DigitsAreADecimal(digits);
      assert s == sign + (zeros + Text.Decimal(n));
      assert SpellsWith(raw, left, sign, zeros, n, right);
    }
    if 1 <= n <= 100 && Spells(raw, n) {
      var left, sign, zeros, right :|
        && Text.AllWhitespace(left) && (sign == "" || sign == "+") && IsZeros(zeros) && Text.AllWhitespace(right)
        && SpellsWith(raw, left, sign, zeros, n, right);
      SpelledIsRead(raw, left, sign, zeros, n, right);
    }
  }

  lemma SpelledIsRead(raw: string, left: string, sign: string, zeros: string, n: nat, right: string)
    requires 1 <= n <= 100 && SpellsWith(raw, left, sign, zeros, n, right)
    requires Text.AllWhitespace(left) && (sign == "" || sign == "+") && IsZeros(zeros) && Text.AllWhitespace(right)
    ensures ParsePercent(raw) == Some(n)
  {
    LeadingZerosChangeNothing(zeros, n);
    Text.DecimalReadsBack(n);
    hide Text.Decimal, Text.DigitsValue, Text.AllWhitespace, Text.AllDigits, IsZeros, ParsePercent;
    DigitsBetweenSpaces(left, sign, zeros + Text.Decimal(n), n, right);
  }

  lemma DigitsBetweenSpaces(left: string, sign: string, digits: string, n: nat, right: string)
    requires 1 <= n <= 100 && digits != "" && Text.AllDigits(digits) && Text.DigitsValue(digits) == n
    requires Text.AllWhitespace(left) && (sign == "" || sign == "+") && Text.AllWhitespace(right)
    ensures ParsePercent(left + (sign + digits) + right) == Some(n)
  {
    hide Text.Trim, Text.AllWhitespace, Text.DigitsValue;
    SignedDigitsAreTrimmed(sign, digits);
    Text.TrimIsExactly(left, sign + digits, right);
    SignedDigitsParse(sign, digits, n);
    hide ParseU32, Text.IsTrimmed, Text.AllDigits;
  }

  lemma SignedDigitsAreTrimmed(sign: string, digits: string)
    requires (sign == "" || sign == "+") && digits != "" && Text.AllDigits(digits)
    ensures Text.IsTrimmed(sign + digits)
  {
    assert digits[0] in digits && digits[|digits| - 1] in digits;
    assert (sign + digits)[|sign + digits| - 1] == digits[|digits| - 1];
  }

  lemma SignedDigitsParse(sign: string, digits: string, n: nat)
    requires (sign == "" || sign == "+") && digits != "" && Text.AllDigits(digits)
    requires Text.DigitsValue(digits) == n <= U32_MAX
    ensures ParseU32(sign + digits) == Some(n)
  {
    hide Text.DigitsValue;
    assert digits[0] in digits;
    if sign == "+" {
      assert (sign + digits)[1..] == digits;
    } else {
      assert sign + digits == digits;
    }
  }

  // ---- Keys ----

  /** Which profile and rate window a settings key is about. */
  function Classify(key: string): Option<(string, Window)> {
    match Text.StripPrefix(key, KEY_PREFIX)
    case None => None
    case Some(rest) =>
      match Text.StripSuffix(rest, FiveHour.Suffix())
      case Some(id) => Some((id, FiveHour))
      case None =>
        match Text.StripSuffix(rest, SevenDay.Suffix())
        case Some(id) => Some((id, SevenDay))
        case None => None
  }

  lemma SuffixOfKey(profileId: string, window: Window)
    ensures var key := SettingKey(profileId, window);
            && Text.StripPrefix(key, KEY_PREFIX) == Some(profileId + window.Suffix())
            && Text.StripSuffix(profileId + window.Suffix(), window.Suffix()) == Some(profileId)
  {
    var suffix := window.Suffix();
    assert SettingKey(profileId, window) == KEY_PREFIX + (profileId + suffix);
    hide Window.Suffix, SettingKey, Text.StripPrefix, Text.StripSuffix;
    StrippingUndoesAppending(KEY_PREFIX, profileId + suffix);
    StrippingUndoesAppending(profileId, suffix);
  }

  lemma StrippingUndoesAppending(a: string, b: string)
    ensures Text.StripPrefix(a + b, a) == Some(b) && Text.StripSuffix(a + b, b) == Some(a)
  {
    assert (a + b)[|a|..] == b && (a + b)[..|a|] == a;
  }

  /** The last character but four tells the windows apart: "hour", "day" and "month" end differently. */
  lemma SuffixesDiffer(profileId: string, window: Window)
    ensures var rest := profileId + window.Suffix();
            rest[|rest| - 5] == (match window case FiveHour => 'r' case SevenDay => 'y' case Month => 'h')
  {}

  /** A key names one profile and one window only. */
  lemma SettingKeysAreInjective(a: string, v: Window, b: string, w: Window)
    requires SettingKey(a, v) == SettingKey(b, w)
    ensures a == b && v == w
  {
    SuffixOfKey(a, v);
    SuffixOfKey(b, w);
    SuffixesDiffer(a, v);
    SuffixesDiffer(b, w);
  }

  /** A key's rest ends in the suffix of its own window only. */
  lemma OnlyItsOwnSuffix(profileId: string, window: Window, other: Window)
    requires Text.HasSuffix(profileId + window.Suffix(), other.Suffix())
    ensures window == other
  {
    var rest := profileId + window.Suffix();
    var front := rest[..|rest| - |other.Suffix()|];
    assert rest == front + other.Suffix();
    SuffixesDiffer(profileId, window);
    SuffixesDiffer(front, other);
  }

  lemma KeysClassify(profileId: string, window: Window)
    ensures Classify(SettingKey(profileId, window)) == if window == Month then None else Some((profileId, window))
  {
    hide Text.HasSuffix;
    SuffixOfKey(profileId, window);
    var rest := profileId + window.Suffix();
    forall other: Window | Text.HasSuffix(rest, other.Suffix()) ensures window == other {
      OnlyItsOwnSuffix(profileId, window, other);
    }
  }

  /** Classifying inverts `SettingKey` on the two rate windows, and accepts nothing else. */
  lemma ClassifyInvertsSettingKey(key: string, profileId: string, window: Window)
    ensures Classify(key) == Some((profileId, window)) <==>
              key == SettingKey(profileId, window) && (window == FiveHour || window == SevenDay)
  {
    KeysClassify(profileId, window);
    if Classify(key) == Some((profileId, window)) {
      hide SettingKey, Text.HasPrefix, Text.HasSuffix;
      var rest := Text.StripPrefix(key, KEY_PREFIX).value;
      assert Text.StripSuffix(rest, window.Suffix()) == Some(profileId) && window != Month;
      KeyFromItsParts(key, rest, profileId, window);
    }
  }

  lemma KeyFromItsParts(key: string, rest: string, profileId: string, window: Window)
    requires Text.StripPrefix(key, KEY_PREFIX) == Some(rest)
    requires Text.StripSuffix(rest, window.Suffix()) == Some(profileId)
    ensures key == SettingKey(profileId, window)
  {
    var suffix := window.Suffix();
    assert key == KEY_PREFIX + rest;
    assert rest == profileId + suffix;
  }

  // ---- Folding a list of settings ----

  type Settings = seq<(string, string)>

  /** The last readable value listed for a key. */
  function LastReadable(settings: Settings, key: string): Option<nat> {
    if settings == [] then None
    else
      var (k, value) := settings[|settings| - 1];
      if k == key && ParsePercent(value).Some? then ParsePercent(value)
      else LastReadable(settings[..|settings| - 1], key)
  }

  /** The value that counts is that of the last listed pair of the key that is readable at all. */
  lemma {:induction false} TheLastReadableCounts(settings: Settings, key: string, percent: nat)
    ensures LastReadable(settings, key) == Some(percent) <==>
              exists i | 0 <= i < |settings| ::
                settings[i].0 == key && ParsePercent(settings[i].1) == Some(percent) && NoneReadableAfter(settings, key, i)
  {
    hide ParsePercent;
    if settings != [] {
      var front, last := settings[..|settings| - 1], |settings| - 1;
      TheLastReadableCounts(front, key, percent);
      if settings[last].0 == key && ParsePercent(settings[last].1).Some? {
        assert NoneReadableAfter(settings, key, last);
        forall i | 0 <= i < last ensures !NoneReadableAfter(settings, key, i) {}
      } else {
        forall i | 0 <= i < last ensures NoneReadableAfter(settings, key, i) <==> NoneReadableAfter(front, key, i) {
          assert NoneReadableAfter(front, key, i) ==> forall j | i < j < last :: settings[j] == front[j];
          assert NoneReadableAfter(settings, key, i) ==> forall j | i < j < last :: front[j] == settings[j];
        }
      }
    }
  }

  predicate NoneReadableAfter(settings: Settings, key: string, i: nat) {
    forall j | i < j < |settings| && settings[j].0 == key :: ParsePercent(settings[j].1).None?
  }

  ghost predicate UniqueProfiles(rows: seq<Limits>) {
    forall i, j | 0 <= i < j < |rows| :: rows[i].profileId != rows[j].profileId
  }

  /** The rows say exactly what the settings say, and no row says nothing. */
  ghost predicate Folds(settings: Settings, rows: seq<Limits>) {
    && UniqueProfiles(rows)
    && (forall row | row in rows :: row.profileId != "" && (row.fiveHourPct.Some? || row.sevenDayPct.Some?))
    && (forall row | row in rows :: RowAgrees(settings, row))
    && (forall id | id != "" && !Listed(rows, id) :: RowAgrees(settings, NoLimits(id)))
  }

  ghost predicate RowAgrees(settings: Settings, row: Limits) {
    && row.fiveHourPct == LastReadable(settings, SettingKey(row.profileId, FiveHour))
    && row.sevenDayPct == LastReadable(settings, SettingKey(row.profileId, SevenDay))
  }

  ghost predicate Listed(rows: seq<Limits>, profileId: string) {
    exists row :: row in rows && row.profileId == profileId
  }

  /** The position of the profile's entry, or the end of the list. */
  method FindEntry(rows: seq<Limits>, profileId: string) returns (k: nat)
    ensures k <= |rows|
    ensures forall j | 0 <= j < k :: rows[j].profileId != profileId
    ensures k < |rows| ==> rows[k].profileId == profileId
  {
    k := 0;
    while k < |rows| && rows[k].profileId != profileId
      invariant k <= |rows|
      invariant forall j | 0 <= j < k :: rows[j].profileId != profileId
    {
      k := k + 1;
    }
  }

  lemma LastReadableStep(settings: Settings, key: string, value: string, k: string)
    ensures LastReadable(settings + [(key, value)], k) ==
            if k == key && ParsePercent(value).Some? then ParsePercent(value) else LastReadable(settings, k)
  {
    assert (settings + [(key, value)])[..|settings|] == settings;
  }

  /** A setting that names no profile and rate window, or is unreadable, changes no row. */
  lemma SkippingKeepsFolds(settings: Settings, rows: seq<Limits>, key: string, value: string)
    requires Folds(settings, rows)
    requires Classify(key).None? || Classify(key).value.0 == "" || ParsePercent(value).None?
    ensures Folds(settings + [(key, value)], rows)
  {
    forall id, window: Window | id != "" && window != Month
      ensures LastReadable(settings + [(key, value)], SettingKey(id, window)) ==
              LastReadable(settings, SettingKey(id, window))
    {
      LastReadableStep(settings, key, value, SettingKey(id, window));
      ClassifyInvertsSettingKey(key, id, window);
    }
  }

  /** A readable setting changes the row of its profile, in its window only. */
  lemma SettingKeepsFolds(
    settings: Settings, rows: seq<Limits>, key: string, value: string, id: string, window: Window, k: nat)
    requires Folds(settings, rows) && id != ""
    requires Classify(key) == Some((id, window)) && ParsePercent(value).Some?
    requires k <= |rows| && (forall j | 0 <= j < k :: rows[j].profileId != id)
    requires k < |rows| ==> rows[k].profileId == id
    ensures var rows' := if k < |rows| then rows else rows + [NoLimits(id)];
            Folds(settings + [(key, value)], rows'[k := rows'[k].Set(window, ParsePercent(value).value)])
  {
    hide LastReadable, ParsePercent, Classify, SettingKey, Text.StripPrefix, Text.StripSuffix;
    ClassifyInvertsSettingKey(key, id, window);
    var listed := if k < |rows| then rows else rows + [NoLimits(id)];
    var rows' := listed[k := listed[k].Set(window, ParsePercent(value).value)];
    var settings' := settings + [(key, value)];
    forall other, w: Window ensures
      LastReadable(settings', SettingKey(other, w)) ==
        if other == id && w == window then ParsePercent(value) else LastReadable(settings, SettingKey(other, w))
    {
      LastReadableStep(settings, key, value, SettingKey(other, w));
      if SettingKey(other, w) == key {
        SettingKeysAreInjective(other, w, id, window);
      }
    }
    forall j | 0 <= j < |rows'| ensures RowAgrees(settings', rows'[j]) {
      assert j < |rows| ==> rows[j] in rows;
    }
    assert rows'[k].profileId == id;
    forall other | Listed(rows, other) ensures Listed(rows', other) {
      var row :| row in rows && row.profileId == other;
      var j :| 0 <= j < |rows| && rows[j] == row;
      assert rows'[j].profileId == other;
    }
    forall other | other != "" && !Listed(rows', other) ensures RowAgrees(settings', NoLimits(other)) {
      assert other != id && !Listed(rows, other);
    }
    forall row | row in rows'
      ensures row.profileId != "" && (row.fiveHourPct.Some? || row.sevenDayPct.Some?) && RowAgrees(settings', row)
    {
      var j :| 0 <= j < |rows'| && rows'[j] == row;
      assert j < |rows| ==> rows[j] in rows;
    }
  }

  ghost predicate SortedByProfile(rows: seq<Limits>) {
    forall i, j | 0 <= i < j < |rows| :: Text.StringLess(rows[i].profileId, rows[j].profileId)
  }

  lemma FoldsOfPermutation(settings: Settings, rows: seq<Limits>, rows': seq<Limits>)
    requires Folds(settings, rows) && multiset(rows) == multiset(rows') && UniqueProfiles(rows')
    ensures Folds(settings, rows')
  {
    forall row ensures row in rows <==> row in rows' {
      assert row in rows <==> row in multiset(rows);
      assert row in rows' <==> row in multiset(rows');
    }
    forall id | !Listed(rows', id) ensures !Listed(rows, id) {}
  }

  /** Insert a row before everyone it precedes. */
  method InsertRow(rows: seq<Limits>, row: Limits) returns (r: seq<Limits>)
    requires SortedByProfile(rows) && forall x | x in rows :: x.profileId != row.profileId
    ensures SortedByProfile(r) && multiset(r) == multiset(rows) + multiset{row}
  {
    var k: nat := 0;
    while k < |rows| && Text.StringLess(rows[k].profileId, row.profileId)
      invariant k <= |rows|
      invariant forall j | 0 <= j < k :: Text.StringLess(rows[j].profileId, row.profileId)
    {
      k := k + 1;
    }
    r := rows[..k] + [row] + rows[k..];
    assert rows == rows[..k] + rows[k..];
    forall j | k <= j < |rows| ensures Text.StringLess(row.profileId, rows[j].profileId) {
      Text.StringLessIsTotal(row.profileId, rows[k].profileId);
      assert rows[k] in rows;
      if k < j {
        Text.StringLessIsTransitive(row.profileId, rows[k].profileId, rows[j].profileId);
      }
    }
    InsertingKeepsSorted(rows, row, k);
  }

  lemma InsertingKeepsSorted(rows: seq<Limits>, row: Limits, k: nat)
    requires SortedByProfile(rows) && k <= |rows|
    requires forall j | 0 <= j < k :: Text.StringLess(rows[j].profileId, row.profileId)
    requires forall j | k <= j < |rows| :: Text.StringLess(row.profileId, rows[j].profileId)
    ensures SortedByProfile(rows[..k] + [row] + rows[k..])
  {
    hide Text.StringLess;
    var r := rows[..k] + [row] + rows[k..];
    forall i, j | 0 <= i < j < |r| ensures Text.StringLess(r[i].profileId, r[j].profileId) {
      assert j > k ==> r[j] == rows[j - 1];
      assert i > k ==> r[i] == rows[i - 1];
    }
  }

  method SortRows(rows: seq<Limits>) returns (r: seq<Limits>)
    requires UniqueProfiles(rows)
    ensures SortedByProfile(r) && multiset(r) == multiset(rows)
  {
    r := [];
    for i := 0 to |rows|
      invariant SortedByProfile(r) && multiset(r) == multiset(rows[..i])
    {
      forall x | x in r ensures x.profileId != rows[i].profileId {
        assert x in multiset(r);
        assert x in rows[..i];
      }
      assert rows[..i + 1] == rows[..i] + [rows[i]];
      r := InsertRow(r, rows[i]);
    }
    assert rows[..|rows|] == rows;
  }

  lemma SortedIsUnique(rows: seq<Limits>)
    requires SortedByProfile(rows)
    ensures UniqueProfiles(rows)
  {
    forall i, j | 0 <= i < j < |rows| ensures rows[i].profileId != rows[j].profileId {
      Text.StringLessIsTotal(rows[i].profileId, rows[j].profileId);
    }
  }

  /** Fold a flat list into one entry per profile; the later readable value of a key wins. */
  method LimitsFromSettings(settings: Settings) returns (rows: seq<Limits>)
    ensures Folds(settings, rows) && SortedByProfile(rows)
  {
    var out: seq<Limits> := [];
    for i := 0 to |settings|
      invariant Folds(settings[..i], out)
    {
      hide Folds, Classify, ParsePercent;
      var (key, value) := settings[i];
      assert settings[..i + 1] == settings[..i] + [(key, value)];
      var classified := Classify(key);
      if classified.None? || classified.value.0 == "" {
        SkippingKeepsFolds(settings[..i], out, key, value);
        continue;
      }
      var (profileId, window) := classified.value;
      var percent := ParsePercent(value);
      if percent.None? {
        SkippingKeepsFolds(settings[..i], out, key, value);
        continue;
      }
      var k := FindEntry(out, profileId);
      SettingKeepsFolds(settings[..i], out, key, value, profileId, window, k);
      if k == |out| {
        out := out + [NoLimits(profileId)];
      }
      out := out[k := out[k].Set(window, percent.value)];
    }
    assert settings[..|settings|] == settings;
    rows := SortRows(out);
    SortedIsUnique(rows);
    FoldsOfPermutation(settings, out, rows);
  }
}
