/** What the limiter guarantees over any sequence of reports whose clock does not run backwards. */
module ErrorLogRuns {
  import opened Basics
  import opened ErrorFields
  import opened ErrorLogs

  /** What an observer of the log has seen: ERROR lines with their times, FEEDBACK times, and counts. */
  datatype Observed = Observed(errors: seq<Entry>, feedbacks: seq<nat>, reports: nat, summarized: nat)

  const NOTHING: Observed := Observed([], [], 0, 0)

  function ObserveLine(o: Observed, now: nat, line: Line): Observed {
    match line
    case ErrorLine(message, _, _) => o.(errors := o.errors + [Entry(now, Some(message))])
    case FeedbackLine(_, _, _, _) => o.(feedbacks := o.feedbacks + [now])
    case SummaryLine(n) => o.(errors := o.errors + [Entry(now, None)], summarized := o.summarized + n)
  }

  function Observe(o: Observed, now: nat, lines: seq<Line>): Observed
    decreases |lines|
  {
    if lines == [] then o else Observe(ObserveLine(o, now, lines[0]), now, lines[1..])
  }

  /** One report and its lines, as observed. Only reports that are no feedback are counted. */
  function Noticed(o: Observed, now: nat, report: Report, lines: seq<Line>): Observed {
    var o' := Observe(o, now, lines);
    if report.feedback.None? then o'.(reports := o'.reports + 1) else o'
  }

  datatype Call = Call(now: nat, report: Report)

  datatype Run = Run(redact: string -> string, calls: seq<Call>) {
    predicate ClockRises() {
      forall i, j | 0 <= i <= j < |calls| :: calls[i].now <= calls[j].now
    }

    function StateAfter(k: nat): Limiter
      requires k <= |calls|
    {
      if k == 0 then FRESH else Written(calls[k - 1].now, StateAfter(k - 1), calls[k - 1].report, redact).0
    }

    function LinesOf(k: nat): seq<Line>
      requires k < |calls|
    {
      Written(calls[k].now, StateAfter(k), calls[k].report, redact).1
    }

    function ObservedAfter(k: nat): Observed
      requires k <= |calls|
    {
      if k == 0 then NOTHING
      else Noticed(ObservedAfter(k - 1), calls[k - 1].now, calls[k - 1].report, LinesOf(k - 1))
    }
  }

  // ---- Windows ----

  predicate InWindow(from: nat, at: nat) {
    from <= at < from + WINDOW
  }

  /** The lines of one window of sixty seconds. */
  function ErrorsIn(from: nat, errors: seq<Entry>): seq<Entry> {
    Filter((e: Entry) => InWindow(from, e.at), errors)
  }

  function FeedbacksIn(from: nat, feedbacks: seq<nat>): seq<nat> {
    Filter((at: nat) => InWindow(from, at), feedbacks)
  }

  lemma {:induction false} FilterIsMonotone<T>(p: T -> bool, q: T -> bool, s: seq<T>)
    requires forall x | x in s :: p(x) ==> q(x)
    ensures |Filter(p, s)| <= |Filter(q, s)|
  {
    if s != [] {
      FilterIsMonotone(p, q, s[..|s| - 1]);
    }
  }

  lemma {:induction false} FilterTwice<T>(p: T -> bool, q: T -> bool, s: seq<T>)
    requires forall x | x in s :: p(x) ==> q(x)
    ensures Filter(p, Filter(q, s)) == Filter(p, s)
  {
    if s != [] {
      var front, last := s[..|s| - 1], s[|s| - 1];
      FilterTwice(p, q, front);
      if q(last) {
        var kept := Filter(q, front);
        assert (kept + [last])[..|kept|] == kept;
      }
    }
  }

  lemma {:induction false} FilterKeeps<T>(p: T -> bool, s: seq<T>, x: T)
    ensures x in Filter(p, s) <==> x in s && p(x)
  {
    if s != [] {
      FilterKeeps(p, s[..|s| - 1], x);
      assert s == s[..|s| - 1] + [s[|s| - 1]];
    }
  }

  lemma FilterOfAppend<T>(p: T -> bool, s: seq<T>, x: T)
    ensures Filter(p, s + [x]) == if p(x) then Filter(p, s) + [x] else Filter(p, s)
  {
    assert (s + [x])[..|s|] == s;
  }

  // ---- The invariant ----

  /** Equal messages are at least ten seconds apart, summaries at least sixty. */
  ghost predicate Spaced(errors: seq<Entry>) {
    forall i, j | 0 <= i < j < |errors| && errors[i].message == errors[j].message ::
      errors[j].at >= errors[i].at + (if errors[i].message.Some? then REPEAT else WINDOW)
  }

  ghost predicate Bounded(o: Observed) {
    && (forall from :: |ErrorsIn(from, o.errors)| <= MAX_ERRORS)
    && (forall from :: |FeedbacksIn(from, o.feedbacks)| <= MAX_FEEDBACK)
  }

  function MessageCount(errors: seq<Entry>): nat {
    if errors == [] then 0
    else MessageCount(errors[..|errors| - 1]) + if errors[|errors| - 1].message.Some? then 1 else 0
  }

  /** No report is lost below the cap of the counter: each is a line, in a summary, or still suppressed. */
  ghost predicate Conserved(l: Limiter, o: Observed) {
    && MessageCount(o.errors) + o.summarized + l.suppressed <= o.reports
    && (o.reports <= U64_MAX ==> MessageCount(o.errors) + o.summarized + l.suppressed == o.reports)
  }

  /**
   The ERROR side at `clock`: the window was last swept at `swept`, and still holds every line that could
   share a window, or an interval, with a later one.
   */
  ghost predicate ErrorsAreSound(l: Limiter, o: Observed, swept: nat, clock: nat) {
    && swept <= clock
    && l.recent == RecentEntries(swept, o.errors)
    && (forall e | e in o.errors :: e.at <= clock)
    && (forall e | e in o.errors && e.message.None? :: l.summaryAt.Some? && e.at <= l.summaryAt.value)
    && (l.summaryAt.Some? ==> l.summaryAt.value <= clock)
    && (forall from :: |ErrorsIn(from, o.errors)| <= MAX_ERRORS)
    && Spaced(o.errors)
    && Conserved(l, o)
  }

  ghost predicate FeedbackIsSound(recent: seq<nat>, feedbacks: seq<nat>, swept: nat, clock: nat) {
    && swept <= clock
    && recent == RecentTimes(swept, feedbacks)
    && (forall at | at in feedbacks :: at <= clock)
    && (forall from :: |FeedbacksIn(from, feedbacks)| <= MAX_FEEDBACK)
  }

  ghost predicate Sound(l: Limiter, o: Observed, clock: nat) {
    && (exists swept :: ErrorsAreSound(l, o, swept, clock))
    && (exists swept :: FeedbackIsSound(l.feedbackRecent, o.feedbacks, swept, clock))
  }

  // ---- One sweep, one line ----

  lemma WindowsInSeconds(now: nat, at: nat)
    requires at <= now
    ensures SecondsSince(now, at) < 60 <==> now - at < WINDOW
    ensures SecondsSince(now, at) < 10 <==> now - at < REPEAT
  {}

  /** Sweeping what an earlier sweep left is sweeping everything. */
  lemma SweepingAgain(entries: seq<Entry>, swept: nat, now: nat)
    requires swept <= now && forall e | e in entries :: e.at <= now
    ensures RecentEntries(now, RecentEntries(swept, entries)) == RecentEntries(now, entries)
  {
    forall e | e in entries ensures SecondsSince(now, e.at) < 60 ==> SecondsSince(swept, e.at) < 60 {
      WindowsInSeconds(now, e.at);
    }
    FilterTwice((e: Entry) => SecondsSince(now, e.at) < 60, (e: Entry) => SecondsSince(swept, e.at) < 60, entries);
  }

  lemma SweepingTimesAgain(times: seq<nat>, swept: nat, now: nat)
    requires swept <= now && forall at | at in times :: at <= now
    ensures RecentTimes(now, RecentTimes(swept, times)) == RecentTimes(now, times)
  {
    forall at | at in times ensures SecondsSince(now, at) < 60 ==> SecondsSince(swept, at) < 60 {
      WindowsInSeconds(now, at);
    }
    FilterTwice((at: nat) => SecondsSince(now, at) < 60, (at: nat) => SecondsSince(swept, at) < 60, times);
  }

  /** With room in the sweep of now, one more line keeps every window within its bound. */
  lemma OneMoreErrorFits(errors: seq<Entry>, entry: Entry, from: nat)
    requires forall e | e in errors :: e.at <= entry.at
    requires |RecentEntries(entry.at, errors)| < MAX_ERRORS
    requires |ErrorsIn(from, errors)| <= MAX_ERRORS
    ensures |ErrorsIn(from, errors + [entry])| <= MAX_ERRORS
  {
    var p, q := (e: Entry) => InWindow(from, e.at), (e: Entry) => SecondsSince(entry.at, e.at) < 60;
    FilterOfAppend(p, errors, entry);
    if InWindow(from, entry.at) {
      forall e | e in errors ensures p(e) ==> q(e) {
        WindowsInSeconds(entry.at, e.at);
      }
      FilterIsMonotone(p, q, errors);
    }
  }

  lemma OneMoreFeedbackFits(feedbacks: seq<nat>, now: nat, from: nat)
    requires forall at | at in feedbacks :: at <= now
    requires |RecentTimes(now, feedbacks)| < MAX_FEEDBACK
    requires |FeedbacksIn(from, feedbacks)| <= MAX_FEEDBACK
    ensures |FeedbacksIn(from, feedbacks + [now])| <= MAX_FEEDBACK
  {
    var p, q := (at: nat) => InWindow(from, at), (at: nat) => SecondsSince(now, at) < 60;
    FilterOfAppend(p, feedbacks, now);
    if InWindow(from, now) {
      forall at | at in feedbacks ensures p(at) ==> q(at) {
        WindowsInSeconds(now, at);
      }
      FilterIsMonotone(p, q, feedbacks);
    }
  }

  /** Emitting one ERROR or summary line into a freshly swept window. */
  lemma EmittingKeepsErrors(l: Limiter, o: Observed, entry: Entry)
    requires ErrorsAreSound(l, o, entry.at, entry.at) && |l.recent| < MAX_ERRORS
    requires entry.message.Some? ==> !Repeated(entry.at, l.recent, entry.message.value)
    requires entry.message.None? ==> l.summaryAt.Some? && SecondsSince(entry.at, l.summaryAt.value) >= 60
    ensures RecentEntries(entry.at, o.errors + [entry]) == l.recent + [entry]
    ensures forall from :: |ErrorsIn(from, o.errors + [entry])| <= MAX_ERRORS
    ensures Spaced(o.errors + [entry])
  {
    FilterOfAppend((e: Entry) => SecondsSince(entry.at, e.at) < 60, o.errors, entry);
    forall from ensures |ErrorsIn(from, o.errors + [entry])| <= MAX_ERRORS {
      OneMoreErrorFits(o.errors, entry, from);
    }
    forall i | 0 <= i < |o.errors| && o.errors[i].message == entry.message
      ensures entry.at >= o.errors[i].at + (if entry.message.Some? then REPEAT else WINDOW)
    {
      var e := o.errors[i];
      assert e in o.errors;
      WindowsInSeconds(entry.at, e.at);
      if entry.message.Some? {
        FilterKeeps((e: Entry) => SecondsSince(entry.at, e.at) < 60, o.errors, e);
        if e in l.recent {
          var k :| 0 <= k < |l.recent| && l.recent[k] == e;
        }
      } else {
        WindowsInSeconds(entry.at, l.summaryAt.value);
      }
    }
  }

  lemma MessageCountOfAppend(errors: seq<Entry>, entry: Entry)
    ensures MessageCount(errors + [entry]) == MessageCount(errors) + if entry.message.Some? then 1 else 0
  {
    assert (errors + [entry])[..|errors|] == errors;
  }

  // ---- The stages of a write ----

  /** Sweeping the window, and starting the clock of the summaries. */
  lemma SweepingKeepsErrors(l: Limiter, o: Observed, swept: nat, clock: nat, now: nat)
    requires ErrorsAreSound(l, o, swept, clock) && clock <= now
    ensures ErrorsAreSound(Swept(now, l), o, now, now)
  {
    SweepingAgain(o.errors, swept, now);
    hide RecentEntries, ErrorsIn;
  }

  function Swept(now: nat, l: Limiter): Limiter {
    l.(recent := RecentEntries(now, l.recent), summaryAt := Some(if l.summaryAt.Some? then l.summaryAt.value else now))
  }

  /** The summary line takes the suppressed reports over. */
  lemma SummaryKeepsErrors(l: Limiter, o: Observed, now: nat)
    requires ErrorsAreSound(l, o, now, now) && |l.recent| < MAX_ERRORS
    requires l.summaryAt.Some? && SecondsSince(now, l.summaryAt.value) >= 60
    ensures ErrorsAreSound(
              l.(suppressed := 0, recent := l.recent + [Entry(now, None)], summaryAt := Some(now)),
              o.(errors := o.errors + [Entry(now, None)], summarized := o.summarized + l.suppressed), now, now)
  {
    EmittingKeepsErrors(l, o, Entry(now, None));
    MessageCountOfAppend(o.errors, Entry(now, None));
    hide Spaced, RecentEntries, ErrorsIn, MessageCount;
  }

  lemma SummarizingKeepsErrors(l: Limiter, o: Observed, swept: nat, clock: nat, now: nat)
    requires ErrorsAreSound(l, o, swept, clock) && clock <= now
    ensures var (l', lines) := Summarized(now, l);
            ErrorsAreSound(l', Observe(o, now, lines), now, now)
  {
    hide ErrorsAreSound, RecentEntries;
    SweepingKeepsErrors(l, o, swept, clock, now);
    var (l', lines) := Summarized(now, l);
    if lines != [] {
      SummaryKeepsErrors(Swept(now, l), o, now);
      ObserveOne(o, now, lines[0]);
    }
  }

  /** Suppressing a report, or printing it. */
  lemma ReportingKeepsErrors(l: Limiter, o: Observed, now: nat, message: string)
    requires ErrorsAreSound(l, o, now, now)
    ensures if |l.recent| >= MAX_ERRORS || Repeated(now, l.recent, message) then
              ErrorsAreSound(l.(suppressed := if l.suppressed < U64_MAX then l.suppressed + 1 else U64_MAX),
                             o.(reports := o.reports + 1), now, now)
            else
              ErrorsAreSound(l.(recent := l.recent + [Entry(now, Some(message))]),
                             o.(errors := o.errors + [Entry(now, Some(message))], reports := o.reports + 1), now, now)
  {
    if !(|l.recent| >= MAX_ERRORS || Repeated(now, l.recent, message)) {
      EmittingKeepsErrors(l, o, Entry(now, Some(message)));
      MessageCountOfAppend(o.errors, Entry(now, Some(message)));
    }
  }

  lemma {:induction false} ObserveConcat(o: Observed, now: nat, a: seq<Line>, b: seq<Line>)
    ensures Observe(o, now, a + b) == Observe(Observe(o, now, a), now, b)
    decreases |a|
  {
    if a == [] {
      assert a + b == b;
    } else {
      assert (a + b)[1..] == a[1..] + b;
      ObserveConcat(ObserveLine(o, now, a[0]), now, a[1..], b);
    }
  }

  lemma ObserveOne(o: Observed, now: nat, line: Line)
    ensures Observe(o, now, [line]) == ObserveLine(o, now, line)
  {
    assert [line][1..] == [];
  }

  lemma SummariesAreNoFeedback(l: Limiter, o: Observed, now: nat)
    ensures Observe(o, now, Summarized(now, l).1).feedbacks == o.feedbacks
    ensures Observe(o, now, Summarized(now, l).1).reports == o.reports
    ensures Summarized(now, l).0.feedbackRecent == l.feedbackRecent
  {
    if Summarized(now, l).1 != [] {
      ObserveOne(o, now, SummaryLine(l.suppressed));
    }
  }

  lemma ErrorReportsKeepSound(l: Limiter, o: Observed, clock: nat, now: nat, report: Report, redact: string -> string)
    requires Sound(l, o, clock) && clock <= now && report.feedback.None?
    ensures var (l', lines) := Written(now, l, report, redact);
            Sound(l', Noticed(o, now, report, lines), now)
  {
    hide ErrorsAreSound, FeedbackIsSound, Field, RecentEntries, RecentTimes, Repeated;
    var swept :| ErrorsAreSound(l, o, swept, clock);
    var sweptFeedback :| FeedbackIsSound(l.feedbackRecent, o.feedbacks, sweptFeedback, clock);
    SummarizingKeepsErrors(l, o, swept, clock, now);
    SummariesAreNoFeedback(l, o, now);
    var (l1, lines1) := Summarized(now, l);
    hide Summarized;
    var o1 := Observe(o, now, lines1);
    var message := Field(report.message, 2048, redact);
    ReportingKeepsErrors(l1, o1, now, message);
    var (l', lines) := Written(now, l, report, redact);
    if lines != lines1 {
      ObserveConcat(o, now, lines1, [lines[|lines| - 1]]);
      ObserveOne(o1, now, lines[|lines| - 1]);
    }
    var o' := Noticed(o, now, report, lines);
    assert ErrorsAreSound(l', o', now, now);
    FeedbackOutlives(l.feedbackRecent, o.feedbacks, sweptFeedback, clock, now);
    assert l'.feedbackRecent == l.feedbackRecent && o'.feedbacks == o.feedbacks;
  }

  lemma FeedbackOutlives(recent: seq<nat>, feedbacks: seq<nat>, swept: nat, clock: nat, now: nat)
    requires FeedbackIsSound(recent, feedbacks, swept, clock) && clock <= now
    ensures FeedbackIsSound(recent, feedbacks, swept, now)
  {}

  lemma AcceptingKeepsFeedback(feedbacks: seq<nat>, swept: nat, clock: nat, recent: seq<nat>, now: nat)
    requires FeedbackIsSound(recent, feedbacks, swept, clock) && clock <= now
    ensures FeedbackIsSound(RecentTimes(now, recent), feedbacks, now, now)
    ensures |RecentTimes(now, recent)| < MAX_FEEDBACK ==>
              FeedbackIsSound(RecentTimes(now, recent) + [now], feedbacks + [now], now, now)
  {
    SweepingTimesAgain(feedbacks, swept, now);
    if |RecentTimes(now, recent)| < MAX_FEEDBACK {
      FilterOfAppend((at: nat) => SecondsSince(now, at) < 60, feedbacks, now);
      forall from ensures |FeedbacksIn(from, feedbacks + [now])| <= MAX_FEEDBACK {
        OneMoreFeedbackFits(feedbacks, now, from);
      }
    }
  }

  /** The ERROR side knows nothing of feedback, and time may pass. */
  lemma ErrorsIgnoreFeedback(l: Limiter, o: Observed, swept: nat, clock: nat, l': Limiter, o': Observed, now: nat)
    requires ErrorsAreSound(l, o, swept, clock) && clock <= now
    requires l' == l.(feedbackRecent := l'.feedbackRecent) && o' == o.(feedbacks := o'.feedbacks)
    ensures ErrorsAreSound(l', o', swept, now)
  {}

  lemma FeedbackReportsKeepSound(
    l: Limiter, o: Observed, clock: nat, now: nat, report: Report, redact: string -> string)
    requires Sound(l, o, clock) && clock <= now && report.feedback.Some?
    ensures var (l', lines) := Written(now, l, report, redact);
            Sound(l', Noticed(o, now, report, lines), now)
  {
    hide Field, ErrorsAreSound, FeedbackIsSound, RecentTimes;
    var swept :| ErrorsAreSound(l, o, swept, clock);
    var sweptFeedback :| FeedbackIsSound(l.feedbackRecent, o.feedbacks, sweptFeedback, clock);
    AcceptingKeepsFeedback(o.feedbacks, sweptFeedback, clock, l.feedbackRecent, now);
    var budget := RecentTimes(now, l.feedbackRecent);
    var (l', lines) := Written(now, l, report, redact);
    if |budget| >= MAX_FEEDBACK {
      ErrorsIgnoreFeedback(l, o, swept, clock, l', o, now);
    } else {
      var pushed := l.(feedbackRecent := budget + [now]);
      ErrorsIgnoreFeedback(l, o, swept, clock, pushed, o, clock);
      SummarizingKeepsErrors(pushed, o, swept, clock, now);
      SummariesAreNoFeedback(pushed, o, now);
      var (l1, lines1) := Summarized(now, pushed);
      hide Summarized;
      var o1 := Observe(o, now, lines1);
      var line := lines[|lines| - 1];
      ObserveConcat(o, now, lines1, [line]);
      ObserveOne(o1, now, line);
      ErrorsIgnoreFeedback(l1, o1, now, now, l', o1.(feedbacks := o1.feedbacks + [now]), now);
    }
  }

  // ---- Whole runs ----

  lemma FreshIsSound()
    ensures Sound(FRESH, NOTHING, 0)
  {
    assert ErrorsAreSound(FRESH, NOTHING, 0, 0) by {
      hide FeedbackIsSound;
    }
    assert FeedbackIsSound(FRESH.feedbackRecent, NOTHING.feedbacks, 0, 0) by {
      hide ErrorsAreSound;
    }
    hide ErrorsAreSound, FeedbackIsSound;
  }

  lemma {:induction false} RunsStaySound(run: Run, k: nat)
    requires run.ClockRises() && k <= |run.calls|
    ensures Sound(run.StateAfter(k), run.ObservedAfter(k), if k == 0 then 0 else run.calls[k - 1].now)
  {
    hide Sound, Written;
    if k == 0 {
      FreshIsSound();
    } else {
      RunsStaySound(run, k - 1);
      var call := run.calls[k - 1];
      var clock := if k == 1 then 0 else run.calls[k - 2].now;
      assert clock <= call.now;
      if call.report.feedback.None? {
        ErrorReportsKeepSound(run.StateAfter(k - 1), run.ObservedAfter(k - 1), clock, call.now, call.report, run.redact);
      } else {
        FeedbackReportsKeepSound(
          run.StateAfter(k - 1), run.ObservedAfter(k - 1), clock, call.now, call.report, run.redact);
      }
    }
  }

  /**
   Over any run: every sixty-second window holds at most fifty ERROR lines, summaries included, and at most
   ten FEEDBACK lines; equal messages are at least ten seconds apart and summaries at least sixty; and below
   the counter's cap every error report is a line, counted in a summary, or still counted as suppressed.
   */
  lemma TheLogIsBoundedAndLosesNothing(run: Run, k: nat)
    requires run.ClockRises() && k <= |run.calls|
    ensures Bounded(run.ObservedAfter(k))
    ensures Spaced(run.ObservedAfter(k).errors)
    ensures Conserved(run.StateAfter(k), run.ObservedAfter(k))
    ensures MAX_ERRORS == 50 && MAX_FEEDBACK == 10 && WINDOW == 60_000_000_000 && REPEAT == 10_000_000_000
  {
    hide Spaced, Conserved;
    RunsStaySound(run, k);
  }

  // ---- Nothing is held back without need ----

  /** The lines of the last sixty seconds. */
  function LastMinute(now: nat, errors: seq<Entry>): seq<Entry> {
    Filter((e: Entry) => e.at + WINDOW > now, errors)
  }

  lemma {:induction false} FiltersAgree<T>(p: T -> bool, q: T -> bool, s: seq<T>)
    requires forall x | x in s :: p(x) == q(x)
    ensures Filter(p, s) == Filter(q, s)
  {
    if s != [] {
      FiltersAgree(p, q, s[..|s| - 1]);
    }
  }

  /** What was observed before the report itself is decided, including a summary this call emits first. */
  function ObservedBefore(run: Run, k: nat): Observed
    requires k < |run.calls|
  {
    Observe(run.ObservedAfter(k), run.calls[k].now, Summarized(run.calls[k].now, run.StateAfter(k)).1)
  }

  lemma WindowIsTheLastMinute(l: Limiter, o: Observed, now: nat)
    requires ErrorsAreSound(l, o, now, now)
    ensures l.recent == LastMinute(now, o.errors)
    ensures forall message :: Repeated(now, l.recent, message) <==>
              exists e :: e in o.errors && e.message == Some(message) && e.at + REPEAT > now
  {
    var p := (e: Entry) => SecondsSince(now, e.at) < 60;
    forall e | e in o.errors ensures p(e) == (e.at + WINDOW > now) {
      WindowsInSeconds(now, e.at);
    }
    FiltersAgree(p, (e: Entry) => e.at + WINDOW > now, o.errors);
    forall message
      ensures Repeated(now, l.recent, message) <==>
                exists e :: e in o.errors && e.message == Some(message) && e.at + REPEAT > now
    {
      if Repeated(now, l.recent, message) {
        var i :| 0 <= i < |l.recent| && l.recent[i].message == Some(message) && SecondsSince(now, l.recent[i].at) < 10;
        FilterKeeps(p, o.errors, l.recent[i]);
        WindowsInSeconds(now, l.recent[i].at);
        assert l.recent[i] in o.errors;
      }
      if e :| e in o.errors && e.message == Some(message) && e.at + REPEAT > now {
        FilterKeeps(p, o.errors, e);
        WindowsInSeconds(now, e.at);
        var i :| 0 <= i < |l.recent| && l.recent[i] == e;
      }
    }
  }

  /**
   An error report is printed exactly if the last minute holds fewer than fifty ERROR lines and its message
   was not printed within the last ten seconds.
   */
  lemma ErrorsPrintExactlyWhenAllowed(run: Run, k: nat)
    requires run.ClockRises() && k < |run.calls| && run.calls[k].report.feedback.None?
    ensures var now, before := run.calls[k].now, ObservedBefore(run, k).errors;
            var message := Field(run.calls[k].report.message, 2048, run.redact);
            (exists i :: 0 <= i < |run.LinesOf(k)| && run.LinesOf(k)[i].ErrorLine?) <==>
              && |LastMinute(now, before)| < MAX_ERRORS
              && !exists e :: e in before && e.message == Some(message) && e.at + REPEAT > now
  {
    hide ErrorsAreSound, FeedbackIsSound, Field, LastMinute, Repeated;
    RunsStaySound(run, k);
    var now, l, o := run.calls[k].now, run.StateAfter(k), run.ObservedAfter(k);
    var clock := if k == 0 then 0 else run.calls[k - 1].now;
    var swept :| ErrorsAreSound(l, o, swept, clock);
    SummarizingKeepsErrors(l, o, swept, clock, now);
    var (l1, lines1) := Summarized(now, l);
    WindowIsTheLastMinute(l1, Observe(o, now, lines1), now);
    var lines := run.LinesOf(k);
    assert forall i | 0 <= i < |lines1| :: lines1[i].SummaryLine?;
    hide Summarized;
    assert lines == lines1 || lines[|lines| - 1].ErrorLine?;
  }

  /** The feedback lines of the last sixty seconds. */
  function FeedbackOfLastMinute(now: nat, feedbacks: seq<nat>): seq<nat> {
    Filter((at: nat) => at + WINDOW > now, feedbacks)
  }

  /** Feedback is printed, and so answered as accepted, exactly if the last minute holds fewer than ten of its lines. */
  lemma FeedbackPrintsExactlyWhenAllowed(run: Run, k: nat)
    requires run.ClockRises() && k < |run.calls| && run.calls[k].report.feedback.Some?
    ensures Accepts(run.calls[k].report, run.LinesOf(k)) <==>
            |FeedbackOfLastMinute(run.calls[k].now, run.ObservedAfter(k).feedbacks)| < MAX_FEEDBACK
  {
    hide ErrorsAreSound;
    RunsStaySound(run, k);
    var now, l, o := run.calls[k].now, run.StateAfter(k), run.ObservedAfter(k);
    var clock := if k == 0 then 0 else run.calls[k - 1].now;
    var swept :| FeedbackIsSound(l.feedbackRecent, o.feedbacks, swept, clock);
    SweepingTimesAgain(o.feedbacks, swept, now);
    var p := (at: nat) => SecondsSince(now, at) < 60;
    forall at | at in o.feedbacks ensures p(at) == (at + WINDOW > now) {
      WindowsInSeconds(now, at);
    }
    FiltersAgree(p, (at: nat) => at + WINDOW > now, o.feedbacks);
    FeedbackIsPrintedOrDropped(now, l, run.calls[k].report, run.redact);
  }
}
