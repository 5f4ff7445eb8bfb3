/** What stands in the lines of the frontend log: which text in which field, and when a summary comes first. */
module ErrorLines {
  import opened Basics
  import opened ErrorFields
  import opened ErrorLogs
  import opened ErrorLogRuns

  // ---- Fields ----

  /** The route without its query and fragment. */
  predicate EndsBeforeQuery(path: string, route: string) {
    && path <= route && '?' !in path && '#' !in path
    && (|path| < |route| ==> route[|path|] == '?' || route[|path|] == '#')
  }

  lemma {:induction false} RoutesEndBeforeQuery(route: string)
    ensures EndsBeforeQuery(BeforeQuery(route), route)
  {
    if route != "" && route[0] != '?' && route[0] != '#' {
      RoutesEndBeforeQuery(route[1..]);
      var path := BeforeQuery(route[1..]);
      assert route == [route[0]] + route[1..];
      assert BeforeQuery(route) == [route[0]] + path;
    }
  }

  ghost predicate ShowsRoute(field: string, route: string, redact: string -> string) {
    exists path :: EndsBeforeQuery(path, route) && ShowsField(field, path, 256, redact)
  }

  /** Each field of the line shows its own part of the report, within its own limit. */
  ghost predicate HoldsTheReport(line: Line, report: Report, redact: string -> string) {
    match line
    case ErrorLine(message, stack, route) =>
      && report.feedback == None
      && ShowsField(message, report.message, 2048, redact)
      && ShowsField(stack, report.stack, 512, redact)
      && ShowsRoute(route, report.route, redact)
    case FeedbackLine(message, expected, route, context) =>
      && report.feedback.Some?
      && ShowsField(message, report.message, 2048, redact)
      && ShowsField(expected, report.stack, 1024, redact)
      && ShowsRoute(route, report.route, redact)
      && ShowsField(context, report.feedback.value, 2048, redact)
    case SummaryLine(_) => true
  }

  lemma RoutesAreShown(report: Report, redact: string -> string)
    ensures ShowsRoute(Field(BeforeQuery(report.route), 256, redact), report.route, redact)
  {
    hide Field, ShowsField, EndsBeforeQuery;
    RoutesEndBeforeQuery(report.route);
    FieldsShowTheRedactedText(BeforeQuery(report.route), 256, redact);
  }

  /** Every line that a call prints holds the redacted parts of its report where they belong. */
  lemma LinesHoldTheReport(run: Run, k: nat)
    requires k < |run.calls|
    ensures forall i | 0 <= i < |run.LinesOf(k)| :: HoldsTheReport(run.LinesOf(k)[i], run.calls[k].report, run.redact)
  {
    hide Field, ShowsField, ShowsRoute, BeforeQuery, RecentTimes, RecentEntries, Repeated, SecondsSince;
    var report, redact := run.calls[k].report, run.redact;
    RoutesAreShown(report, redact);
    FieldsShowTheRedactedText(report.message, 2048, redact);
    FieldsShowTheRedactedText(report.stack, 512, redact);
    FieldsShowTheRedactedText(report.stack, 1024, redact);
    if report.feedback.Some? {
      FieldsShowTheRedactedText(report.feedback.value, 2048, redact);
    }
  }

  // ---- Summaries ----

  function LastSummary(errors: seq<Entry>): Option<nat> {
    if errors == [] then None
    else if errors[|errors| - 1].message.None? then Some(errors[|errors| - 1].at)
    else LastSummary(errors[..|errors| - 1])
  }

  /** Summaries are timed from the last one, and the first one from the first call. */
  function SummarySince(run: Run, k: nat): nat
    requires k < |run.calls|
  {
    match LastSummary(run.ObservedAfter(k).errors)
    case Some(at) => at
    case None => run.calls[0].now
  }

  /** The call is no feedback beyond the ten of the last minute. */
  predicate GoesOn(run: Run, k: nat)
    requires k < |run.calls|
  {
    run.calls[k].report.feedback.Some? ==>
      |FeedbackOfLastMinute(run.calls[k].now, run.ObservedAfter(k).feedbacks)| < 10
  }

  lemma LastSummaryOfAppend(errors: seq<Entry>, entry: Entry)
    ensures LastSummary(errors + [entry]) == if entry.message.None? then Some(entry.at) else LastSummary(errors)
  {
    assert (errors + [entry])[..|errors|] == errors;
  }

  /** The time the limiter keeps for summaries, as far as it keeps one. */
  ghost predicate KeepsTheClock(l: Limiter, o: Observed, start: nat) {
    match LastSummary(o.errors)
    case Some(at) => l.summaryAt == Some(at)
    case None => l.summaryAt == Some(start)
  }

  /** A line of ERROR or FEEDBACK kind leaves the clock alone. */
  lemma OtherLinesKeepTheClock(o: Observed, now: nat, line: Line)
    requires !line.SummaryLine?
    ensures LastSummary(ObserveLine(o, now, line).errors) == LastSummary(o.errors)
  {
    if line.ErrorLine? {
      LastSummaryOfAppend(o.errors, Entry(now, Some(line.message)));
    }
  }

  lemma SummarizingKeepsTheClock(l: Limiter, o: Observed, start: nat, now: nat)
    requires KeepsTheClock(l, o, start) || (l.summaryAt == None && LastSummary(o.errors) == None && start == now)
    ensures KeepsTheClock(Summarized(now, l).0, Observe(o, now, Summarized(now, l).1), start)
  {
    hide RecentEntries;
    var lines := Summarized(now, l).1;
    if lines != [] {
      ObserveOne(o, now, lines[0]);
      LastSummaryOfAppend(o.errors, Entry(now, None));
    }
  }

  /** What follows the summary, if anything, and what it does to the limiter. */
  lemma OneMoreLine(now: nat, l: Limiter, report: Report, redact: string -> string)
    requires report.feedback.Some? ==> |RecentTimes(now, l.feedbackRecent)| < MAX_FEEDBACK
    ensures var l0 := if report.feedback.Some? then l.(feedbackRecent := RecentTimes(now, l.feedbackRecent) + [now]) else l;
            var (l1, first) := Summarized(now, l0);
            var (l', lines) := Written(now, l, report, redact);
            && l'.summaryAt == l1.summaryAt
            && (lines == first || (exists line: Line :: !line.SummaryLine? && lines == first + [line]))
  {
    hide Field, RecentTimes, Summarized, Repeated, BeforeQuery;
  }

  lemma {:induction false} RunsKeepTheClock(run: Run, k: nat)
    requires 0 < k <= |run.calls|
    ensures KeepsTheClock(run.StateAfter(k), run.ObservedAfter(k), run.calls[0].now)
  {
    var call, l, o := run.calls[k - 1], run.StateAfter(k - 1), run.ObservedAfter(k - 1);
    var now, report := call.now, call.report;
    if k > 1 {
      RunsKeepTheClock(run, k - 1);
    }
    if report.feedback.None? || |RecentTimes(now, l.feedbackRecent)| < MAX_FEEDBACK {
      OneMoreLine(now, l, report, run.redact);
      hide Field, RecentTimes, Summarized, Repeated, BeforeQuery, RecentEntries;
      var l0 := if report.feedback.Some? then l.(feedbackRecent := RecentTimes(now, l.feedbackRecent) + [now]) else l;
      SummarizingKeepsTheClock(l0, o, run.calls[0].now, now);
      var (l1, first) := Summarized(now, l0);
      var lines := run.LinesOf(k - 1);
      if lines != first {
        var line: Line :| !line.SummaryLine? && lines == first + [line];
        ObserveConcat(o, now, first, [line]);
        ObserveOne(Observe(o, now, first), now, line);
        OtherLinesKeepTheClock(Observe(o, now, first), now, line);
      }
    } else {
      assert k > 1 by { FreshFeedbackFits(now); }
    }
  }

  lemma FreshFeedbackFits(now: nat)
    ensures RecentTimes(now, FRESH.feedbackRecent) == []
  {}

  /** The reports that are neither printed nor summarised yet. */
  function Pending(o: Observed): int {
    o.reports - MessageCount(o.errors) - o.summarized
  }

  /**
   A call prints a summary exactly if reports are pending, the last minute has room, and sixty seconds have passed
   since the last summary or else the first call. It then comes first, names all pending reports, and is the only one.
   */
  lemma SummariesArePrintedExactlyWhenDue(run: Run, k: nat)
    requires run.ClockRises() && k < |run.calls| && GoesOn(run, k) && run.ObservedAfter(k).reports <= U64_MAX
    ensures var now, o, lines := run.calls[k].now, run.ObservedAfter(k), run.LinesOf(k);
            var due := Pending(o) > 0 && |LastMinute(now, o.errors)| < 50 && now >= SummarySince(run, k) + WINDOW;
            && (due ==> lines != [] && lines[0] == SummaryLine(Pending(o)))
            && (forall i | 0 <= i < |lines| && lines[i].SummaryLine? :: due && i == 0)
  {
    var report, now, l, o := run.calls[k].report, run.calls[k].now, run.StateAfter(k), run.ObservedAfter(k);
    var l0 := if report.feedback.Some? then l.(feedbackRecent := RecentTimes(now, l.feedbackRecent) + [now]) else l;
    if report.feedback.Some? {
      FeedbackPrintsExactlyWhenAllowed(run, k);
      FeedbackIsPrintedOrDropped(now, l, report, run.redact);
    }
    SummariesComeFirst(now, l, report, run.redact);
    SummaryFacts(run, k, l0);
    SummaryDecision(now, l0);
    hide Field, RecentTimes, RecentEntries, Summarized, Repeated, BeforeQuery, Written, LastMinute, MessageCount,
      SummarySince, Run.StateAfter, Run.ObservedAfter, Pending, SecondsSince;
  }

  lemma SummariesComeFirst(now: nat, l: Limiter, report: Report, redact: string -> string)
    requires report.feedback.Some? ==> |RecentTimes(now, l.feedbackRecent)| < MAX_FEEDBACK
    ensures var l0 := if report.feedback.Some? then l.(feedbackRecent := RecentTimes(now, l.feedbackRecent) + [now]) else l;
            var first, lines := Summarized(now, l0).1, Written(now, l, report, redact).1;
            && (first != [] ==> lines != [] && lines[0] == first[0])
            && (forall i | 0 <= i < |lines| && lines[i].SummaryLine? :: i == 0 && first != [])
  {
    OneMoreLine(now, l, report, redact);
    hide Field, RecentTimes, RecentEntries, Repeated, BeforeQuery, Written, SecondsSince;
  }

  /** A summary of all suppressed reports is printed exactly if there are any, with room, after sixty seconds. */
  lemma SummaryDecision(now: nat, l: Limiter)
    ensures var since := if l.summaryAt.Some? then l.summaryAt.value else now;
            Summarized(now, l).1 ==
            if l.suppressed > 0 && |RecentEntries(now, l.recent)| < 50 && SecondsSince(now, since) >= 60
            then [SummaryLine(l.suppressed)] else []
  {
    hide RecentEntries, SecondsSince;
  }

  lemma SweptFacts(l: Limiter, o: Observed, swept: nat, clock: nat, now: nat)
    requires ErrorsAreSound(l, o, swept, clock) && clock <= now
    ensures Conserved(l, o) && (l.summaryAt.Some? ==> l.summaryAt.value <= now)
    ensures RecentEntries(now, l.recent) == LastMinute(now, o.errors)
  {
    SweepingKeepsErrors(l, o, swept, clock, now);
    WindowIsTheLastMinute(Swept(now, l), o, now);
    hide RecentEntries, LastMinute, Conserved;
  }

  lemma LimiterFacts(run: Run, k: nat)
    requires run.ClockRises() && k < |run.calls|
    ensures var now, l, o := run.calls[k].now, run.StateAfter(k), run.ObservedAfter(k);
            && Conserved(l, o) && (l.summaryAt.Some? ==> l.summaryAt.value <= now)
            && RecentEntries(now, l.recent) == LastMinute(now, o.errors)
  {
    hide ErrorsAreSound, FeedbackIsSound, RecentEntries, LastMinute, Conserved, Run.StateAfter, Run.ObservedAfter;
    RunsStaySound(run, k);
    var now, l, o := run.calls[k].now, run.StateAfter(k), run.ObservedAfter(k);
    var clock := if k == 0 then 0 else run.calls[k - 1].now;
    var swept :| ErrorsAreSound(l, o, swept, clock);
    SweptFacts(l, o, swept, clock, now);
  }

  lemma SuppressedIsPending(l: Limiter, o: Observed)
    requires Conserved(l, o) && o.reports <= U64_MAX
    ensures l.suppressed == Pending(o)
  {
    hide MessageCount;
  }

  lemma ClockIsSummarySince(run: Run, k: nat)
    requires 0 < k < |run.calls|
    ensures run.StateAfter(k).summaryAt == Some(SummarySince(run, k))
  {
    hide Run.StateAfter, Run.ObservedAfter, LastSummary;
    RunsKeepTheClock(run, k);
  }

  lemma FirstCallStartsTheClock(run: Run)
    requires run.calls != []
    ensures SummarySince(run, 0) == run.calls[0].now && Pending(run.ObservedAfter(0)) == 0
  {
    RunsBegin(run);
    NothingIsPending();
    hide Run.ObservedAfter, LastSummary, MessageCount;
  }

  /** What the limiter decides by, in terms of what was observed. */
  lemma SummaryFacts(run: Run, k: nat, l0: Limiter)
    requires run.ClockRises() && k < |run.calls| && run.ObservedAfter(k).reports <= U64_MAX
    requires l0 == run.StateAfter(k).(feedbackRecent := l0.feedbackRecent)
    ensures var now, o := run.calls[k].now, run.ObservedAfter(k);
            && l0.suppressed == Pending(o)
            && RecentEntries(now, l0.recent) == LastMinute(now, o.errors)
            && (k > 0 ==> l0.summaryAt == Some(SummarySince(run, k)))
            && (k == 0 ==> SummarySince(run, 0) == now && Pending(o) == 0)
            && SummarySince(run, k) <= now
            && (SecondsSince(now, SummarySince(run, k)) >= 60 <==> now >= SummarySince(run, k) + WINDOW)
  {
    hide *;
    LimiterFacts(run, k);
    SuppressedIsPending(run.StateAfter(k), run.ObservedAfter(k));
    if k > 0 {
      ClockIsSummarySince(run, k);
    } else {
      FirstCallStartsTheClock(run);
    }
    WindowsInSeconds(run.calls[k].now, SummarySince(run, k));
  }

  lemma RunsBegin(run: Run)
    ensures run.StateAfter(0) == FRESH && run.ObservedAfter(0) == NOTHING
  {}

  lemma NothingIsPending()
    ensures Pending(NOTHING) == 0 && LastSummary(NOTHING.errors) == None
  {}
}
