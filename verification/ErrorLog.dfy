/**
 The limiter in front of the frontend error log: a sliding window for ERROR lines, a separate budget for
 FEEDBACK lines, suppression of repeats, and a counter that turns suppressed errors into summary lines.

 Times are nanoseconds of one monotonic clock.
 */
module ErrorLogs {
  import opened Basics
  import opened ErrorFields
  import Text

  const SECOND: nat := 1_000_000_000
  const WINDOW: nat := 60 * SECOND
  const REPEAT: nat := 10 * SECOND
  const MAX_ERRORS: nat := 50
  const MAX_FEEDBACK: nat := 10

  /** `duration_since(..).as_secs()`, which saturates at zero for an earlier instant. */
  function SecondsSince(now: nat, at: nat): nat {
    if now < at then 0 else (now - at) / SECOND
  }

  /** A line of the log; its texts are already bounded and escaped. */
  datatype Line =
    | ErrorLine(message: string, stack: string, route: string)
    | FeedbackLine(message: string, expected: string, route: string, context: string)
    | SummaryLine(suppressed: nat)

  /** What the page reports; `feedback` carries the context of a feedback message. */
  datatype Report = Report(message: string, stack: string, route: string, feedback: Option<string>)

  /** An ERROR line in the window: when, and which message; a summary has none. */
  datatype Entry = Entry(at: nat, message: Option<string>)

  datatype Limiter =
    Limiter(recent: seq<Entry>, feedbackRecent: seq<nat>, suppressed: nat, summaryAt: Option<nat>)

  const FRESH: Limiter := Limiter([], [], 0, None)

  function RecentEntries(now: nat, entries: seq<Entry>): seq<Entry> {
    Filter((e: Entry) => SecondsSince(now, e.at) < 60, entries)
  }

  function RecentTimes(now: nat, times: seq<nat>): seq<nat> {
    Filter((at: nat) => SecondsSince(now, at) < 60, times)
  }

  predicate Repeated(now: nat, entries: seq<Entry>, message: string) {
    exists i | 0 <= i < |entries| :: entries[i].message == Some(message) && SecondsSince(now, entries[i].at) < 10
  }

  /** The route up to its query or fragment. */
  function BeforeQuery(route: string): string {
    if route == "" || route[0] == '?' || route[0] == '#' then "" else [route[0]] + BeforeQuery(route[1..])
  }

  /** The first half of `write`: drop what left the window, and emit a summary if one is due. */
  function Summarized(now: nat, l: Limiter): (Limiter, seq<Line>) {
    var recent := RecentEntries(now, l.recent);
    var since := if l.summaryAt.Some? then l.summaryAt.value else now;
    if l.suppressed > 0 && |recent| < MAX_ERRORS && SecondsSince(now, since) >= 60 then
      (l.(recent := recent + [Entry(now, None)], suppressed := 0, summaryAt := Some(now)),
       [SummaryLine(l.suppressed)])
    else
      (l.(recent := recent, summaryAt := Some(since)), [])
  }

  /** What `write` does to the limiter, and the lines it emits. */
  function Written(now: nat, l: Limiter, report: Report, redact: string -> string): (Limiter, seq<Line>) {
    var budget := RecentTimes(now, l.feedbackRecent);
    if report.feedback.Some? && |budget| >= MAX_FEEDBACK then
      (l.(feedbackRecent := budget), [])
    else
      var (l1, lines) := Summarized(
        now, if report.feedback.Some? then l.(feedbackRecent := budget + [now]) else l);
      var message := Field(report.message, 2048, redact);
      var route := Field(BeforeQuery(report.route), 256, redact);
      match report.feedback
      case Some(context) =>
        (l1, lines + [FeedbackLine(message, Field(report.stack, 1024, redact), route, Field(context, 2048, redact))])
      case None =>
        if |l1.recent| >= MAX_ERRORS || Repeated(now, l1.recent, message) then
          (l1.(suppressed := if l1.suppressed < U64_MAX then l1.suppressed + 1 else U64_MAX), lines)
        else
          (l1.(recent := l1.recent + [Entry(now, Some(message))]),
           lines + [ErrorLine(message, Field(report.stack, 512, redact), route)])
  }

  class FrontendErrorLog {
    var recent: seq<Entry>
    var feedbackRecent: seq<nat>
    var suppressed: nat
    var summaryAt: Option<nat>

    function Value(): Limiter
      reads this
    {
      Limiter(recent, feedbackRecent, suppressed, summaryAt)
    }

    constructor ()
      ensures Value() == FRESH
    {
      recent, feedbackRecent, suppressed, summaryAt := [], [], 0, None;
    }

    method Write(now: nat, report: Report, redact: string -> string) returns (lines: seq<Line>)
      modifies this
      ensures (Value(), lines) == Written(now, old(Value()), report, redact)
    {
      hide RecentTimes, RecentEntries, Repeated, BeforeQuery, Field, SecondsSince;
      lines := [];
      if report.feedback.Some? {
        feedbackRecent := RecentTimes(now, feedbackRecent);
        if |feedbackRecent| >= MAX_FEEDBACK {
          return;
        }
        feedbackRecent := feedbackRecent + [now];
      }
      recent := RecentEntries(now, recent);
      var message := FrontendErrorField(report.message, 2048, redact);
      if summaryAt.None? {
        summaryAt := Some(now);
      }
      if suppressed > 0 && |recent| < MAX_ERRORS && SecondsSince(now, summaryAt.value) >= 60 {
        lines := [SummaryLine(suppressed)];
        suppressed := 0;
        recent := recent + [Entry(now, None)];
        summaryAt := Some(now);
      }
      if report.feedback.None? && (|recent| >= MAX_ERRORS || Repeated(now, recent, message)) {
        suppressed := if suppressed < U64_MAX then suppressed + 1 else U64_MAX;
        return;
      }
      var route := FrontendErrorField(BeforeQuery(report.route), 256, redact);
      if report.feedback.Some? {
        var expected := FrontendErrorField(report.stack, 1024, redact);
        var context := FrontendErrorField(report.feedback.value, 2048, redact);
        lines := lines + [FeedbackLine(message, expected, route, context)];
      } else {
        var stack := FrontendErrorField(report.stack, 512, redact);
        lines := lines + [ErrorLine(message, stack, route)];
        recent := recent + [Entry(now, Some(message))];
      }
    }
  }

  /** `emit_frontend_error` tells the page whether its report was accepted. */
  method EmitFrontendError(log: FrontendErrorLog, now: nat, report: Report, redact: string -> string)
    returns (accepted: bool, lines: seq<Line>)
    modifies log
    ensures (log.Value(), lines) == Written(now, old(log.Value()), report, redact)
    ensures accepted <==> report.feedback.None? || |RecentTimes(now, old(log.feedbackRecent))| < MAX_FEEDBACK
  {
    if report.feedback.Some? {
      FeedbackIsPrintedOrDropped(now, log.Value(), report, redact);
    }
    lines := log.Write(now, report, redact);
    accepted := Accepts(report, lines);
  }

  /** An error report counts as accepted whether or not it is printed; feedback only with its line. */
  predicate Accepts(report: Report, lines: seq<Line>) {
    report.feedback.None? || exists i | 0 <= i < |lines| :: lines[i].FeedbackLine?
  }

  lemma FeedbackIsPrintedOrDropped(now: nat, l: Limiter, report: Report, redact: string -> string)
    requires report.feedback.Some?
    ensures Accepts(report, Written(now, l, report, redact).1) <==> |RecentTimes(now, l.feedbackRecent)| < MAX_FEEDBACK
  {
    hide RecentTimes, RecentEntries, Repeated, BeforeQuery, Field, SecondsSince;
    var lines := Written(now, l, report, redact).1;
    if |RecentTimes(now, l.feedbackRecent)| < MAX_FEEDBACK {
      assert lines[|lines| - 1].FeedbackLine?;
    }
  }

  // ---- The text of a line, and reading it back ----

  function Quoted(fields: seq<(string, string)>): string {
    if fields == [] then ""
    else " " + fields[0].0 + "=\"" + fields[0].1 + "\"" + Quoted(fields[1..])
  }

  function Render(line: Line): string {
    match line
    case ErrorLine(message, stack, route) =>
      "ERROR" + Quoted([("message", message), ("stack", stack), ("route", route)])
    case FeedbackLine(message, expected, route, context) =>
      "FEEDBACK" + Quoted([("message", message), ("expected", expected), ("route", route), ("context", context)])
    case SummaryLine(suppressed) => "ERROR suppressed " + Text.Decimal(suppressed) + " frontend errors"
  }

  /** Read the named quoted fields, in order, to the end of the line. */
  function ReadQuoted(s: string, names: seq<string>): Option<seq<string>>
    decreases |names|
  {
    if names == [] then
      if s == "" then Some([]) else None
    else
      var open := " " + names[0] + "=\"";
      if !(open <= s) then None
      else match ReadField(s[|open|..])
        case None => None
        case Some((content, rest)) =>
          match ReadQuoted(rest, names[1..])
          case None => None
          case Some(contents) => Some([content] + contents)
  }

  lemma {:induction false} QuotedReadsBack(names: seq<string>, contents: seq<string>)
    requires |names| == |contents|
    ensures ReadQuoted(Quoted(seq(|names|, i requires 0 <= i < |names| => (names[i], Escaped(contents[i])))), names)
            == Some(contents)
  {
    var fields := seq(|names|, i requires 0 <= i < |names| => (names[i], Escaped(contents[i])));
    if names != [] {
      QuotedReadsBack(names[1..], contents[1..]);
      assert fields[1..] ==
             seq(|names[1..]|, i requires 0 <= i < |names[1..]| => (names[1..][i], Escaped(contents[1..][i])));
      var open := " " + names[0] + "=\"";
      var rest := Quoted(fields[1..]);
      EscapedReadsBack(contents[0], rest);
      assert Quoted(fields) == open + (Escaped(contents[0]) + "\"" + rest);
      assert Quoted(fields)[|open|..] == Escaped(contents[0]) + "\"" + rest;
      assert contents == [contents[0]] + contents[1..];
    }
  }

  /**
   A rendered ERROR or FEEDBACK line tells its parts apart: whatever the escaped texts contain, the quoted
   fields read back as exactly those texts and nothing is left over.
   */
  lemma LinesReadBack(m: string, s: string, r: string, c: string)
    ensures var line := Render(ErrorLine(Escaped(m), Escaped(s), Escaped(r)));
            line[..5] == "ERROR" && ReadQuoted(line[5..], ["message", "stack", "route"]) == Some([m, s, r])
    ensures var line := Render(FeedbackLine(Escaped(m), Escaped(s), Escaped(r), Escaped(c)));
            && line[..8] == "FEEDBACK"
            && ReadQuoted(line[8..], ["message", "expected", "route", "context"]) == Some([m, s, r, c])
  {
    hide Escaped, Quoted, ReadQuoted;
    var names, contents := ["message", "stack", "route"], [m, s, r];
    QuotedReadsBack(names, contents);
    assert seq(|names|, i requires 0 <= i < |names| => (names[i], Escaped(contents[i]))) ==
           [("message", Escaped(m)), ("stack", Escaped(s)), ("route", Escaped(r))];
    names, contents := ["message", "expected", "route", "context"], [m, s, r, c];
    QuotedReadsBack(names, contents);
    assert seq(|names|, i requires 0 <= i < |names| => (names[i], Escaped(contents[i]))) ==
           [("message", Escaped(m)), ("expected", Escaped(s)), ("route", Escaped(r)), ("context", Escaped(c))];
  }

  /** The page is told "accepted" by looking for this prefix: exactly the feedback lines have it. */
  lemma FeedbackLinesAreRecognised(line: Line)
    ensures "FEEDBACK " <= Render(line) <==> line.FeedbackLine?
  {
    match line
    case FeedbackLine(message, expected, route, context) =>
      var fields := [("message", message), ("expected", expected), ("route", route), ("context", context)];
      assert Quoted(fields)[0] == ' ';
      assert Render(line)[..9] == "FEEDBACK ";
    case ErrorLine(_, _, _) =>
      assert Render(line)[0] == 'E';
    case SummaryLine(_) =>
      assert Render(line)[0] == 'E';
  }
}
