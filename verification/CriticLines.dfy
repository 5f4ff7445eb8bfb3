/**
 What a line of the critic's answer means, by the parts it is written in: an optional bullet, a label in any case, a
 colon, and a value. And the round trip for answers with bullets, odd spacing and any spelling of the labels.
 */
module CriticLines {
  import opened Basics
  import opened Critics
  import opened CriticPrinting
  import Text

  /** A list bullet with its space: a dash, a star, a plus sign, or a number with a dot or a parenthesis. Or none. */
  predicate IsBullet(b: string) {
    || b == "" || b == "- " || b == "* " || b == "+ "
    || (|b| >= 3 && Text.AllDigits(b[..|b| - 2]) && (b[|b| - 2] == '.' || b[|b| - 2] == ')') && b[|b| - 1] == ' ')
  }

  predicate IsBulleted(s: string) {
    exists n | 0 < n <= |s| :: IsBullet(s[..n])
  }

  /** The whitespace and the bullet before what the line says. */
  datatype Lead = Lead(indent: string, bullet: string, gap: string) {
    predicate Valid() {
      Text.AllWhitespace(indent) && IsBullet(bullet) && Text.AllWhitespace(gap)
    }

    function Before(body: string): string {
      indent + (bullet + (gap + body))
    }
  }

  // ---- Bullets ----

  lemma {:induction false} DigitsLead(digits: string, rest: string)
    requires Text.AllDigits(digits) && (rest != "" ==> !Text.IsAsciiDigit(rest[0]))
    ensures LeadingDigits(digits + rest) == |digits|
  {
    if digits == "" {
      assert digits + rest == rest;
    } else {
      assert digits[0] in digits && forall c | c in digits[1..] :: c in digits;
      assert (digits + rest)[1..] == digits[1..] + rest;
      DigitsLead(digits[1..], rest);
    }
  }

  lemma NumberedStrips(b: string, rest: string)
    requires IsBullet(b) && |b| >= 3
    ensures StripBullet(b + rest) == Text.TrimStart(rest)
  {
    hide Text.TrimStart;
    var digits, mark := b[..|b| - 2], b[|b| - 2..];
    var s := b + rest;
    assert digits[0] in digits;
    assert s == digits + (mark + rest);
    DigitsLead(digits, mark + rest);
    NotSpaceStarts(s);
    assert s[|digits|..] == mark + rest;
    assert (mark + rest)[2..] == rest && (mark + rest)[..2] == mark;
  }

  lemma NotSpaceStarts(s: string)
    requires s != "" && !Text.IsWhitespace(s[0])
    ensures Text.TrimStart(s) == s
  {}

  lemma SignStrips(b: string, rest: string)
    requires b == "- " || b == "* " || b == "+ "
    ensures StripBullet(b + rest) == Text.TrimStart(rest)
  {
    NotSpaceStarts(b + rest);
    assert (b + rest)[2..] == rest && (b + rest)[..2] == b;
  }

  lemma PlainStrips(body: string)
    requires body != "" ==> !Text.IsWhitespace(body[0])
    requires !IsBulleted(body)
    ensures StripBullet(body) == body
  {
    hide Text.TrimStart, LeadingDigits;
    if body != "" {
      NotSpaceStarts(body);
    } else {
      NothingStripsToNothing();
    }
    NoSignNoBullet(body);
    NoNumberNoBullet(body);
    hide IsBulleted;
  }

  lemma NothingStripsToNothing()
    ensures Text.TrimStart("") == ""
  {}

  lemma NoSignNoBullet(body: string)
    requires !IsBulleted(body)
    ensures !Text.HasPrefix(body, "- ") && !Text.HasPrefix(body, "* ") && !Text.HasPrefix(body, "+ ")
  {
    if |body| >= 2 {
      assert !IsBullet(body[..2]);
    }
  }

  lemma NoNumberNoBullet(body: string)
    requires !IsBulleted(body)
    ensures var n := LeadingDigits(body);
            n > 0 ==> !Text.HasPrefix(body[n..], ". ") && !Text.HasPrefix(body[n..], ") ")
  {
    var n := LeadingDigits(body);
    LeadingDigitsAreDigits(body);
    hide LeadingDigits;
    if n > 0 && n + 2 <= |body| {
      var b := body[..n + 2];
      assert !IsBullet(b);
      assert b[..|b| - 2] == body[..n];
      assert body[n..][0] == b[n] && body[n..][1] == b[n + 1];
    }
  }

  lemma {:induction false} LeadingDigitsAreDigits(s: string)
    ensures Text.AllDigits(s[..LeadingDigits(s)])
  {
    if s != "" && Text.IsAsciiDigit(s[0]) {
      LeadingDigitsAreDigits(s[1..]);
      var n := LeadingDigits(s[1..]);
      assert s[..n + 1] == [s[0]] + s[1..][..n];
    }
  }

  lemma IndentChangesNothing(indent: string, rest: string)
    requires Text.AllWhitespace(indent)
    ensures StripBullet(indent + rest) == StripBullet(rest)
  {
    IndentIsTrimmed(indent, rest);
    hide Text.TrimStart;
  }

  lemma {:induction false} IndentIsTrimmed(indent: string, rest: string)
    requires Text.AllWhitespace(indent)
    ensures Text.TrimStart(indent + rest) == Text.TrimStart(rest)
    decreases |indent|
  {
    if indent == "" {
      assert indent + rest == rest;
    } else {
      assert indent[0] in indent && forall c | c in indent[1..] :: c in indent;
      assert (indent + rest)[1..] == indent[1..] + rest;
      IndentIsTrimmed(indent[1..], rest);
    }
  }

  /** A lead, of whatever kind, is stripped; only a second bullet would stay. */
  lemma LeadsAreStripped(lead: Lead, body: string)
    requires lead.Valid() && (body != "" ==> !Text.IsWhitespace(body[0]))
    requires lead.bullet == "" ==> !IsBulleted(body)
    ensures StripBullet(lead.Before(body)) == body
  {
    hide StripBullet, IsBulleted, Text.TrimStart;
    var rest := lead.gap + body;
    IndentChangesNothing(lead.indent, lead.bullet + rest);
    Text.TrimStartSkips(lead.gap, body);
    if lead.bullet == "" {
      assert lead.bullet + rest == rest;
      IndentChangesNothing(lead.gap, body);
      PlainStrips(body);
    } else if |lead.bullet| == 2 {
      SignStrips(lead.bullet, rest);
    } else {
      NumberedStrips(lead.bullet, rest);
    }
  }

  /** Whatever is stripped from a line is such a lead. */
  lemma StrippedIsALead(line: string) returns (lead: Lead)
    ensures lead.Valid() && line == lead.Before(StripBullet(line))
    ensures StripBullet(line) != "" ==> !Text.IsWhitespace(StripBullet(line)[0])
  {
    hide Text.IsWhitespace, Text.TrimStart, Text.AllWhitespace, IsBullet;
    var indent := Text.TrimStartDropsWhitespace(line);
    Text.TrimStartIsSuffix(line);
    var trimmed := Text.TrimStart(line);
    var size := BulletSize(trimmed);
    var bullet, rest := trimmed[..size], trimmed[size..];
    assert trimmed == bullet + rest;
    if size == 0 {
      lead := Lead(indent, bullet, "");
      assert "" + trimmed == trimmed && Text.AllWhitespace("") by { NothingIsWhitespace(); }
    } else {
      var gap := Text.TrimStartDropsWhitespace(rest);
      Text.TrimStartIsSuffix(rest);
      lead := Lead(indent, bullet, gap);
    }
    hide StripBullet;
    assert bullet + rest == bullet + (lead.gap + StripBullet(line));
  }

  lemma NothingIsWhitespace()
    ensures Text.AllWhitespace("")
  {}

  /** How long the bullet is that is stripped. */
  lemma BulletSize(trimmed: string) returns (size: nat)
    ensures size <= |trimmed| && IsBullet(trimmed[..size])
    ensures forall line | Text.TrimStart(line) == trimmed ::
              StripBullet(line) == if size == 0 then trimmed else Text.TrimStart(trimmed[size..])
  {
    hide Text.TrimStart, IsBullet;
    var n := LeadingDigits(trimmed);
    if Text.HasPrefix(trimmed, "- ") || Text.HasPrefix(trimmed, "* ") || Text.HasPrefix(trimmed, "+ ") {
      size := 2;
      SignsAreBullets(trimmed[..2]);
    } else if n > 0 && (Text.HasPrefix(trimmed[n..], ". ") || Text.HasPrefix(trimmed[n..], ") ")) {
      size := n + 2;
      NumbersAreBullets(trimmed, n);
    } else {
      size := 0;
      SignsAreBullets(trimmed[..0]);
    }
  }

  lemma SignsAreBullets(b: string)
    ensures b == "" || b == "- " || b == "* " || b == "+ " ==> IsBullet(b)
  {}

  lemma NumbersAreBullets(trimmed: string, n: nat)
    requires 0 < n == LeadingDigits(trimmed) && (Text.HasPrefix(trimmed[n..], ". ") || Text.HasPrefix(trimmed[n..], ") "))
    ensures n + 2 <= |trimmed| && IsBullet(trimmed[..n + 2]) && trimmed[n + 2..] == trimmed[n..][2..]
  {
    LeadingDigitsAreDigits(trimmed);
    hide LeadingDigits;
    assert trimmed[n..][0] == trimmed[n] && trimmed[n..][1] == trimmed[n + 1];
    assert trimmed[..n + 2][..n] == trimmed[..n];
  }

  // ---- Labels ----

  /** A label in any ASCII case, a colon with whitespace on either side, and the value. */
  datatype Marking = Marking(word: string, beforeColon: string, afterColon: string, value: string, tail: string) {
    predicate Valid(marker: string) {
      && Text.EqIgnoreAsciiCase(word, marker) && Text.IsTrimmed(value)
      && Text.AllWhitespace(beforeColon) && Text.AllWhitespace(afterColon) && Text.AllWhitespace(tail)
    }

    function Written(): string {
      word + (beforeColon + (":" + (afterColon + value + tail)))
    }
  }

  /** A marking yields its value. */
  lemma MarkingsAreRead(m: Marking, marker: string)
    requires m.Valid(marker)
    ensures MarkerValue(m.Written(), marker) == Some(m.value)
  {
    hide Text.Trim, Text.TrimStart, Text.IsTrimmed;
    var line, rest := m.Written(), ":" + (m.afterColon + m.value + m.tail);
    assert line[..|marker|] == m.word && line[|marker|..] == m.beforeColon + rest;
    Text.TrimStartSkips(m.beforeColon, rest);
    assert rest[..1] == ":" && rest[1..] == m.afterColon + m.value + m.tail;
    Text.TrimIsExactly(m.afterColon, m.value, m.tail);
  }

  /** And only a marking does. */
  lemma OnlyMarkingsAreRead(line: string, marker: string) returns (m: Marking)
    requires MarkerValue(line, marker).Some?
    ensures m.Valid(marker) && m.Written() == line && m.value == MarkerValue(line, marker).value
  {
    hide Text.Trim, Text.TrimStart, Text.IsTrimmed, Text.IsWhitespace, Text.AllWhitespace, Text.EqIgnoreAsciiCase;
    var word, rest := line[..|marker|], line[|marker|..];
    var beforeColon := Text.TrimStartDropsWhitespace(rest);
    var tail := Text.TrimStart(rest);
    assert tail == ":" + tail[1..];
    var afterColon, end := Text.TrimDropsWhitespace(tail[1..]);
    Text.TrimYieldsTrimmed(tail[1..]);
    m := Marking(word, beforeColon, afterColon, Text.Trim(tail[1..]), end);
    assert line == word + rest;
  }

  // ---- What a line means ----

  /** The line is a marking behind a lead. */
  ghost predicate Marks(line: string, marker: string, value: string) {
    exists lead: Lead, m: Marking ::
      lead.Valid() && m.Valid(marker) && m.value == value && line == lead.Before(m.Written())
  }

  lemma BulletsAreNoLetters(b: string)
    requires b != ""
    ensures IsBullet(b) ==> b[0] == '-' || b[0] == '*' || b[0] == '+' || Text.IsAsciiDigit(b[0])
  {
    if |b| >= 3 {
      assert b[..|b| - 2][0] == b[0] && b[0] in b[..|b| - 2];
    }
  }

  lemma LabelsBeginLines(m: Marking, marker: string)
    requires m.Valid(marker) && (marker == "pattern" || marker == "learning")
    ensures m.Written() != "" && !Text.IsWhitespace(m.Written()[0]) && !IsBulleted(m.Written())
    ensures marker == "learning" ==> MarkerValue(m.Written(), "pattern").None?
  {
    var line := m.Written();
    var c := line[0];
    assert c == m.word[0] && Text.AsciiLower(c) == marker[0];
    forall n | 0 < n <= |line| ensures !IsBullet(line[..n]) {
      assert line[..n][0] == c;
      BulletsAreNoLetters(line[..n]);
    }
    if marker == "learning" {
      assert line[..7][0] == c && "pattern"[0] == 'p';
      assert !Text.EqIgnoreAsciiCase(line[..7], "pattern");
    }
  }

  /** Marked lines read as what they mark. */
  lemma MarkedLinesRead(lead: Lead, m: Marking, marker: string)
    requires lead.Valid() && m.Valid(marker) && (marker == "pattern" || marker == "learning")
    ensures Read(lead.Before(m.Written())) == if marker == "pattern" then Pattern(m.value) else Learning(m.value)
  {
    LabelsBeginLines(m, marker);
    MarkingsAreRead(m, marker);
    LeadsAreStripped(lead, m.Written());
    hide StripBullet, MarkerValue, Lead.Before, Marking.Written;
  }

  /** A line is read as a pattern or a learning exactly if it marks one. */
  lemma MarkersAreReadExactly(line: string, value: string)
    ensures Read(line) == Pattern(value) <==> Marks(line, "pattern", value)
    ensures Read(line) == Learning(value) <==> Marks(line, "learning", value)
  {
    hide StripBullet, MarkerValue, Lead.Valid, Lead.Before, Marking.Valid, Marking.Written, Text.IsBlank, Text.Trim;
    var lead := StrippedIsALead(line);
    var body := StripBullet(line);
    if Read(line) == Pattern(value) {
      var m := OnlyMarkingsAreRead(body, "pattern");
    }
    if Read(line) == Learning(value) {
      var m := OnlyMarkingsAreRead(body, "learning");
    }
    forall marker | (marker == "pattern" || marker == "learning") && Marks(line, marker, value)
      ensures Read(line) == if marker == "pattern" then Pattern(value) else Learning(value)
    {
      var lead': Lead, m: Marking :| lead'.Valid() && m.Valid(marker) && m.value == value && line == lead'.Before(m.Written());
      MarkedLinesRead(lead', m, marker);
    }
  }

  /** Nothing but a lead is blank. */
  lemma BlanksAreReadExactly(line: string)
    ensures Read(line) == Blank <==> exists lead: Lead :: lead.Valid() && line == lead.Before("")
  {
    hide StripBullet, MarkerValue, Lead.Valid, Lead.Before, Text.Trim, Text.IsWhitespace;
    var own := StrippedIsALead(line);
    var body := StripBullet(line);
    Text.BlankIsAllWhitespace(body);
    if body != "" {
      assert body[0] in body;
    }
    if lead: Lead :| lead.Valid() && line == lead.Before("") {
      NothingIsNoBullet();
      LeadsAreStripped(lead, "");
      NothingIsUnmarked();
    }
  }

  lemma NothingIsNoBullet()
    ensures !IsBulleted("")
  {}

  lemma NothingIsUnmarked()
    ensures MarkerValue("", "pattern") == None && MarkerValue("", "learning") == None && Text.IsBlank("")
  {}

  /** A text behind a lead, with no marking of its own, wraps whatever came before it. */
  lemma TextsAreRead(lead: Lead, text: string, tail: string)
    requires lead.Valid() && IsOneLine(text) && Text.AllWhitespace(tail)
    requires lead.bullet == "" ==> !IsBulleted(text + tail)
    requires forall m: Marking, marker | marker == "pattern" || marker == "learning" :: m.Valid(marker) ==> m.Written() != text + tail
    ensures Read(lead.Before(text + tail)) == Wrapped(text)
  {
    hide StripBullet, MarkerValue, Marking.Valid, Marking.Written, Lead.Before, Text.Trim;
    var body := text + tail;
    OneLinesAreTrimmed(text);
    LeadsAreStripped(lead, body);
    forall marker | marker == "pattern" || marker == "learning" ensures MarkerValue(body, marker).None? {
      if MarkerValue(body, marker).Some? {
        var m := OnlyMarkingsAreRead(body, marker);
      }
    }
    assert "" + text + tail == body;
    Text.TrimIsExactly("", text, tail);
  }

  // ---- Loosely written answers ----

  /** How an answer is written: its leads, its labels and its spacing. */
  datatype Look = Look(
    lead: Lead, patternLabel: string, learningLabel: string, beforeColon: string, afterColon: string, tail: string)
  {
    predicate Valid() {
      && lead.Valid()
      && Text.EqIgnoreAsciiCase(patternLabel, "pattern") && Text.EqIgnoreAsciiCase(learningLabel, "learning")
      && Text.AllWhitespace(beforeColon) && Text.AllWhitespace(afterColon) && Text.AllWhitespace(tail)
      && forall s | s in [lead.indent, lead.gap, beforeColon, afterColon, tail] :: '\n' !in s && '\r' !in s
    }

    function PatternLine(value: string): string {
      lead.Before(Marking(patternLabel, beforeColon, afterColon, value, tail).Written())
    }

    function LearningLine(value: string): string {
      lead.Before(Marking(learningLabel, beforeColon, afterColon, value, tail).Written())
    }
  }

  function PrintLoosely(cs: seq<Candidate>, look: Look): string {
    if cs == [] then ""
    else
      var last := cs[|cs| - 1];
      PrintLoosely(cs[..|cs| - 1], look) + (if |cs| == 1 then "" else "\n")
      + ((if last.pattern.Some? then look.PatternLine(last.pattern.value) + "\n" else "")
         + (look.LearningLine(last.content) + "\n"))
  }

  /** No part of the line breaks it. */
  lemma LooseLinesAreLines(lead: Lead, m: Marking, marker: string)
    requires lead.Valid() && m.Valid(marker) && (marker == "pattern" || marker == "learning") && IsOneLine(m.value)
    requires forall s | s in [lead.indent, lead.gap, m.beforeColon, m.afterColon, m.tail] :: '\n' !in s && '\r' !in s
    ensures var line := lead.Before(m.Written()); '\n' !in line && line != "" && line[|line| - 1] != '\r'
  {
    var line := lead.Before(m.Written());
    var parts := [lead.indent, lead.gap, m.beforeColon, m.afterColon, m.tail];
    assert parts[0] == lead.indent && parts[1] == lead.gap && parts[2] == m.beforeColon && parts[3] == m.afterColon && parts[4] == m.tail;
    assert '\n' !in lead.indent && '\n' !in lead.gap && '\n' !in m.beforeColon && '\n' !in m.afterColon && '\n' !in m.tail;
    LabelsHaveNoBreaks(m.word, marker);
    BulletsHaveNoBreaks(lead.bullet);
    LastOfLine(lead, m);
  }

  lemma LabelsHaveNoBreaks(word: string, marker: string)
    requires Text.EqIgnoreAsciiCase(word, marker) && (marker == "pattern" || marker == "learning")
    ensures '\n' !in word
  {
    forall i | 0 <= i < |word| ensures word[i] != '\n' {
      assert Text.AsciiLower(word[i]) == Text.AsciiLower(marker[i]);
      assert marker[i] >= 'a';
    }
  }

  lemma BulletsHaveNoBreaks(b: string)
    requires IsBullet(b)
    ensures '\n' !in b
  {
    if |b| >= 3 {
      assert b == b[..|b| - 2] + [b[|b| - 2], b[|b| - 1]];
    }
  }

  lemma LastOfLine(lead: Lead, m: Marking)
    requires IsOneLine(m.value) && '\r' !in m.tail
    ensures var line := lead.Before(m.Written()); line != "" && line[|line| - 1] != '\r'
  {
    hide Text.IsTrimmed, Text.IsWhitespace;
    var line := lead.Before(m.Written());
    if m.tail == "" {
      OneLineEndsWell(m.value);
      assert line[|line| - 1] == m.value[|m.value| - 1];
    } else {
      assert line[|line| - 1] == m.tail[|m.tail| - 1];
    }
  }

  lemma LooseLineReads(look: Look, value: string)
    requires look.Valid() && IsOneLine(value)
    ensures ReadsAs(look.PatternLine(value) + "\n", [Pattern(value)])
    ensures ReadsAs(look.LearningLine(value) + "\n", [Learning(value)])
  {
    hide ReadsAs, Lead.Before, Marking.Written, Lead.Valid, Text.EqIgnoreAsciiCase, Read;
    OneLinesAreTrimmed(value);
    var pattern := Marking(look.patternLabel, look.beforeColon, look.afterColon, value, look.tail);
    var learning := Marking(look.learningLabel, look.beforeColon, look.afterColon, value, look.tail);
    LooseLinesAreLines(look.lead, pattern, "pattern");
    LooseLinesAreLines(look.lead, learning, "learning");
    MarkedLinesRead(look.lead, pattern, "pattern");
    MarkedLinesRead(look.lead, learning, "learning");
    LineReadsAs(look.PatternLine(value), Pattern(value));
    LineReadsAs(look.LearningLine(value), Learning(value));
  }

  lemma LooseBlockReads(c: Candidate, look: Look)
    requires look.Valid() && IsPrintable(c)
    ensures ReadsAs((if c.pattern.Some? then look.PatternLine(c.pattern.value) + "\n" else "") + (look.LearningLine(c.content) + "\n"),
                    DraftLines(Draft(c.pattern, c.content, [])))
  {
    hide ReadsAs, Look.PatternLine, Look.LearningLine, Look.Valid, IsOneLine;
    LooseLineReads(look, c.content);
    NothingReadsAsNothing();
    if c.pattern.Some? {
      LooseLineReads(look, c.pattern.value);
      ReadsAsComposes(look.PatternLine(c.pattern.value) + "\n", look.LearningLine(c.content) + "\n",
                      [Pattern(c.pattern.value)], [Learning(c.content)]);
    } else {
      ReadsAsComposes("", look.LearningLine(c.content) + "\n", [], [Learning(c.content)]);
    }
    assert DraftLines(Draft(c.pattern, c.content, [])) == PatternLines(c.pattern) + [Learning(c.content)];
  }

  lemma {:induction false} LoosePrintReadsAsScript(cs: seq<Candidate>, look: Look)
    requires look.Valid() && forall c | c in cs :: IsPrintable(c)
    ensures ReadsAs(PrintLoosely(cs, look), Script(Drafts(cs)))
  {
    hide ReadsAs, DraftLines, Look.PatternLine, Look.LearningLine, Look.Valid, IsPrintable;
    NothingReadsAsNothing();
    if cs != [] {
      var front, last := cs[..|cs| - 1], cs[|cs| - 1];
      assert last in cs && forall c | c in front :: c in cs;
      LoosePrintReadsAsScript(front, look);
      BlankLineReads();
      LooseBlockReads(last, look);
      var (separator, blank) := if |cs| == 1 then ("", []) else ("\n", [Blank]);
      var block := (if last.pattern.Some? then look.PatternLine(last.pattern.value) + "\n" else "")
                   + (look.LearningLine(last.content) + "\n");
      assert Drafts(cs)[..|cs| - 1] == Drafts(front);
      ReadsAsComposes(PrintLoosely(front, look), separator, Script(Drafts(front)), blank);
      ReadsAsComposes(PrintLoosely(front, look) + separator, block, Script(Drafts(front)) + blank,
                      DraftLines(Draft(last.pattern, last.content, [])));
    }
  }

  /**
   However the blocks are written, with any bullet and spacing and with labels in any case: the first three printable
   candidates read back as they were.
   */
  lemma LooselyWrittenCandidatesReadBack(cs: seq<Candidate>, look: Look)
    requires look.Valid() && forall c | c in cs :: IsPrintable(c)
    ensures FirstBlocks(ReadAll(Lines(PrintLoosely(cs, look)))) == if |cs| <= 3 then cs else cs[..3]
  {
    LoosePrintReadsAsScript(cs, look);
    hide Look.Valid, PrintLoosely, Script;
    forall d | d in Drafts(cs) ensures d.Valid() {
      var k :| 0 <= k < |cs| && Drafts(cs)[k] == d;
      assert cs[k] in cs;
    }
    ScriptHoldsTheDrafts(Drafts(cs));
    DraftsKeepTheCandidates(cs);
  }
}
