/** Printing PATTERN/LEARNING blocks, and the proof that the parser reads them back. */
module CriticPrinting {
  import opened Basics
  import opened Critics
  import Text

  /** A learning as a model may print it: its content broken over one or more lines. */
  datatype Draft = Draft(pattern: Option<string>, first: string, rest: seq<string>) {
    function Pieces(): seq<string> {
      [first] + rest
    }

    function Candidate(): Candidate {
      Critics.Candidate(pattern, Joined(Pieces()))
    }

    /** Each line is trimmed and not empty, and a continuation line is neither a bullet nor a marker. */
    predicate Valid() {
      && (pattern.Some? ==> IsOneLine(pattern.value))
      && IsOneLine(first)
      && (forall k | 0 <= k < |rest| :: IsOneLine(rest[k]) && Read(rest[k]) == Wrapped(rest[k]))
    }
  }

  predicate AllValid(drafts: seq<Draft>) {
    forall d | d in drafts :: d.Valid()
  }

  function Candidates(drafts: seq<Draft>): (cs: seq<Candidate>)
    ensures |cs| == |drafts|
  {
    if drafts == [] then [] else Candidates(drafts[..|drafts| - 1]) + [drafts[|drafts| - 1].Candidate()]
  }

  // ---- The printed text ----

  function PrintWrapped(pieces: seq<string>): string {
    if pieces == [] then "" else PrintWrapped(pieces[..|pieces| - 1]) + (pieces[|pieces| - 1] + "\n")
  }

  function PrintPattern(pattern: Option<string>): string {
    match pattern
    case None => ""
    case Some(value) => "PATTERN: " + value + "\n"
  }

  function PrintDraft(draft: Draft): string {
    PrintPattern(draft.pattern) + ("LEARNING: " + draft.first + "\n") + PrintWrapped(draft.rest)
  }

  /** Blocks separated by one blank line. */
  function Print(drafts: seq<Draft>): string {
    if drafts == [] then ""
    else
      var last := |drafts| - 1;
      Print(drafts[..last]) + (if last == 0 then "" else "\n") + PrintDraft(drafts[last])
  }

  // ---- The same as parsed lines ----

  function WrappedLines(pieces: seq<string>): (lines: seq<Line>)
    ensures |lines| == |pieces| && forall k | 0 <= k < |pieces| :: lines[k] == Wrapped(pieces[k])
  {
    seq(|pieces|, k requires 0 <= k < |pieces| => Wrapped(pieces[k]))
  }

  function PatternLines(pattern: Option<string>): seq<Line> {
    match pattern
    case None => []
    case Some(value) => [Pattern(value)]
  }

  function DraftLines(draft: Draft): seq<Line> {
    PatternLines(draft.pattern) + [Learning(draft.first)] + WrappedLines(draft.rest)
  }

  function Script(drafts: seq<Draft>): seq<Line> {
    if drafts == [] then []
    else
      var last := |drafts| - 1;
      Script(drafts[..last]) + (if last == 0 then [] else [Blank]) + DraftLines(drafts[last])
  }

  lemma AllValidFront(drafts: seq<Draft>)
    requires AllValid(drafts) && drafts != []
    ensures AllValid(drafts[..|drafts| - 1]) && drafts[|drafts| - 1].Valid()
  {}

  // ---- Text to lines ----

  /** The text is whole lines, and they read as `lines`. */
  ghost predicate ReadsAs(text: string, lines: seq<Line>) {
    (text != "" ==> text[|text| - 1] == '\n') && ReadAll(Lines(text)) == lines
  }

  lemma ReadsAsComposes(s: string, t: string, a: seq<Line>, b: seq<Line>)
    requires ReadsAs(s, a) && ReadsAs(t, b)
    ensures ReadsAs(s + t, a + b)
  {
    hide Read, Lines;
    LinesOfConcatenation(s, t);
    assert ReadAll(Lines(s) + Lines(t)) == ReadAll(Lines(s)) + ReadAll(Lines(t));
    assert t == "" ==> s + t == s;
    assert t != "" ==> (s + t)[|s + t| - 1] == t[|t| - 1];
  }

  lemma LineReadsAs(line: string, meaning: Line)
    requires '\n' !in line && (line != "" ==> line[|line| - 1] != '\r') && Read(line) == meaning
    ensures ReadsAs(line + "\n", [meaning])
  {
    hide Read, Lines;
    LineReadsBack(line);
    assert ReadAll([line]) == [meaning];
  }

  lemma NothingReadsAsNothing()
    ensures ReadsAs("", [])
  {}

  lemma BlankLineReads()
    ensures ReadsAs("\n", [Blank])
  {
    assert Text.TrimStart("") == "" && Text.TrimEnd("") == "";
    assert Read("") == Blank;
    LineReadsAs("", Blank);
    assert "" + "\n" == "\n";
  }

  /** A marker line, printed, reads as its value. */
  lemma MarkersReadBack(value: string)
    requires IsOneLine(value)
    ensures Read("PATTERN: " + value) == Pattern(value)
    ensures Read("LEARNING: " + value) == Learning(value)
  {
    hide StripBullet, MarkerValue, IsOneLine, Text.EqIgnoreAsciiCase, Text.IsBlank, Text.Trim;
    MarkerLineIsUnbulleted("PATTERN", value);
    MarkerLineIsUnbulleted("LEARNING", value);
    MarkersMatch();
    MarkerValueReadsBack("PATTERN", "pattern", value);
    MarkerValueReadsBack("LEARNING", "learning", value);
    LearningIsNoPattern(value);
    assert "PATTERN" + ": " + value == "PATTERN: " + value && "LEARNING" + ": " + value == "LEARNING: " + value;
  }

  lemma MarkersMatch()
    ensures Text.EqIgnoreAsciiCase("PATTERN", "pattern") && Text.EqIgnoreAsciiCase("LEARNING", "learning")
  {}

  lemma LearningIsNoPattern(value: string)
    ensures MarkerValue("LEARNING: " + value, "pattern") == None
  {
    var line := "LEARNING: " + value;
    assert Text.AsciiLower(line[..7][0]) == 'l' && Text.AsciiLower("pattern"[0]) == 'p';
    assert !Text.EqIgnoreAsciiCase(line[..7], "pattern");
  }

  lemma MarkerLineIsUnbulleted(marker: string, value: string)
    requires marker == "PATTERN" || marker == "LEARNING"
    ensures StripBullet(marker + ": " + value) == marker + ": " + value
  {
    var line := marker + ": " + value;
    assert line[0] == marker[0];
    assert Text.TrimStart(line) == line;
    assert LeadingDigits(line) == 0;
  }

  lemma MarkerValueReadsBack(printed: string, marker: string, value: string)
    requires IsOneLine(value) && Text.EqIgnoreAsciiCase(printed, marker)
    ensures MarkerValue(printed + ": " + value, marker) == Some(value)
  {
    hide Text.Trim, Text.IsTrimmed;
    var line := printed + ": " + value;
    assert line[..|marker|] == printed;
    var rest := line[|marker|..];
    assert rest == ": " + value;
    assert Text.TrimStart(rest) == rest;
    assert Text.HasPrefix(rest, ":") && rest[1..] == " " + value;
    assert Text.Trim(" " + value) == value by {
      assert Text.TrimStart(" " + value) == Text.TrimStart(value) by { assert (" " + value)[1..] == value; }
      OneLinesAreTrimmed(value);
      Text.TrimYieldsTrimmed(value);
      SameStartSameTrim(" " + value, value);
    }
  }

  lemma SameStartSameTrim(s: string, t: string)
    requires Text.TrimStart(s) == Text.TrimStart(t)
    ensures Text.Trim(s) == Text.Trim(t)
  {}

  lemma OneLineEndsWell(s: string)
    requires IsOneLine(s)
    ensures s[|s| - 1] != '\r' && '\n' !in s
  {}

  lemma MarkerLinesRead(value: string)
    requires IsOneLine(value)
    ensures ReadsAs("PATTERN: " + value + "\n", [Pattern(value)])
    ensures ReadsAs("LEARNING: " + value + "\n", [Learning(value)])
  {
    hide Read, ReadsAs;
    OneLineEndsWell(value);
    hide IsOneLine;
    MarkersReadBack(value) by { assert IsOneLine(value); }
    var pattern, learning := "PATTERN: " + value, "LEARNING: " + value;
    assert pattern[|pattern| - 1] == value[|value| - 1] && learning[|learning| - 1] == value[|value| - 1];
    LineReadsAs(pattern, Pattern(value));
    LineReadsAs(learning, Learning(value));
  }

  lemma {:induction false} WrappedLinesRead(pieces: seq<string>)
    requires forall k | 0 <= k < |pieces| :: IsOneLine(pieces[k]) && Read(pieces[k]) == Wrapped(pieces[k])
    ensures ReadsAs(PrintWrapped(pieces), WrappedLines(pieces))
  {
    hide Read, IsOneLine, ReadsAs;
    if pieces == [] {
      NothingReadsAsNothing();
      assert WrappedLines(pieces) == [];
    } else {
      var front, last := pieces[..|pieces| - 1], pieces[|pieces| - 1];
      WrappedLinesRead(front);
      OneLineEndsWell(last);
      LineReadsAs(last, Wrapped(last));
      ReadsAsComposes(PrintWrapped(front), last + "\n", WrappedLines(front), [Wrapped(last)]);
      assert WrappedLines(pieces) == WrappedLines(front) + [Wrapped(last)];
    }
  }

  lemma DraftReads(draft: Draft)
    requires draft.Valid()
    ensures ReadsAs(PrintDraft(draft), DraftLines(draft))
  {
    hide Read, IsOneLine, ReadsAs;
    var pattern, learning := PrintPattern(draft.pattern), "LEARNING: " + draft.first + "\n";
    if draft.pattern.Some? {
      MarkerLinesRead(draft.pattern.value);
    } else {
      NothingReadsAsNothing();
    }
    MarkerLinesRead(draft.first);
    WrappedLinesRead(draft.rest);
    ReadsAsComposes(pattern, learning, PatternLines(draft.pattern), [Learning(draft.first)]);
    ReadsAsComposes(pattern + learning, PrintWrapped(draft.rest),
                    PatternLines(draft.pattern) + [Learning(draft.first)], WrappedLines(draft.rest));
  }

  lemma {:induction false} PrintReadsAsScript(drafts: seq<Draft>)
    requires AllValid(drafts)
    ensures ReadsAs(Print(drafts), Script(drafts))
  {
    hide ReadsAs, DraftLines, PrintDraft, AllValid;
    NothingReadsAsNothing();
    if drafts != [] {
      var last := |drafts| - 1;
      var front := drafts[..last];
      AllValidFront(drafts);
      PrintReadsAsScript(front);
      BlankLineReads();
      DraftReads(drafts[last]);
      var (separator, blank) := if last == 0 then ("", []) else ("\n", [Blank]);
      ReadsAsComposes(Print(front), separator, Script(front), blank);
      ReadsAsComposes(Print(front) + separator, PrintDraft(drafts[last]), Script(front) + blank, DraftLines(drafts[last]));
    }
  }

  // ---- Lines to blocks ----

  lemma {:induction false} PatternOfPrefix(lines: seq<Line>, more: seq<Line>, i: nat)
    requires i <= |lines|
    ensures PatternBefore(lines + more, i) == PatternBefore(lines, i)
  {
    if i > 0 {
      PatternOfPrefix(lines, more, i - 1);
    }
  }

  lemma {:induction false} PiecesOfPrefix(lines: seq<Line>, more: seq<Line>, i: nat, k: nat)
    requires i <= k <= |lines|
    ensures Pieces(lines + more, i, k) == Pieces(lines, i, k)
    decreases k
  {
    if i < k {
      PiecesOfPrefix(lines, more, i, k - 1);
    }
  }

  /** What follows, if it does not begin with a wrapped line, leaves the blocks so far alone. */
  lemma {:induction false} BlocksOfPrefix(lines: seq<Line>, more: seq<Line>, n: nat)
    requires n <= |lines| && (more != [] ==> !more[0].Wrapped?)
    ensures Blocks(lines + more, n) == Blocks(lines, n)
  {
    if n > 0 {
      BlocksOfPrefix(lines, more, n - 1);
      PatternOfPrefix(lines, more, n - 1);
      var e := WrapEnd(lines, n);
      WrapEndsHere(lines + more, n, e);
      PiecesOfPrefix(lines, more, n - 1, e);
    }
  }

  /** Skipping lines that are neither patterns nor learnings keeps the pattern in force. */
  lemma {:induction false} PatternAcross(lines: seq<Line>, i: nat, k: nat)
    requires i <= k <= |lines| && forall j | i <= j < k :: lines[j].Blank? || lines[j].Wrapped?
    ensures PatternBefore(lines, k) == PatternBefore(lines, i)
    decreases k
  {
    if i < k {
      PatternAcross(lines, i, k - 1);
    }
  }

  /** After a draft no pattern is in force. */
  lemma NoPatternAfterScript(drafts: seq<Draft>)
    ensures PatternBefore(Script(drafts), |Script(drafts)|) == None
  {
    if drafts != [] {
      var draft := drafts[|drafts| - 1];
      var lines := Script(drafts);
      var i := |lines| - 1 - |draft.rest|;
      assert lines[i] == Learning(draft.first);
      assert forall j | 0 <= j < |draft.rest| :: lines[i + 1 + j] == Wrapped(draft.rest[j]);
      PatternAcross(lines, i + 1, |lines|);
    }
  }

  lemma {:induction false} WrappedPieces(lines: seq<Line>, i: nat, pieces: seq<string>, k: nat)
    requires i + k <= |lines| && 0 < k <= |pieces|
    requires forall j | 0 <= j < |pieces| :: pieces[j] != ""
    requires forall j | 0 <= j < k :: lines[i + j].Piece() == pieces[j]
    ensures Pieces(lines, i, i + k) == pieces[..k]
    decreases k
  {
    if k > 1 {
      WrappedPieces(lines, i, pieces, k - 1);
    } else {
      assert Pieces(lines, i, i) == [];
    }
    assert pieces[..k] == pieces[..k - 1] + [pieces[k - 1]];
  }

  /** The lines of one draft after a finished script make exactly one more block. */
  lemma OneMoreBlock(before: seq<Line>, blank: seq<Line>, draft: Draft)
    requires draft.Valid() && (blank == [] || blank == [Blank])
    requires PatternBefore(before, |before|) == None && (before != [] ==> blank != [])
    ensures var lines := before + blank + DraftLines(draft);
            Blocks(lines, |lines|) == Blocks(before, |before|) + [draft.Candidate()]
  {
    hide Read, IsOneLine, Blocks, Block, DraftLines, PatternLines, PatternBefore, Draft.Candidate;
    var lines := before + blank + DraftLines(draft);
    var more := blank + DraftLines(draft);
    var i := |before| + |blank| + |PatternLines(draft.pattern)|;
    assert lines == before + more;
    DraftHasOneLearning(before, blank, draft);
    BlocksOfPrefix(before, more, |before|);
    NoLearningNoBlock(lines, |before|, i);
    NoLearningNoBlock(lines, i + 1, |lines|);
    PatternOfDraft(before, blank, draft);
    ContentOfDraft(lines, i, draft);
    BlockCounts(lines, i, draft);
  }

  lemma BlockCounts(lines: seq<Line>, i: nat, draft: Draft)
    requires i < |lines| && lines[i].Learning? && Block(lines, i) == draft.Candidate() && draft.Candidate().content != ""
    ensures Blocks(lines, i + 1) == Blocks(lines, i) + [draft.Candidate()]
  {}

  lemma PatternOfDraft(before: seq<Line>, blank: seq<Line>, draft: Draft)
    requires draft.Valid() && (blank == [] || blank == [Blank]) && PatternBefore(before, |before|) == None
    ensures var i := |before| + |blank| + |PatternLines(draft.pattern)|;
            i <= |before + blank + DraftLines(draft)| &&
            PatternBefore(before + blank + DraftLines(draft), i) == draft.pattern
  {
    hide Read, IsOneLine, DraftLines, Joined;
    var lines := before + blank + DraftLines(draft);
    DraftAt(before, blank, draft);
    assert lines == before + (blank + DraftLines(draft));
    PatternOfPrefix(before, blank + DraftLines(draft), |before|);
    PatternAcross(lines, |before|, |before| + |blank|);
    if draft.pattern.Some? {
      OneLineIsNotEmpty(draft.pattern.value);
      assert lines[|before| + |blank|] == Pattern(draft.pattern.value);
    }
  }

  lemma ContentOfDraft(lines: seq<Line>, i: nat, draft: Draft)
    requires draft.Valid() && |lines| == i + 1 + |draft.rest|
    requires lines[i] == Learning(draft.first)
    requires forall j | i < j < |lines| :: lines[j] == Wrapped(draft.rest[j - i - 1])
    requires PatternBefore(lines, i) == draft.pattern
    ensures Block(lines, i) == draft.Candidate() && draft.Candidate().content != ""
  {
    hide Read, IsOneLine, Joined, Pieces, PatternBefore;
    var pieces := draft.Pieces();
    WrapEndsHere(lines, i + 1, |lines|);
    forall j | 0 <= j < |pieces| ensures pieces[j] != "" {
      OneLineIsNotEmpty(pieces[j]);
    }
    forall j | 0 <= j < |pieces| ensures lines[i + j].Piece() == pieces[j] {}
    WrappedPieces(lines, i, pieces, |pieces|);
    assert pieces[..|pieces|] == pieces;
    JoinedGrows(pieces, "");
  }

  lemma OneLineIsNotEmpty(s: string)
    requires IsOneLine(s)
    ensures s != ""
  {}

  lemma DraftHasOneLearning(before: seq<Line>, blank: seq<Line>, draft: Draft)
    requires blank == [] || blank == [Blank]
    ensures var lines := before + blank + DraftLines(draft);
            var more := blank + DraftLines(draft);
            var i := |before| + |blank| + |PatternLines(draft.pattern)|;
            && |lines| == i + 1 + |draft.rest|
            && !more[0].Wrapped?
            && lines[i] == Learning(draft.first)
            && (forall j | |before| <= j < i :: !lines[j].Learning?)
            && forall j | i < j < |lines| :: lines[j] == Wrapped(draft.rest[j - i - 1])
  {
    DraftAt(before, blank, draft);
  }

  lemma DraftAt(before: seq<Line>, blank: seq<Line>, draft: Draft)
    ensures var lines := before + blank + DraftLines(draft);
            var i := |before| + |blank| + |PatternLines(draft.pattern)|;
            && |lines| == i + 1 + |draft.rest|
            && (forall j | |before| <= j < |before| + |blank| :: lines[j] == blank[j - |before|])
            && (forall j | |before| + |blank| <= j < i :: lines[j] == PatternLines(draft.pattern)[j - |before| - |blank|])
            && lines[i] == Learning(draft.first)
            && forall j | i < j < |lines| :: lines[j] == Wrapped(draft.rest[j - i - 1])
  {}

  lemma {:induction false} ScriptHoldsTheDrafts(drafts: seq<Draft>)
    requires AllValid(drafts)
    ensures Blocks(Script(drafts), |Script(drafts)|) == Candidates(drafts)
  {
    hide AllValid, Blocks, DraftLines, PatternBefore;
    if drafts != [] {
      var last := |drafts| - 1;
      var front := drafts[..last];
      AllValidFront(drafts);
      ScriptHoldsTheDrafts(front);
      NoPatternAfterScript(front);
      var blank := if last == 0 then [] else [Blank];
      OneMoreBlock(Script(front), blank, drafts[last]);
    } else {
      NoLinesNoBlocks();
    }
  }

  lemma NoLinesNoBlocks()
    ensures Blocks([], 0) == []
  {}

  // ---- Round trips ----

  /** Parsing what was printed, on as many lines as one likes, yields the first three learnings. */
  lemma WrappedLearningsReadBack(drafts: seq<Draft>)
    requires AllValid(drafts)
    ensures FirstBlocks(ReadAll(Lines(Print(drafts)))) ==
            if |drafts| <= MAX_CANDIDATES then Candidates(drafts) else Candidates(drafts)[..MAX_CANDIDATES]
  {
    PrintReadsAsScript(drafts);
    ScriptHoldsTheDrafts(drafts);
  }

  /** The critic's strict output format: every learning on one line. */
  function Drafts(cs: seq<Candidate>): (drafts: seq<Draft>)
    ensures |drafts| == |cs| && forall k | 0 <= k < |cs| :: drafts[k] == Draft(cs[k].pattern, cs[k].content, [])
  {
    seq(|cs|, k requires 0 <= k < |cs| => Draft(cs[k].pattern, cs[k].content, []))
  }

  lemma {:induction false} DraftsKeepTheCandidates(cs: seq<Candidate>)
    ensures Candidates(Drafts(cs)) == cs
  {
    if cs != [] {
      var front := cs[..|cs| - 1];
      DraftsKeepTheCandidates(front);
      assert Drafts(cs)[..|cs| - 1] == Drafts(front);
    }
  }

  /** Up to three printable candidates, printed, read back as they were. */
  lemma CandidatesReadBack(cs: seq<Candidate>)
    requires |cs| <= MAX_CANDIDATES && forall c | c in cs :: IsPrintable(c)
    ensures FirstBlocks(ReadAll(Lines(Print(Drafts(cs))))) == cs
  {
    forall d | d in Drafts(cs) ensures d.Valid() {
      var k :| 0 <= k < |cs| && Drafts(cs)[k] == d;
      assert cs[k] in cs;
    }
    WrappedLearningsReadBack(Drafts(cs));
    DraftsKeepTheCandidates(cs);
  }

  /** Whatever the model printed: parsing it, printing the result and parsing again changes nothing. */
  lemma ParsingIsStable(raw: string)
    ensures var cs := FirstBlocks(ReadAll(Lines(raw)));
            FirstBlocks(ReadAll(Lines(Print(Drafts(cs))))) == cs
  {
    ResultsArePrintable(raw);
    CandidatesReadBack(FirstBlocks(ReadAll(Lines(raw))));
  }
}
