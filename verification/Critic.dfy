/** The learning critic's answer parser: PATTERN/LEARNING blocks out of whatever a model printed. */
module Critics {
  import opened Basics
  import Text

  datatype Candidate = Candidate(pattern: Option<string>, content: string)

  const MAX_CANDIDATES: nat := 3

  // ---- Lines ----

  /** The position of the first line feed, or the length. */
  function FirstNewline(s: string): (k: nat)
    ensures k <= |s| && (forall i | 0 <= i < k :: s[i] != '\n') && (k < |s| ==> s[k] == '\n')
  {
    if s == "" || s[0] == '\n' then 0 else 1 + FirstNewline(s[1..])
  }

  /** `str::lines`: split at line feeds, each with an optional carriage return before it. */
  function Lines(raw: string): seq<string> {
    if raw == "" then []
    else
      var k := FirstNewline(raw);
      if k == |raw| then [raw]
      else [LineBefore(raw, k)] + Lines(raw[k + 1..])
  }

  function LineBefore(raw: string, newline: nat): string
    requires newline < |raw|
  {
    if newline > 0 && raw[newline - 1] == '\r' then raw[..newline - 1] else raw[..newline]
  }

  lemma {:induction false} LinesHoldNoNewline(raw: string)
    ensures forall line | line in Lines(raw) :: '\n' !in line
    decreases |raw|
  {
    if raw != "" && FirstNewline(raw) < |raw| {
      LinesHoldNoNewline(raw[FirstNewline(raw) + 1..]);
    }
  }

  lemma NewlineIsFirst(s: string, k: nat)
    requires k < |s| && s[k] == '\n' && forall i | 0 <= i < k :: s[i] != '\n'
    ensures FirstNewline(s) == k
  {}

  lemma {:induction false} LinesOfConcatenation(s: string, t: string)
    requires s != "" ==> s[|s| - 1] == '\n'
    ensures Lines(s + t) == Lines(s) + Lines(t)
    decreases |s|
  {
    hide Lines, FirstNewline, LineBefore;
    NothingHasNoLines();
    if s == "" {
      assert s + t == t;
    } else {
      var k := FirstNewline(s);
      NewlineIsFirst(s + t, k);
      SplittingOffALine(s, t, k);
      LinesOfConcatenation(s[k + 1..], t);
      LinesStep(s, k);
      LinesStep(s + t, k);
    }
  }

  lemma NothingHasNoLines()
    ensures Lines("") == []
  {}

  lemma LinesStep(s: string, k: nat)
    requires k < |s| && FirstNewline(s) == k
    ensures Lines(s) == [LineBefore(s, k)] + Lines(s[k + 1..])
  {}

  lemma SplittingOffALine(s: string, t: string, k: nat)
    requires k < |s|
    ensures LineBefore(s + t, k) == LineBefore(s, k)
    ensures (s + t)[k + 1..] == s[k + 1..] + t
  {
    assert (s + t)[..k] == s[..k];
    assert k > 0 ==> (s + t)[..k - 1] == s[..k - 1];
  }

  lemma LineReadsBack(line: string)
    requires '\n' !in line && (line != "" ==> line[|line| - 1] != '\r')
    ensures Lines(line + "\n") == [line]
  {
    hide Lines, FirstNewline;
    var s := line + "\n";
    assert s[..|line|] == line && s[|line| + 1..] == "";
    NewlineIsFirst(s, |line|);
    LinesStep(s, |line|);
    NothingHasNoLines();
  }

  // ---- One line ----

  function LeadingDigits(s: string): (n: nat)
    ensures n <= |s|
  {
    if s != "" && Text.IsAsciiDigit(s[0]) then 1 + LeadingDigits(s[1..]) else 0
  }

  /** Strip a leading list bullet: "- ", "* ", "+ ", "1. " or "1) ". */
  function StripBullet(line: string): string {
    var trimmed := Text.TrimStart(line);
    if Text.HasPrefix(trimmed, "- ") || Text.HasPrefix(trimmed, "* ") || Text.HasPrefix(trimmed, "+ ") then
      Text.TrimStart(trimmed[2..])
    else
      var digits := LeadingDigits(trimmed);
      var rest := trimmed[digits..];
      if digits > 0 && (Text.HasPrefix(rest, ". ") || Text.HasPrefix(rest, ") ")) then Text.TrimStart(rest[2..])
      else trimmed
  }

  /** The value behind the marker and a colon at the start of the line, in any ASCII case. */
  function MarkerValue(line: string, marker: string): Option<string> {
    if |line| < |marker| || !Text.EqIgnoreAsciiCase(line[..|marker|], marker) then None
    else
      match Text.StripPrefix(Text.TrimStart(line[|marker|..]), ":")
      case None => None
      case Some(value) => Some(Text.Trim(value))
  }

  /** What one line means to the parser. */
  datatype Line = Pattern(value: string) | Learning(value: string) | Blank | Wrapped(text: string) {
    function Piece(): string {
      match this
      case Pattern(value) => value
      case Learning(value) => value
      case Blank => ""
      case Wrapped(text) => text
    }
  }

  function Read(raw: string): Line {
    var line := StripBullet(raw);
    if MarkerValue(line, "pattern").Some? then Pattern(MarkerValue(line, "pattern").value)
    else if MarkerValue(line, "learning").Some? then Learning(MarkerValue(line, "learning").value)
    else if Text.IsBlank(line) then Blank
    else Wrapped(Text.Trim(line))
  }

  function ReadAll(raws: seq<string>): (lines: seq<Line>)
    ensures |lines| == |raws|
    ensures forall k | 0 <= k < |raws| :: lines[k] == Read(raws[k])
  {
    seq(|raws|, k requires 0 <= k < |raws| => Read(raws[k]))
  }

  ghost predicate IsPieceOf(piece: string, whole: string) {
    exists i, j | 0 <= i <= j <= |whole| :: piece == whole[i..j]
  }

  lemma PieceOfPiece(piece: string, middle: string, whole: string)
    requires IsPieceOf(piece, middle) && IsPieceOf(middle, whole)
    ensures IsPieceOf(piece, whole)
  {
    var i, j :| 0 <= i <= j <= |whole| && middle == whole[i..j];
    var k, l :| 0 <= k <= l <= |middle| && piece == middle[k..l];
    SlicesNest(whole, i, j, k, l);
  }

  lemma SlicesNest(s: string, i: int, j: int, k: int, l: int)
    requires 0 <= i <= j <= |s| && 0 <= k <= l <= j - i
    ensures s[i..j][k..l] == s[i + k..i + l]
  {
    var m := s[i..j];
    var a, b := m[k..l], s[i + k..i + l];
    assert |a| == |b|;
    forall x | 0 <= x < |a| ensures a[x] == b[x] {
      assert a[x] == m[k + x];
      assert m[k + x] == s[i + (k + x)];
    }
    assert a == b;
  }

  lemma SuffixIsPiece(whole: string, k: nat)
    requires k <= |whole|
    ensures IsPieceOf(whole[k..], whole)
  {
    assert whole[k..] == whole[k..|whole|];
  }

  lemma TrimStartIsPiece(s: string)
    ensures IsPieceOf(Text.TrimStart(s), s)
  {
    Text.TrimStartIsSuffix(s);
    var k :| 0 <= k <= |s| && Text.TrimStart(s) == s[k..];
    SuffixIsPiece(s, k);
  }

  lemma StripBulletIsPiece(line: string)
    ensures IsPieceOf(StripBullet(line), line)
  {
    hide IsPieceOf;
    var trimmed := Text.TrimStart(line);
    TrimStartIsPiece(line);
    var n := LeadingDigits(trimmed);
    forall k: nat | k <= |trimmed| ensures IsPieceOf(Text.TrimStart(trimmed[k..]), line) {
      TrimStartIsPiece(trimmed[k..]);
      SuffixIsPiece(trimmed, k);
      PieceOfPiece(Text.TrimStart(trimmed[k..]), trimmed[k..], trimmed);
      PieceOfPiece(Text.TrimStart(trimmed[k..]), trimmed, line);
    }
    if n + 2 <= |trimmed| {
      assert trimmed[n..][2..] == trimmed[n + 2..];
    }
  }

  lemma MarkerValueIsPiece(line: string, marker: string)
    requires MarkerValue(line, marker).Some?
    ensures var value := MarkerValue(line, marker).value; IsPieceOf(value, line) && Text.IsTrimmed(value)
  {
    hide IsPieceOf;
    var rest := line[|marker|..];
    var tail := Text.TrimStart(rest);
    SuffixIsPiece(line, |marker|);
    TrimStartIsPiece(rest);
    SuffixIsPiece(tail, 1);
    TrimIsPiece(tail[1..]);
    PieceOfPiece(Text.Trim(tail[1..]), tail[1..], tail);
    PieceOfPiece(Text.Trim(tail[1..]), tail, rest);
    PieceOfPiece(Text.Trim(tail[1..]), rest, line);
  }

  lemma TrimIsPiece(s: string)
    ensures IsPieceOf(Text.Trim(s), s) && Text.IsTrimmed(Text.Trim(s))
  {
    Text.TrimYieldsTrimmed(s);
  }

  /** Whatever the parser takes from a line is a trimmed, contiguous part of it. */
  lemma PiecesComeFromTheirLine(raw: string)
    ensures IsPieceOf(Read(raw).Piece(), raw) && Text.IsTrimmed(Read(raw).Piece())
    ensures Read(raw).Wrapped? ==> Read(raw).text != ""
  {
    hide IsPieceOf, MarkerValue, StripBullet, Text.IsTrimmed, Text.Trim;
    var line := StripBullet(raw);
    StripBulletIsPiece(raw);
    TrimIsPiece(line);
    if MarkerValue(line, "pattern").Some? {
      MarkerValueIsPiece(line, "pattern");
      PieceOfPiece(MarkerValue(line, "pattern").value, line, raw);
    } else if MarkerValue(line, "learning").Some? {
      MarkerValueIsPiece(line, "learning");
      PieceOfPiece(MarkerValue(line, "learning").value, line, raw);
    } else if Text.IsBlank(line) {
      EmptyIsPiece(raw);
    } else {
      PieceOfPiece(Text.Trim(line), line, raw);
    }
  }

  lemma EmptyIsPiece(s: string)
    ensures IsPieceOf("", s) && Text.IsTrimmed("")
  {
    assert s[0..0] == "";
  }

  // ---- Blocks ----

  /** The last marker line before `i` is a pattern with a value: that value. */
  function PatternBefore(lines: seq<Line>, i: nat): Option<string>
    requires i <= |lines|
  {
    if i == 0 then None
    else
      match lines[i - 1]
      case Pattern(value) => if value == "" then None else Some(value)
      case Learning(_) => None
      case _ => PatternBefore(lines, i - 1)
  }

  /** Where the run of wrapped lines from `k` on ends. */
  function WrapEnd(lines: seq<Line>, k: nat): (e: nat)
    requires k <= |lines|
    ensures k <= e <= |lines|
    ensures forall j | k <= j < e :: lines[j].Wrapped?
    ensures e < |lines| ==> !lines[e].Wrapped?
    decreases |lines| - k
  {
    if k < |lines| && lines[k].Wrapped? then WrapEnd(lines, k + 1) else k
  }

  /** The non-empty pieces of the lines from `i` up to `k`. */
  function Pieces(lines: seq<Line>, i: nat, k: nat): seq<string>
    requires i <= k <= |lines|
  {
    if k == i then []
    else if lines[k - 1].Piece() == "" then Pieces(lines, i, k - 1)
    else Pieces(lines, i, k - 1) + [lines[k - 1].Piece()]
  }

  function Joined(pieces: seq<string>): string {
    if pieces == [] then ""
    else if |pieces| == 1 then pieces[0]
    else pieces[0] + " " + Joined(pieces[1..])
  }

  /** The block that starts at a learning line: the pattern in force, and the line's value with what wraps after it. */
  function Block(lines: seq<Line>, i: nat): Candidate
    requires i < |lines|
  {
    Candidate(PatternBefore(lines, i), Joined(Pieces(lines, i, WrapEnd(lines, i + 1))))
  }

  /** The blocks with any content that start before line `n`, in order. */
  function Blocks(lines: seq<Line>, n: nat): seq<Candidate>
    requires n <= |lines|
  {
    if n == 0 then []
    else if lines[n - 1].Learning? && Block(lines, n - 1).content != "" then Blocks(lines, n - 1) + [Block(lines, n - 1)]
    else Blocks(lines, n - 1)
  }

  function FirstBlocks(lines: seq<Line>): seq<Candidate> {
    var all := Blocks(lines, |lines|);
    if |all| <= MAX_CANDIDATES then all else all[..MAX_CANDIDATES]
  }

  lemma {:induction false} JoinedGrows(pieces: seq<string>, piece: string)
    requires forall p | p in pieces :: p != ""
    ensures Joined(pieces + [piece]) == if Joined(pieces) == "" then piece else Joined(pieces) + " " + piece
    ensures Joined(pieces) == "" <==> pieces == []
  {
    if |pieces| > 1 {
      assert pieces[0] in pieces && forall p | p in pieces[1..] :: p in pieces;
      JoinedGrows(pieces[1..], piece);
      assert (pieces + [piece])[1..] == pieces[1..] + [piece];
    } else if |pieces| == 1 {
      assert pieces[0] in pieces;
      assert (pieces + [piece])[1..] == [piece];
    }
  }

  lemma {:induction false} PiecesAreTaken(lines: seq<Line>, i: nat, k: nat)
    requires i <= k <= |lines|
    ensures forall p | p in Pieces(lines, i, k) :: p != "" && exists j | i <= j < k :: lines[j].Piece() == p
    decreases k
  {
    if i < k {
      PiecesAreTaken(lines, i, k - 1);
    }
  }

  // ---- What results look like ----

  /** One line of text, without surrounding whitespace. */
  predicate IsOneLine(s: string) {
    s != "" && Text.IsTrimmed(s) && '\n' !in s
  }

  predicate IsPrintable(c: Candidate) {
    IsOneLine(c.content) && (c.pattern.Some? ==> IsOneLine(c.pattern.value))
  }

  predicate CleanPieces(lines: seq<Line>) {
    forall k | 0 <= k < |lines| :: lines[k].Piece() != "" ==> IsOneLine(lines[k].Piece())
  }

  lemma ReadLinesAreClean(raw: string)
    ensures CleanPieces(ReadAll(Lines(raw)))
    ensures forall k | 0 <= k < |Lines(raw)| :: ReadAll(Lines(raw))[k].Wrapped? ==> ReadAll(Lines(raw))[k].text != ""
  {
    hide Read, Lines, Text.IsTrimmed;
    LinesHoldNoNewline(raw);
    var raws := Lines(raw);
    var lines := ReadAll(raws);
    forall k | 0 <= k < |raws|
      ensures lines[k].Piece() != "" ==> IsOneLine(lines[k].Piece())
      ensures lines[k].Wrapped? ==> lines[k].text != ""
    {
      PiecesComeFromTheirLine(raws[k]);
      var piece := lines[k].Piece();
      var i, j :| 0 <= i <= j <= |raws[k]| && piece == raws[k][i..j];
      assert '\n' !in raws[k];
      forall c | c in piece ensures c in raws[k] {}
    }
  }

  lemma {:induction false} JoinedIsOneLine(pieces: seq<string>)
    requires pieces != [] && forall p | p in pieces :: IsOneLine(p)
    ensures IsOneLine(Joined(pieces))
  {
    assert pieces[0] in pieces;
    if |pieces| > 1 {
      JoinedIsOneLine(pieces[1..]);
    }
  }

  lemma {:induction false} PatternIsAPiece(lines: seq<Line>, i: nat)
    requires i <= |lines| && CleanPieces(lines)
    ensures PatternBefore(lines, i).Some? ==> IsOneLine(PatternBefore(lines, i).value)
  {
    hide IsOneLine;
    if i > 0 {
      PatternIsAPiece(lines, i - 1);
    }
  }

  lemma BlockIsPrintable(lines: seq<Line>, i: nat)
    requires i < |lines| && CleanPieces(lines) && Block(lines, i).content != ""
    ensures IsPrintable(Block(lines, i))
  {
    hide IsOneLine;
    var e := WrapEnd(lines, i + 1);
    PatternIsAPiece(lines, i);
    PiecesAreTaken(lines, i, e);
    JoinedIsOneLine(Pieces(lines, i, e));
  }

  lemma {:induction false} BlocksArePrintable(lines: seq<Line>, n: nat)
    requires n <= |lines| && CleanPieces(lines)
    ensures forall c | c in Blocks(lines, n) :: IsPrintable(c)
  {
    hide IsPrintable, Block, CleanPieces;
    if n > 0 {
      BlocksArePrintable(lines, n - 1);
      if Block(lines, n - 1).content != "" {
        BlockIsPrintable(lines, n - 1);
      }
    }
  }

  /** Every result has non-empty, trimmed, one-line fields, and there are at most three. */
  lemma ResultsArePrintable(raw: string)
    ensures |FirstBlocks(ReadAll(Lines(raw)))| <= MAX_CANDIDATES
    ensures forall c | c in FirstBlocks(ReadAll(Lines(raw))) :: IsPrintable(c)
  {
    ReadLinesAreClean(raw);
    var lines := ReadAll(Lines(raw));
    BlocksArePrintable(lines, |lines|);
  }

  /** Nothing is invented: a result's content joins trimmed parts of consecutive input lines with spaces. */
  lemma ContentComesFromConsecutiveLines(raw: string, lines: seq<Line>, i: nat)
    requires lines == ReadAll(Lines(raw)) && i < |lines|
    ensures var pieces := Pieces(lines, i, WrapEnd(lines, i + 1));
            && Block(lines, i).content == Joined(pieces)
            && forall p | p in pieces ::
                 exists k | i <= k < WrapEnd(lines, i + 1) :: IsPieceOf(p, Lines(raw)[k]) && Text.IsTrimmed(p)
  {
    hide Read, Lines, IsPieceOf, Text.IsTrimmed;
    var e := WrapEnd(lines, i + 1);
    PiecesAreTaken(lines, i, e);
    forall p | p in Pieces(lines, i, e)
      ensures exists k | i <= k < e :: IsPieceOf(p, Lines(raw)[k]) && Text.IsTrimmed(p)
    {
      var k :| i <= k < e && lines[k].Piece() == p;
      PiecesComeFromTheirLine(Lines(raw)[k]);
    }
  }

  // ---- The parser ----

  /** Move the candidate being read into the result, if it has any content. */
  method Flush(current: Option<Candidate>, out: seq<Candidate>) returns (out': seq<Candidate>)
    ensures out' == if current.Some? && Text.Trim(current.value.content) != ""
                    then out + [current.value.(content := Text.Trim(current.value.content))] else out
  {
    if current.None? {
      return out;
    }
    var candidate := current.value.(content := Text.Trim(current.value.content));
    if candidate.content == "" {
      return out;
    }
    return out + [candidate];
  }

  /** The parser's state before line `k`: where the block being read began, and everything finished earlier. */
  ghost predicate Reading(lines: seq<Line>, k: nat, pending: Option<string>, current: Option<Candidate>, out: seq<Candidate>) {
    && k <= |lines|
    && pending == PatternBefore(lines, k)
    && if current.None? then out == Blocks(lines, k) else exists i: nat | i < k :: ReadingSince(lines, i, k, current.value, out)
  }

  ghost predicate ReadingSince(lines: seq<Line>, i: nat, k: nat, current: Candidate, out: seq<Candidate>)
    requires i < k <= |lines|
  {
    && lines[i].Learning?
    && (forall j | i < j < k :: lines[j].Wrapped?)
    && current == Candidate(PatternBefore(lines, i), Joined(Pieces(lines, i, k)))
    && out == Blocks(lines, i)
  }

  lemma {:induction false} NoLearningNoBlock(lines: seq<Line>, i: nat, k: nat)
    requires i <= k <= |lines| && forall j | i <= j < k :: !lines[j].Learning?
    ensures Blocks(lines, k) == Blocks(lines, i)
    decreases k
  {
    if i < k {
      NoLearningNoBlock(lines, i, k - 1);
    }
  }

  lemma {:induction false} WrapEndsHere(lines: seq<Line>, k: nat, e: nat)
    requires k <= e <= |lines| && (forall j | k <= j < e :: lines[j].Wrapped?)
    requires e < |lines| ==> !lines[e].Wrapped?
    ensures WrapEnd(lines, k) == e
    decreases e - k
  {
    if k < e {
      WrapEndsHere(lines, k + 1, e);
    }
  }

  lemma ContentIsTrimmed(lines: seq<Line>, i: nat, k: nat)
    requires i <= k <= |lines| && CleanPieces(lines)
    ensures Text.Trim(Joined(Pieces(lines, i, k))) == Joined(Pieces(lines, i, k))
  {
    hide IsOneLine;
    PiecesAreTaken(lines, i, k);
    if Pieces(lines, i, k) != [] {
      JoinedIsOneLine(Pieces(lines, i, k));
      assert Text.IsTrimmed(Joined(Pieces(lines, i, k))) by { assert IsOneLine(Joined(Pieces(lines, i, k))); OneLinesAreTrimmed(Joined(Pieces(lines, i, k))); }
    }
    Text.TrimYieldsTrimmed(Joined(Pieces(lines, i, k)));
  }

  lemma OneLinesAreTrimmed(s: string)
    requires IsOneLine(s)
    ensures Text.IsTrimmed(s)
  {}

  /** Flushing at a line that does not wrap, or at the end, completes the block. */
  lemma FlushCompletes(
    lines: seq<Line>, k: nat, pending: Option<string>, current: Option<Candidate>, out: seq<Candidate>)
    requires CleanPieces(lines) && Reading(lines, k, pending, current, out)
    requires k < |lines| ==> !lines[k].Wrapped?
    ensures Blocks(lines, k) ==
            if current.Some? && Text.Trim(current.value.content) != ""
            then out + [current.value.(content := Text.Trim(current.value.content))] else out
  {
    hide CleanPieces;
    if current.Some? {
      var i: nat :| i < k && ReadingSince(lines, i, k, current.value, out);
      WrapEndsHere(lines, i + 1, k);
      ContentIsTrimmed(lines, i, k);
      NoLearningNoBlock(lines, i + 1, k);
    }
  }

  /** A wrapped line extends the block being read. */
  lemma WrappingExtends(
    lines: seq<Line>, k: nat, pending: Option<string>, current: Candidate, out: seq<Candidate>)
    requires k < |lines| && lines[k].Wrapped? && lines[k].text != ""
    requires Reading(lines, k, pending, Some(current), out)
    ensures var content := if current.content == "" then lines[k].text else current.content + " " + lines[k].text;
            Reading(lines, k + 1, pending, Some(current.(content := content)), out)
  {
    var i: nat :| i < k && ReadingSince(lines, i, k, current, out);
    PiecesAreTaken(lines, i, k);
    JoinedGrows(Pieces(lines, i, k), lines[k].text);
    var content := if current.content == "" then lines[k].text else current.content + " " + lines[k].text;
    assert ReadingSince(lines, i, k + 1, current.(content := content), out);
  }

  /** The parser yields the first three blocks of its input. */
  method ParseCandidates(raw: string) returns (out: seq<Candidate>)
    ensures out == FirstBlocks(ReadAll(Lines(raw)))
  {
    hide Reading, CleanPieces, Lines, StripBullet, MarkerValue, Text.Trim, Text.IsBlank;
    var raws := Lines(raw);
    ghost var lines := ReadAll(raws);
    ReadLinesAreClean(raw);
    out := [];
    var pending: Option<string> := None;
    var current: Option<Candidate> := None;
    StartsReading(lines);
    for k := 0 to |raws|
      invariant Reading(lines, k, pending, current, out)
    {
      assert lines[k] == Read(raws[k]);
      var line := StripBullet(raws[k]);
      var pattern := MarkerValue(line, "pattern");
      if pattern.Some? {
        FlushCompletes(lines, k, pending, current, out);
        out := Flush(current, out);
        current := None;
        pending := if pattern.value == "" then None else Some(pattern.value);
        StepsOver(lines, k, pending, out);
        continue;
      }
      var learning := MarkerValue(line, "learning");
      if learning.Some? {
        FlushCompletes(lines, k, pending, current, out);
        StartsBlock(lines, k, pending, current, out);
        out := Flush(current, out);
        current := Some(Candidate(pending, learning.value));
        pending := None;
        continue;
      }
      if Text.IsBlank(line) {
        KeepsPending(lines, k, pending, current, out);
        FlushCompletes(lines, k, pending, current, out);
        out := Flush(current, out);
        current := None;
        StepsOver(lines, k, pending, out);
        continue;
      }
      assert Text.Trim(line) == lines[k].text;
      if current.Some? {
        WrappingExtends(lines, k, pending, current.value, out);
        var content := if current.value.content == "" then "" else current.value.content + " ";
        assert "" + Text.Trim(line) == Text.Trim(line);
        current := Some(current.value.(content := content + Text.Trim(line)));
      } else {
        KeepsPending(lines, k, pending, current, out);
        NothingBeingRead(lines, k, pending, out);
        StepsOver(lines, k, pending, out);
      }
    }
    FlushCompletes(lines, |raws|, pending, current, out);
    out := Flush(current, out);
    if |out| > MAX_CANDIDATES {
      out := out[..MAX_CANDIDATES];
    }
  }

  lemma StartsReading(lines: seq<Line>)
    ensures Reading(lines, 0, None, None, [])
  {}

  lemma StepsOver(lines: seq<Line>, k: nat, pending: Option<string>, out: seq<Candidate>)
    requires k < |lines| && !lines[k].Learning? && out == Blocks(lines, k) && pending == PatternBefore(lines, k + 1)
    ensures Reading(lines, k + 1, pending, None, out)
  {}

  lemma KeepsPending(
    lines: seq<Line>, k: nat, pending: Option<string>, current: Option<Candidate>, out: seq<Candidate>)
    requires Reading(lines, k, pending, current, out) && k < |lines| && (lines[k].Blank? || lines[k].Wrapped?)
    ensures pending == PatternBefore(lines, k + 1)
  {}

  lemma NothingBeingRead(lines: seq<Line>, k: nat, pending: Option<string>, out: seq<Candidate>)
    requires Reading(lines, k, pending, None, out)
    ensures out == Blocks(lines, k)
  {}

  lemma StartsBlock(
    lines: seq<Line>, k: nat, pending: Option<string>, current: Option<Candidate>, out: seq<Candidate>)
    requires Reading(lines, k, pending, current, out) && k < |lines| && lines[k].Learning?
    ensures Reading(lines, k + 1, None, Some(Candidate(pending, lines[k].value)), Blocks(lines, k))
  {
    assert Pieces(lines, k, k) == [];
    assert Joined(Pieces(lines, k, k + 1)) == lines[k].value;
    assert ReadingSince(lines, k, k + 1, Candidate(pending, lines[k].value), Blocks(lines, k));
  }
}
