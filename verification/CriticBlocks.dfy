/** What the critic's blocks are, in terms of the lines they consist of; and what a line is. */
module CriticBlocks {
  import opened Basics
  import opened Critics

  // ---- Lines ----

  /** A line may end in a carriage return and a line feed, and the last one in nothing. */
  lemma LineEndings(line: string)
    requires '\n' !in line
    ensures Lines(line + "\r\n") == [line]
    ensures line != "" ==> Lines(line) == [line]
    ensures Lines("") == []
  {
    hide FirstNewline;
    var s := line + "\r\n";
    var k := |line| + 1;
    assert forall i | 0 <= i < k :: s[i] != '\n';
    NewlineIsFirst(s, k);
    assert LineBefore(s, k) == line && s[k + 1..] == "";
    LinesStep(s, k);
    NothingHasNoLines();
    if line != "" {
      NoNewlineNoEnd(line);
    }
  }

  lemma {:induction false} NoNewlineNoEnd(line: string)
    requires '\n' !in line
    ensures FirstNewline(line) == |line|
  {
    assert forall i | 0 <= i < |line| :: line[i] in line;
  }

  // ---- Patterns ----

  /** A pattern is in force exactly from its own line up to the next marker; blank and other lines do not end it. */
  lemma {:induction false} PatternsAreInForceExactly(lines: seq<Line>, i: nat, value: string)
    requires i <= |lines|
    ensures PatternBefore(lines, i) == Some(value) <==>
              && value != ""
              && exists j | 0 <= j < i :: lines[j] == Pattern(value) && NoMarkerAfter(lines, j, i)
    decreases i
  {
    if i > 0 {
      PatternsAreInForceExactly(lines, i - 1, value);
      if lines[i - 1].Blank? || lines[i - 1].Wrapped? {
        forall j | 0 <= j < i - 1
          ensures NoMarkerAfter(lines, j, i) <==> NoMarkerAfter(lines, j, i - 1) {}
      } else {
        assert forall j | 0 <= j < i - 1 :: !NoMarkerAfter(lines, j, i);
        assert NoMarkerAfter(lines, i - 1, i);
      }
    }
  }

  predicate NoMarkerAfter(lines: seq<Line>, j: nat, to: nat)
    requires to <= |lines|
  {
    forall m | j < m < to :: !lines[m].Pattern? && !lines[m].Learning?
  }

  // ---- Contents ----

  /** A block's pieces: the learning's own value, if any, and the lines that wrap it, in order. */
  lemma {:induction false} PiecesAreInOrder(lines: seq<Line>, i: nat, k: nat)
    requires i < k <= |lines| && lines[i].Learning?
    requires forall j | i < j < k :: lines[j].Wrapped? && lines[j].text != ""
    ensures Pieces(lines, i, k) ==
            (if lines[i].value == "" then [] else [lines[i].value]) + seq(k - i - 1, n requires 0 <= n < k - i - 1 => lines[i + 1 + n].text)
    decreases k
  {
    if k == i + 1 {
      assert Pieces(lines, i, i) == [];
    } else {
      PiecesAreInOrder(lines, i, k - 1);
    }
  }

  /** Joining puts one space between neighbours, and none elsewhere. */
  lemma JoiningPutsSpaces(first: string, rest: seq<string>)
    ensures Joined([]) == "" && Joined([first]) == first
    ensures rest != [] ==> Joined([first] + rest) == first + " " + Joined(rest)
  {
    assert ([first] + rest)[1..] == rest;
  }

  // ---- Which blocks ----

  /** The learning lines that begin a block with any content. */
  predicate BeginsABlock(lines: seq<Line>, i: int) {
    0 <= i < |lines| && lines[i].Learning? && Block(lines, i).content != ""
  }

  /** The blocks are those of all learning lines with any content, in the order of the lines. */
  lemma {:induction false} BlocksAreAllInOrder(lines: seq<Line>, n: nat) returns (starts: seq<int>)
    requires n <= |lines|
    ensures |starts| == |Blocks(lines, n)|
    ensures forall m | 0 <= m < |starts| ::
              BeginsABlock(lines, starts[m]) && starts[m] < n && Blocks(lines, n)[m] == Block(lines, starts[m])
    ensures forall a, b | 0 <= a < b < |starts| :: starts[a] < starts[b]
    ensures forall i | BeginsABlock(lines, i) && i < n :: i in starts
    decreases n
  {
    hide Block;
    starts := [];
    if n > 0 {
      starts := BlocksAreAllInOrder(lines, n - 1);
      if BeginsABlock(lines, n - 1) {
        starts := starts + [n - 1];
      }
    }
  }

  /** At most three: exactly the first ones. */
  lemma TheFirstThree(lines: seq<Line>)
    ensures FirstBlocks(lines) == if |Blocks(lines, |lines|)| <= 3 then Blocks(lines, |lines|) else Blocks(lines, |lines|)[..3]
  {}
}
