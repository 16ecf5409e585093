/**
 * The Mermaid formatter: a re-indenter that trims every line and indents it by
 * a running depth counter (four spaces per level), and a "beautify" pipeline of
 * whitespace rewrites run on the re-indented text.
 */
module MermaidFormatter {
  import opened Text
  import opened Rewrite

  const IndentSize: nat := 4

  /** The declaration keywords `isDiagramDeclaration` tests as prefixes (case-sensitive). */
  const DiagramTypes: seq<string> := [
    "graph", "flowchart", "sequenceDiagram", "classDiagram",
    "stateDiagram", "erDiagram", "journey", "gantt", "pie",
    "gitgraph", "mindmap", "timeline"
  ]

  /** `isDiagramDeclaration` */
  predicate IsDiagramDeclaration(line: string) {
    exists k | 0 <= k < |DiagramTypes| :: DiagramTypes[k] <= line
  }

  /** Length of the run of ASCII letters and digits starting at `i`. */
  function AlnumRun(s: string, i: nat): (n: nat)
    requires i <= |s|
    ensures i + n <= |s|
    ensures forall j :: i <= j < i + n ==> IsAlnum(s[j])
    ensures i + n < |s| ==> !IsAlnum(s[i + n])
    decreases |s| - i
  {
    if i < |s| && IsAlnum(s[i]) then 1 + AlnumRun(s, i + 1) else 0
  }

  /** `/^[A-Za-z0-9]+[\[\(\{]/`: an identifier at the very start, directly followed
      by an opening bracket. The run is maximal, so backtracking cannot help. */
  predicate StartsWithNode(line: string) {
    var n := AlnumRun(line, 0);
    0 < n < |line| && (line[n] == '[' || line[n] == '(' || line[n] == '{')
  }

  /** `isNodeOrConnection` */
  predicate IsNodeOrConnection(line: string) {
    || Contains(line, "-->") || Contains(line, "---") || Contains(line, "-.->")
    || Contains(line, "==>") || StartsWithNode(line)
  }

  /** Style and class definitions. */
  predicate IsStyleLine(line: string) {
    "style" <= line || "classDef" <= line || "class " <= line
  }

  /** `needsIndent` */
  predicate NeedsIndent(line: string) {
    !("%%" <= line) && !IsDiagramDeclaration(line) && !IsStyleLine(line)
  }

  /** How `formatCode` treats a trimmed line: the branches of its loop, in order. */
  datatype LineKind = Blank | Declaration | Subgraph | End | Style | Node | Other

  function KindOf(line: string): LineKind {
    if line == [] then Blank
    else if IsDiagramDeclaration(line) then Declaration
    else if "subgraph" <= line then Subgraph
    else if line == "end" then End
    else if IsStyleLine(line) then Style
    else if IsNodeOrConnection(line) then Node
    else Other
  }

  /** `Math.max(0, level - 1)` */
  function Outdent(level: nat): nat {
    if level > 0 then level - 1 else 0
  }

  /** The depth at which a trimmed line is written, given the counter before it. */
  function Depth(line: string, level: nat): nat {
    match KindOf(line)
    case Blank => 0
    case Declaration => 0
    case Subgraph => level
    case End => Outdent(level)
    case Style => level
    case Node => if level > 0 then level else 1
    case Other => if level > 0 then level else if NeedsIndent(line) then 1 else 0
  }

  /** The counter after a trimmed line. */
  function NextLevel(line: string, level: nat): nat {
    match KindOf(line)
    case Declaration => 0
    case Subgraph => level + 1
    case End => Outdent(level)
    case _ => level
  }

  /** The output line for a trimmed line. */
  function FormattedLine(line: string, level: nat): string {
    Spaces(Depth(line, level) * IndentSize) + line
  }

  /** The formatted lines of `lines`, starting with the counter at `level`. */
  function FormatFrom(lines: seq<string>, level: nat): (r: seq<string>)
    ensures |r| == |lines|
  {
    if |lines| == 0 then []
    else
      var line := Trim(lines[0]);
      [FormattedLine(line, level)] + FormatFrom(lines[1..], NextLevel(line, level))
  }

  /** `formatCode` as a function. */
  function Format(code: string): string {
    Join(FormatFrom(Split(code, '\n'), 0), '\n')
  }

  /** The counter before line `i` of the scan. */
  function LevelAt(lines: seq<string>, level: nat, i: nat): nat
    requires i <= |lines|
  {
    if i == 0 then level else NextLevel(Trim(lines[i - 1]), LevelAt(lines, level, i - 1))
  }

  lemma FormatFromStep(lines: seq<string>, i: nat, level: nat)
    requires i < |lines|
    ensures FormatFrom(lines[i..], level)
      == [FormattedLine(Trim(lines[i]), level)] + FormatFrom(lines[i + 1..], NextLevel(Trim(lines[i]), level))
  {
    assert lines[i..][1..] == lines[i + 1..];
  }

  /** The body of `formatCode`'s loop for one trimmed line: the pushed line and the new counter. */
  method FormatLine(line: string, indentLevel: nat) returns (pushed: string, nextLevel: nat)
    ensures pushed == FormattedLine(line, indentLevel)
    ensures nextLevel == NextLevel(line, indentLevel)
  {
    nextLevel := indentLevel;
    if line == [] {
      pushed := [];
      assert Spaces(0) + line == [];
    } else if IsDiagramDeclaration(line) {
      nextLevel := 0;
      pushed := line;
      assert Spaces(0) + line == line;
    } else if "subgraph" <= line {
      pushed := Spaces(nextLevel * IndentSize) + line;
      nextLevel := nextLevel + 1;
    } else if line == "end" {
      nextLevel := if nextLevel - 1 > 0 then nextLevel - 1 else 0;
      pushed := Spaces(nextLevel * IndentSize) + line;
    } else if IsStyleLine(line) {
      pushed := Spaces(nextLevel * IndentSize) + line;
    } else if IsNodeOrConnection(line) {
      var baseIndent := if nextLevel > 0 then nextLevel else 1;
      pushed := Spaces(baseIndent * IndentSize) + line;
    } else {
      var baseIndent := if nextLevel > 0 then nextLevel else (if NeedsIndent(line) then 1 else 0);
      pushed := Spaces(baseIndent * IndentSize) + line;
    }
  }

  lemma FormatInvariantStep(lines: seq<string>, i: nat, level: nat, formatted: seq<string>, pushed: string, next: nat)
    requires i < |lines| && formatted + FormatFrom(lines[i..], level) == FormatFrom(lines, 0)
    requires pushed == FormattedLine(Trim(lines[i]), level) && next == NextLevel(Trim(lines[i]), level)
    ensures (formatted + [pushed]) + FormatFrom(lines[i + 1..], next) == FormatFrom(lines, 0)
  {
    FormatFromStep(lines, i, level);
  }

  lemma FormatFromCons(line: string, rest: seq<string>, level: nat)
    ensures FormatFrom([line] + rest, level)
      == [FormattedLine(Trim(line), level)] + FormatFrom(rest, NextLevel(Trim(line), level))
  {
    assert ([line] + rest)[1..] == rest;
  }

  /** `formatCode`: one pass over the trimmed lines, keeping the depth counter. */
  method FormatCode(code: string) returns (result: string)
    ensures result == Format(code)
  {
    var lines := Split(code, '\n');
    var formatted: seq<string> := [];
    var indentLevel: nat := 0;
    assert lines[0..] == lines;
    for i := 0 to |lines|
      invariant formatted + FormatFrom(lines[i..], indentLevel) == FormatFrom(lines, 0)
    {
      var line := Trim(lines[i]);
      var pushed, nextLevel := FormatLine(line, indentLevel);
      FormatInvariantStep(lines, i, indentLevel, formatted, pushed, nextLevel);
      formatted := formatted + [pushed];
      indentLevel := nextLevel;
    }
    assert lines[|lines|..] == [];
    assert FormatFrom(lines[|lines|..], indentLevel) == [];
    assert formatted + [] == formatted;
    result := Join(formatted, '\n');
  }

  // Properties of the re-indenter

  /** The formatted lines from line `i` on are the formatting of the input from
      line `i` on, started with the counter reached there. */
  lemma {:induction false} FormatSuffix(lines: seq<string>, level: nat, i: nat)
    requires i <= |lines|
    ensures FormatFrom(lines, level)[i..] == FormatFrom(lines[i..], LevelAt(lines, level, i))
  {
    if i == 0 {
      assert lines[0..] == lines;
      assert FormatFrom(lines, level)[0..] == FormatFrom(lines, level);
    } else {
      FormatSuffix(lines, level, i - 1);
      var before := LevelAt(lines, level, i - 1);
      FormatFromStep(lines, i - 1, before);
      SliceStep(FormatFrom(lines, level), i, FormattedLine(Trim(lines[i - 1]), before),
        FormatFrom(lines[i..], LevelAt(lines, level, i)));
    }
  }

  /** Output line `i` is input line `i`, trimmed, behind the indentation of the counter reached there. */
  lemma FormatFromAt(lines: seq<string>, level: nat, i: nat)
    requires i < |lines|
    ensures FormatFrom(lines, level)[i] == FormattedLine(Trim(lines[i]), LevelAt(lines, level, i))
  {
    var at := LevelAt(lines, level, i);
    FormatSuffix(lines, level, i);
    FormatFromStep(lines, i, at);
    SliceStep(FormatFrom(lines, level), i + 1, FormattedLine(Trim(lines[i]), at), FormatFrom(lines[i + 1..], NextLevel(Trim(lines[i]), at)));
  }

  lemma SliceStep<T>(x: seq<T>, i: nat, y: T, tail: seq<T>)
    requires 0 < i <= |x| && x[i - 1..] == [y] + tail
    ensures x[i - 1] == y && x[i..] == tail
  {
    assert x[i..] == x[i - 1..][1..];
  }

  /** Re-indenting changes nothing but the whitespace around each line. */
  lemma FormattedLineTrims(line: string, level: nat)
    ensures Trim(FormattedLine(Trim(line), level)) == Trim(line)
  {
    TrimIndented(Depth(Trim(line), level) * IndentSize, line);
  }

  lemma FormattedLineHasNoBreak(line: string, level: nat)
    requires '\n' !in line
    ensures '\n' !in FormattedLine(Trim(line), level)
  {
    var t := Trim(line);
    if '\n' in t {
      TrimChars(line, '\n');
    }
    assert FormattedLine(t, level) == Spaces(Depth(t, level) * IndentSize) + t;
  }

  lemma FormatFromHasNoBreaks(lines: seq<string>, level: nat)
    requires forall i :: 0 <= i < |lines| ==> '\n' !in lines[i]
    ensures forall i :: 0 <= i < |lines| ==> '\n' !in FormatFrom(lines, level)[i]
  {
    forall i | 0 <= i < |lines|
      ensures '\n' !in FormatFrom(lines, level)[i]
    {
      FormatFromAt(lines, level, i);
      FormattedLineHasNoBreak(lines[i], LevelAt(lines, level, i));
    }
  }

  /** The lines of the output are exactly the formatted input lines. */
  lemma FormatSplits(code: string)
    ensures Split(Format(code), '\n') == FormatFrom(Split(code, '\n'), 0)
  {
    var lines := Split(code, '\n');
    FormatFromHasNoBreaks(lines, 0);
    SplitJoin(FormatFrom(lines, 0), '\n');
  }

  /** `formatCode` keeps the number of lines, and line `i` of the output is line `i`
      of the input, trimmed and indented by a multiple of four spaces. */
  lemma FormatLineByLine(code: string, i: nat)
    requires i < |Split(code, '\n')|
    ensures |Split(Format(code), '\n')| == |Split(code, '\n')|
    ensures Split(Format(code), '\n')[i]
      == Spaces(Depth(Trim(Split(code, '\n')[i]), LevelAt(Split(code, '\n'), 0, i)) * IndentSize) + Trim(Split(code, '\n')[i])
    ensures Trim(Split(Format(code), '\n')[i]) == Trim(Split(code, '\n')[i])
  {
    var lines := Split(code, '\n');
    FormatSplits(code);
    FormatFromAt(lines, 0, i);
    FormattedLineTrims(lines[i], LevelAt(lines, 0, i));
  }

  lemma {:induction false} FormatFromTwice(lines: seq<string>, level: nat)
    ensures FormatFrom(FormatFrom(lines, level), level) == FormatFrom(lines, level)
  {
    if |lines| > 0 {
      var t := Trim(lines[0]);
      var once := FormatFrom(lines, level);
      FormattedLineTrims(lines[0], level);
      assert Trim(once[0]) == t;
      assert once[1..] == FormatFrom(lines[1..], NextLevel(t, level));
      FormatFromTwice(lines[1..], NextLevel(t, level));
    }
  }

  /** Formatting formatted text changes nothing. */
  lemma FormatIdempotent(code: string)
    ensures Format(Format(code)) == Format(code)
  {
    FormatSplits(code);
    FormatFromTwice(Split(code, '\n'), 0);
  }

  /** A line starting with `%%` never needs indentation of its own; for every other
      line that reaches the default branch, `needsIndent` holds. */
  lemma DefaultIndent(line: string)
    requires KindOf(line) == Other
    ensures NeedsIndent(line) <==> !("%%" <= line)
  {
  }

  /** The lines written flush left. */
  lemma FlushLeft(line: string, level: nat)
    ensures Depth(line, level) == 0 <==>
      || KindOf(line) == Blank
      || KindOf(line) == Declaration
      || (level <= 1 && KindOf(line) == End)
      || (level == 0 && (KindOf(line) == Subgraph || KindOf(line) == Style || (KindOf(line) == Other && "%%" <= line)))
  {
  }

  /** Lines that neither open nor close a block nor reset the counter. */
  predicate Flat(body: seq<string>) {
    |body| == 0 || (!IsBlockLine(KindOf(Trim(body[0]))) && Flat(body[1..]))
  }

  predicate IsBlockLine(kind: LineKind) {
    kind.Declaration? || kind.Subgraph? || kind.End?
  }

  /** A trimmed line indented at `depth`; a blank line stays empty. */
  function IndentedLine(t: string, depth: nat): string {
    if t == [] then [] else Spaces(depth * IndentSize) + t
  }

  /** Lines indented as one block at `depth`. */
  function Indented(body: seq<string>, depth: nat): (r: seq<string>)
    ensures |r| == |body|
  {
    if |body| == 0 then [] else [IndentedLine(Trim(body[0]), depth)] + Indented(body[1..], depth)
  }

  lemma FlatLine(t: string, level: nat)
    requires level > 0 && !IsBlockLine(KindOf(t))
    ensures NextLevel(t, level) == level
    ensures FormattedLine(t, level) == IndentedLine(t, level)
  {
    if t == [] {
      assert Spaces(0) + t == [];
    }
  }

  lemma {:induction false} FlatLines(body: seq<string>, rest: seq<string>, level: nat)
    requires level > 0 && Flat(body)
    ensures FormatFrom(body + rest, level) == Indented(body, level) + FormatFrom(rest, level)
  {
    if |body| == 0 {
      assert body + rest == rest;
    } else {
      var t := Trim(body[0]);
      FlatLines(body[1..], rest, level);
      FlatStep(body[0], body[1..] + rest, level);
      ConsSplit(body, rest);
      Prepend(IndentedLine(t, level), FormatFrom(body[1..] + rest, level), Indented(body[1..], level), FormatFrom(rest, level));
    }
  }

  lemma FlatStep(line: string, more: seq<string>, level: nat)
    requires level > 0 && !IsBlockLine(KindOf(Trim(line)))
    ensures FormatFrom([line] + more, level) == [IndentedLine(Trim(line), level)] + FormatFrom(more, level)
  {
    FlatLine(Trim(line), level);
    assert ([line] + more)[1..] == more;
  }

  lemma ConsSplit<T>(a: seq<T>, b: seq<T>)
    requires |a| > 0
    ensures a + b == [a[0]] + (a[1..] + b)
  {
  }

  lemma Prepend<T>(x: T, whole: seq<T>, front: seq<T>, back: seq<T>)
    requires whole == front + back
    ensures [x] + whole == ([x] + front) + back
  {
  }

  lemma EndLine()
    ensures KindOf("end") == End
  {
    forall k | 0 <= k < |DiagramTypes|
      ensures !(DiagramTypes[k] <= "end")
    {
      assert DiagramTypes[k][0] != 'e' || DiagramTypes[k][1] != 'n';
    }
    assert !("subgraph" <= "end");
  }

  lemma OpenLine(open: string, more: seq<string>, level: nat)
    requires KindOf(Trim(open)) == Subgraph
    ensures FormatFrom([open] + more, level) == [Spaces(level * IndentSize) + Trim(open)] + FormatFrom(more, level + 1)
  {
    assert ([open] + more)[1..] == more;
  }

  lemma CloseLine(close: string, rest: seq<string>, level: nat)
    requires Trim(close) == "end"
    ensures FormatFrom([close] + rest, level + 1) == [Spaces(level * IndentSize) + "end"] + FormatFrom(rest, level)
  {
    EndLine();
    assert ([close] + rest)[1..] == rest;
  }

  /** A subgraph block without nested blocks: its opening and its `end` are written
      at the enclosing depth, its lines one level deeper, and the counter is back
      where it was after the block. */
  lemma SubgraphBlock(open: string, body: seq<string>, close: string, rest: seq<string>, level: nat)
    requires KindOf(Trim(open)) == Subgraph && Trim(close) == "end" && Flat(body)
    ensures FormatFrom([open] + body + [close] + rest, level)
      == [Spaces(level * IndentSize) + Trim(open)] + Indented(body, level + 1)
        + [Spaces(level * IndentSize) + "end"] + FormatFrom(rest, level)
  {
    var tail := [close] + rest;
    Regroup([open], body, [close], rest);
    OpenLine(open, body + tail, level);
    FlatLines(body, tail, level + 1);
    CloseLine(close, rest, level);
    Regroup([Spaces(level * IndentSize) + Trim(open)], Indented(body, level + 1),
      [Spaces(level * IndentSize) + "end"], FormatFrom(rest, level));
  }

  lemma Regroup<T>(a: seq<T>, b: seq<T>, c: seq<T>, d: seq<T>)
    ensures a + b + c + d == a + (b + (c + d))
  {
  }

  // ---------------------------------------------------------------------
  // beautifyCode

  /** The four arrow-spacing replacements, in the order `beautifyCode` applies them. */
  function SpaceArrows(s: string): string {
    SpaceAfter(SpaceBefore(SpaceAfter(SpaceBefore(s, "-->"), "-->"), "---"), "---")
  }

  /** `split('\n').map(line => line.trimEnd()).join('\n')` */
  function TrimLineEnds(s: string): string {
    Join(TrimmedLines(Split(s, '\n')), '\n')
  }

  function TrimmedLines(lines: seq<string>): (r: seq<string>)
    ensures |r| == |lines|
    ensures forall k :: 0 <= k < |lines| ==> r[k] == TrimEnd(lines[k])
  {
    seq(|lines|, k requires 0 <= k < |lines| => TrimEnd(lines[k]))
  }

  /** The whitespace clean-up after the arrow rules: runs of spaces, line ends,
      runs of newlines, and the ends of the whole text. */
  function Tidy(s: string): string {
    Trim(CapRuns(TrimLineEnds(CapRuns(s, ' ', 1)), '\n', 2))
  }

  /** `beautifyCode` as a function. */
  function Beautify(code: string): string {
    Tidy(SpaceArrows(Format(code)))
  }

  /** `beautifyCode`: the re-indented text run through the rewrites in turn. */
  method BeautifyCode(code: string) returns (result: string)
    ensures result == Beautify(code)
  {
    var formatted := FormatCode(code);
    formatted := SpaceBefore(formatted, "-->");
    formatted := SpaceAfter(formatted, "-->");
    formatted := SpaceBefore(formatted, "---");
    formatted := SpaceAfter(formatted, "---");
    formatted := CapRuns(formatted, ' ', 1);
    formatted := TrimLineEnds(formatted);
    formatted := CapRuns(formatted, '\n', 2);
    result := Trim(formatted);
  }

  lemma ArrowsAreSymbolic()
    ensures Symbolic("-->") && Symbolic("---")
  {
  }

  /** Each arrow rule leaves no word character touching its arrow on its side,
      and the four together insert nothing but spaces. */
  lemma SpaceArrowsSeparates(s: string)
    ensures !WordBefore(SpaceBefore(s, "-->"), "-->")
    ensures !WordAfter(SpaceAfter(SpaceBefore(s, "-->"), "-->"), "-->")
    ensures !WordBefore(SpaceBefore(SpaceAfter(SpaceBefore(s, "-->"), "-->"), "---"), "---")
    ensures !WordAfter(SpaceArrows(s), "---")
    ensures Without(SpaceArrows(s), ' ') == Without(s, ' ')
  {
    ArrowsAreSymbolic();
    var r1 := SpaceBefore(s, "-->");
    var r2 := SpaceAfter(r1, "-->");
    var r3 := SpaceBefore(r2, "---");
    SpaceBeforeSeparates(s, "-->");
    SpaceAfterSeparates(r1, "-->");
    SpaceBeforeSeparates(r2, "---");
    SpaceAfterSeparates(r3, "---");
    SpaceBeforeOnlySpaces(s, "-->");
    SpaceAfterOnlySpaces(r1, "-->");
    SpaceBeforeOnlySpaces(r2, "---");
    SpaceAfterOnlySpaces(r3, "---");
  }

  /** Text whose arrows are already spaced is left as it is by the arrow rules. */
  lemma SpaceArrowsUnneeded(s: string)
    requires !WordBefore(s, "-->") && !WordAfter(s, "-->") && !WordBefore(s, "---") && !WordAfter(s, "---")
    ensures SpaceArrows(s) == s
  {
    SpaceBeforeUnneeded(s, "-->");
    SpaceAfterUnneeded(s, "-->");
    SpaceBeforeUnneeded(s, "---");
    SpaceAfterUnneeded(s, "---");
  }

  /** The lines of `TrimLineEnds(s)` are the lines of `s`, each without trailing whitespace. */
  lemma TrimLineEndsLines(s: string)
    ensures Split(TrimLineEnds(s), '\n') == TrimmedLines(Split(s, '\n'))
  {
    var lines := Split(s, '\n');
    var trimmed := TrimmedLines(lines);
    forall k | 0 <= k < |trimmed|
      ensures '\n' !in trimmed[k]
    {
      PrefixChars(lines[k], |trimmed[k]|, '\n');
    }
    SplitJoin(trimmed, '\n');
  }

  lemma PrefixChars(s: string, n: nat, c: char)
    requires n <= |s| && c !in s
    ensures c !in s[..n]
  {
  }

  /** Trimming line ends creates no pair of non-newline characters. */
  lemma TrimLineEndsPair(s: string, x: char, y: char)
    requires x != '\n' && y != '\n' && !HasPair(s, x, y)
    ensures !HasPair(TrimLineEnds(s), x, y)
  {
    var lines := Split(s, '\n');
    var trimmed := TrimmedLines(lines);
    JoinSplit(s, '\n');
    forall k | 0 <= k < |trimmed|
      ensures !HasPair(trimmed[k], x, y)
    {
      PairInPiece(lines, '\n', k, x, y);
      PairInSlice(lines[k], 0, |trimmed[k]|, x, y);
      assert lines[k][0..|trimmed[k]|] == trimmed[k];
    }
    JoinAvoidsPair(trimmed, '\n', x, y);
  }

  /** After trimming line ends, no whitespace other than a newline stands before a newline. */
  lemma TrimLineEndsClean(s: string, x: char)
    requires IsWhitespace(x) && x != '\n'
    ensures !HasPair(TrimLineEnds(s), x, '\n')
  {
    var lines := Split(s, '\n');
    var trimmed := TrimmedLines(lines);
    forall k | 0 <= k < |trimmed|
      ensures '\n' !in trimmed[k]
    {
      PrefixChars(lines[k], |trimmed[k]|, '\n');
    }
    JoinNoWhitespaceBefore(trimmed, '\n', x);
  }

  /** The output of `Tidy`, hence of `beautifyCode`, has no two spaces in a row,
      so indentation deeper than one space is not kept. */
  lemma TidyNoDoubleSpaces(s: string)
    ensures !HasPair(Tidy(s), ' ', ' ')
  {
    var s1 := CapRuns(s, ' ', 1);
    var s2 := TrimLineEnds(s1);
    var s3 := CapRuns(s2, '\n', 2);
    CapAtOne(s, ' ');
    TrimLineEndsPair(s1, ' ', ' ');
    CapPair(s2, '\n', 2, ' ', ' ');
    var a := TrimSlice(s3);
    PairInSlice(s3, a, a + |Trim(s3)|, ' ', ' ');
  }

  /** Never three newlines in a row: at most one empty line between two lines. */
  lemma TidyNoBlankRuns(s: string)
    ensures !HasTriple(Tidy(s), '\n')
  {
    var s3 := CapRuns(TrimLineEnds(CapRuns(s, ' ', 1)), '\n', 2);
    CapAtTwo(TrimLineEnds(CapRuns(s, ' ', 1)), '\n');
    var a := TrimSlice(s3);
    TripleInSlice(s3, a, a + |Trim(s3)|, '\n');
  }

  /** No whitespace at either end of the whole text. */
  lemma TidyTrimmed(s: string)
    ensures Trim(Tidy(s)) == Tidy(s)
    ensures |Tidy(s)| > 0 ==> !IsWhitespace(Tidy(s)[0]) && !IsWhitespace(Tidy(s)[|Tidy(s)| - 1])
  {
    TrimTrimmed(Tidy(s));
  }

  /** No whitespace character other than a newline ends a line. */
  predicate LineEndsClean(s: string) {
    forall i | 0 <= i < |s| :: IsWhitespace(s[i]) && s[i] != '\n' ==> i + 1 < |s| && s[i + 1] != '\n'
  }

  lemma TidyLineEndsClean(s: string)
    ensures LineEndsClean(Tidy(s))
  {
    var s1 := CapRuns(s, ' ', 1);
    var s2 := TrimLineEnds(s1);
    var s3 := CapRuns(s2, '\n', 2);
    forall x | IsWhitespace(x) && x != '\n'
      ensures !HasPair(s3, x, '\n')
    {
      TrimLineEndsClean(s1, x);
      CapPair(s2, '\n', 2, x, '\n');
    }
    TrimmedLineEndsClean(s3);
  }

  /** Trimming a text in which no whitespace stands before a newline leaves its line ends clean. */
  lemma TrimmedLineEndsClean(t: string)
    requires forall x | IsWhitespace(x) && x != '\n' :: !HasPair(t, x, '\n')
    ensures LineEndsClean(Trim(t))
  {
    var r := Trim(t);
    var a := TrimSlice(t);
    forall i | 0 <= i < |r| && IsWhitespace(r[i]) && r[i] != '\n'
      ensures i + 1 < |r| && r[i + 1] != '\n'
    {
      var x := r[i];
      if i + 1 < |r| {
        PairInSlice(t, a, a + |r|, x, '\n');
        assert r[i + 1] == '\n' ==> HasPair(r, x, '\n');
      }
    }
  }

  lemma SplitFirst(t: string, d: char)
    requires |t| > 0 && t[0] != d
    ensures |Split(t, d)[0]| > 0
  {
  }

  /** Character-level clean line ends mean that no line of the split ends in whitespace. */
  lemma {:induction false} SplitLinesClean(s: string)
    requires LineEndsClean(s)
    ensures forall k :: 0 <= k < |Split(s, '\n')| ==> TrimEnd(Split(s, '\n')[k]) == Split(s, '\n')[k]
    decreases |s|
  {
    if |s| > 0 {
      var t := s[1..];
      var rest := Split(t, '\n');
      assert LineEndsClean(t) by {
        forall i | 0 <= i < |t| && IsWhitespace(t[i]) && t[i] != '\n'
          ensures i + 1 < |t| && t[i + 1] != '\n'
        {
          assert t[i] == s[i + 1];
        }
      }
      SplitLinesClean(t);
      if s[0] != '\n' {
        var first := [s[0]] + rest[0];
        assert Split(s, '\n') == [first] + rest[1..];
        if |rest[0]| == 0 {
          if |t| > 0 && t[0] != '\n' {
            SplitFirst(t, '\n');
          }
          assert !IsWhitespace(s[0]);
        } else {
          assert first[|first| - 1] == rest[0][|rest[0]| - 1];
        }
        assert TrimEnd(first) == first;
        forall k | 0 <= k < |Split(s, '\n')|
          ensures TrimEnd(Split(s, '\n')[k]) == Split(s, '\n')[k]
        {
          if k > 0 {
            assert Split(s, '\n')[k] == rest[k];
          }
        }
      } else {
        assert Split(s, '\n') == [[]] + rest;
      }
    }
  }

  /** No line of `beautifyCode`'s output ends in whitespace. */
  lemma TidyLines(s: string)
    ensures forall k :: 0 <= k < |Split(Tidy(s), '\n')| ==> TrimEnd(Split(Tidy(s), '\n')[k]) == Split(Tidy(s), '\n')[k]
  {
    TidyLineEndsClean(s);
    SplitLinesClean(Tidy(s));
  }

  /** What `beautifyCode` promises about its output's whitespace. */
  lemma BeautifyWhitespace(code: string)
    ensures !HasPair(Beautify(code), ' ', ' ')
    ensures !HasTriple(Beautify(code), '\n')
    ensures Trim(Beautify(code)) == Beautify(code)
    ensures forall k :: 0 <= k < |Split(Beautify(code), '\n')| ==>
      TrimEnd(Split(Beautify(code), '\n')[k]) == Split(Beautify(code), '\n')[k]
  {
    var s := SpaceArrows(Format(code));
    TidyNoDoubleSpaces(s);
    TidyNoBlankRuns(s);
    TidyTrimmed(s);
    TidyLines(s);
  }
}
