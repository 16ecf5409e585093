/**
 * The Mermaid syntax validator: a line-oriented heuristic checker that turns
 * diagram text into `EditorError` records, followed by one diagnostic taken
 * from the renderer's own parser.
 *
 * The renderer's `parse` is not part of this model; its verdict on the whole
 * text is an input, `ParseOutcome`.
 */
module MermaidValidator {
  import opened Wrappers
  import opened Text

  datatype Severity = Error | Warning | Info

  /** `EditorError`: 1-based line, best-effort 1-based column. */
  datatype Diagnostic = Diagnostic(line: nat, column: nat, message: string, severity: Severity)

  /** The tags the detector can return. The source's arrow check also accepts a
      'graph' tag, which the detector never produces, so it has no constructor here. */
  datatype DiagramKind =
    | Flowchart | Sequence | Class | State | EntityRelation | Journey
    | Gantt | Pie | GitGraph | MindMap | Timeline | Unknown

  /** What the renderer's `parse` did with the whole text:
      it returned, it threw an error with a string `message`, or it threw a
      value without one, so that reading the message fails with `cause`. */
  datatype ParseOutcome = Accepted | Rejected(message: string) | Faulted(cause: string)

  const SquareMessage := "Unmatched square brackets detected"
  const CurlyMessage := "Unmatched curly brackets detected"
  const ArrowMessage := "Use valid arrow syntax: -->, -.->, ==>, --x, --o, or ---"
  const SequenceArrowMessage := "Sequence diagram arrows (->> or ->>) should only be used in sequence diagrams"

  // ---------------------------------------------------------------------
  // Diagram type detection

  /** The first line of the trimmed text; comment lines are not skipped. */
  function FirstLineOf(code: string): string {
    Split(Trim(code), '\n')[0]
  }

  /** The detector's substring tests on one line, in the source's order. */
  function Classify(line: string): DiagramKind {
    var l := Lower(line);
    if Contains(l, "sequencediagram") then Sequence
    else if Contains(l, "classdiagram") then Class
    else if Contains(l, "statediagram") then State
    else if Contains(l, "erdiagram") then EntityRelation
    else if Contains(l, "journey") then Journey
    else if Contains(l, "gantt") then Gantt
    else if Contains(l, "pie") then Pie
    else if Contains(l, "gitgraph") then GitGraph
    else if Contains(l, "mindmap") then MindMap
    else if Contains(l, "timeline") then Timeline
    else if Contains(l, "graph") || Contains(l, "flowchart") then Flowchart
    else Unknown
  }

  /** `detectDiagramType` */
  function DetectDiagramType(code: string): DiagramKind {
    Classify(FirstLineOf(code))
  }

  /** The detection table as data: keyword and the kind it selects, in priority order. */
  const DetectionOrder: seq<(string, DiagramKind)> := [
    ("sequencediagram", Sequence), ("classdiagram", Class), ("statediagram", State),
    ("erdiagram", EntityRelation), ("journey", Journey), ("gantt", Gantt), ("pie", Pie),
    ("gitgraph", GitGraph), ("mindmap", MindMap), ("timeline", Timeline),
    ("graph", Flowchart), ("flowchart", Flowchart)
  ]

  /** The first table entry whose keyword occurs in the lower-cased line wins;
      with no entry, the kind is `Unknown`. */
  lemma ClassifyFirstMatchWins(line: string, i: nat)
    requires i < |DetectionOrder|
    requires Contains(Lower(line), DetectionOrder[i].0)
    requires forall j :: 0 <= j < i ==> !Contains(Lower(line), DetectionOrder[j].0)
    ensures Classify(line) == DetectionOrder[i].1
  {
    var l := Lower(line);
    if i >= 1 { assert !Contains(l, DetectionOrder[0].0); }
    if i >= 2 { assert !Contains(l, DetectionOrder[1].0); }
    if i >= 3 { assert !Contains(l, DetectionOrder[2].0); }
    if i >= 4 { assert !Contains(l, DetectionOrder[3].0); }
    if i >= 5 { assert !Contains(l, DetectionOrder[4].0); }
    if i >= 6 { assert !Contains(l, DetectionOrder[5].0); }
    if i >= 7 { assert !Contains(l, DetectionOrder[6].0); }
    if i >= 8 { assert !Contains(l, DetectionOrder[7].0); }
    if i >= 9 { assert !Contains(l, DetectionOrder[8].0); }
    if i >= 10 { assert !Contains(l, DetectionOrder[9].0); }
    if i >= 11 { assert !Contains(l, DetectionOrder[10].0); }
  }

  lemma ClassifyNoMatch(line: string)
    requires forall j :: 0 <= j < |DetectionOrder| ==> !Contains(Lower(line), DetectionOrder[j].0)
    ensures Classify(line) == Unknown
  {
    var l := Lower(line);
    assert !Contains(l, DetectionOrder[0].0) && !Contains(l, DetectionOrder[1].0);
    assert !Contains(l, DetectionOrder[2].0) && !Contains(l, DetectionOrder[3].0);
    assert !Contains(l, DetectionOrder[4].0) && !Contains(l, DetectionOrder[5].0);
    assert !Contains(l, DetectionOrder[6].0) && !Contains(l, DetectionOrder[7].0);
    assert !Contains(l, DetectionOrder[8].0) && !Contains(l, DetectionOrder[9].0);
    assert !Contains(l, DetectionOrder[10].0) && !Contains(l, DetectionOrder[11].0);
  }

  /** Trailing whitespace never changes the detected kind. */
  lemma ClassifyTrimEnd(line: string)
    ensures Classify(TrimEnd(line)) == Classify(line)
  {
    KeywordsIgnoreTrailingWhitespace(line);
    ClassifyByTable(line, TrimEnd(line));
  }

  /** No detection keyword holds whitespace, so trailing whitespace cannot make or break a match. */
  lemma KeywordsIgnoreTrailingWhitespace(line: string)
    ensures forall j :: 0 <= j < |DetectionOrder| ==>
      (Contains(Lower(line), DetectionOrder[j].0) <==> Contains(Lower(TrimEnd(line)), DetectionOrder[j].0))
  {
    forall j | 0 <= j < |DetectionOrder|
      ensures Contains(Lower(line), DetectionOrder[j].0) <==> Contains(Lower(TrimEnd(line)), DetectionOrder[j].0)
    {
      var p := DetectionOrder[j].0;
      LowerLettersAreNotWhitespace(p);
      ContainsLowerTrimEnd(line, p);
    }
  }

  /** `Classify` is a function of which table keywords occur. */
  lemma ClassifyByTable(a: string, b: string)
    requires forall j :: 0 <= j < |DetectionOrder| ==>
      (Contains(Lower(a), DetectionOrder[j].0) <==> Contains(Lower(b), DetectionOrder[j].0))
    ensures Classify(a) == Classify(b)
  {
    assert DetectionOrder[0].0 == "sequencediagram" && DetectionOrder[1].0 == "classdiagram";
    assert DetectionOrder[2].0 == "statediagram" && DetectionOrder[3].0 == "erdiagram";
    assert DetectionOrder[4].0 == "journey" && DetectionOrder[5].0 == "gantt";
    assert DetectionOrder[6].0 == "pie" && DetectionOrder[7].0 == "gitgraph";
    assert DetectionOrder[8].0 == "mindmap" && DetectionOrder[9].0 == "timeline";
    assert DetectionOrder[10].0 == "graph" && DetectionOrder[11].0 == "flowchart";
  }

  /** Only the first line counts: a text that starts with a non-blank line is
      classified by that line alone, whatever follows. */
  lemma DetectLeadingLine(line: string, rest: string)
    requires '\n' !in line && |line| > 0 && !IsWhitespace(line[0])
    ensures DetectDiagramType(line + "\n" + rest) == Classify(line)
  {
    var s := line + "\n" + rest;
    assert s == line + ("\n" + rest);
    assert TrimStart(s) == s;
    TrimEndAppend(line, "\n" + rest);
    if AllWhitespace("\n" + rest) {
      assert Trim(s) == TrimEnd(line);
      forall k | 0 <= k < |TrimEnd(line)|
        ensures TrimEnd(line)[k] != '\n'
      {
        assert TrimEnd(line)[k] == line[k];
      }
      SplitSingle(TrimEnd(line), '\n');
      ClassifyTrimEnd(line);
    } else {
      TrimEndAppend("\n", rest);
      assert !AllWhitespace(rest);
      assert Trim(s) == line + "\n" + TrimEnd(rest);
      SplitCons(line, TrimEnd(rest), '\n');
    }
  }

  // ---------------------------------------------------------------------
  // Per-line heuristics

  /** A bracket kind occurs on both sides on the same line, in different numbers. */
  predicate Mismatched(line: string, open: char, close: char) {
    Count(line, open) > 0 && Count(line, close) > 0 && Count(line, open) != Count(line, close)
  }

  /** The arrows `hasInvalidFlowchartArrow` accepts. */
  const ValidArrows: seq<string> := ["-->", "-.->", "==>", "--x", "--o", "---"]

  /** The arrow-like patterns that make a line worth checking. */
  const ArrowPatterns: seq<string> := ["->", "->>", "-->", "-.->", "==>", "--x", "--o"]

  predicate ContainsAny(line: string, patterns: seq<string>) {
    exists k | 0 <= k < |patterns| :: Contains(line, patterns[k])
  }

  /** `/->>|-->>/.test(line)` */
  predicate HasSequenceArrows(line: string) {
    Contains(line, "->>") || Contains(line, "-->>")
  }

  /** `hasInvalidFlowchartArrow` */
  predicate HasInvalidFlowchartArrow(line: string) {
    ContainsAny(line, ArrowPatterns) && !ContainsAny(line, ValidArrows) && !HasSequenceArrows(line)
  }

  /** `->(?!>)` matches at `i`. */
  predicate BareArrowAt(line: string, i: int) {
    OccursAt(line, "->", i) && (i + 2 == |line| || line[i + 2] != '>')
  }

  /** Leftmost match of `->(?!>)` at or after `k`. */
  function FindBareArrow(line: string, k: nat): (r: Option<nat>)
    ensures r.Some? ==> k <= r.value && BareArrowAt(line, r.value)
    ensures r.Some? ==> forall j :: k <= j < r.value ==> !BareArrowAt(line, j)
    ensures r.None? ==> forall j :: k <= j ==> !BareArrowAt(line, j)
    decreases |line| - k
  {
    if k + 2 > |line| then None
    else if BareArrowAt(line, k) then Some(k)
    else FindBareArrow(line, k + 1)
  }

  /** `getInvalidArrowPosition`: index of the match plus one, or 1 without a match. */
  function InvalidArrowPosition(line: string): nat {
    match FindBareArrow(line, 0)
    case Some(i) => i + 1
    case None => 1
  }

  /** `->>|-->>` matches at `i`. */
  predicate SequenceArrowAt(line: string, i: int) {
    OccursAt(line, "->>", i) || OccursAt(line, "-->>", i)
  }

  /** Leftmost match of `->>|-->>` at or after `k`. */
  function FindSequenceArrow(line: string, k: nat): (r: Option<nat>)
    ensures r.Some? ==> k <= r.value && SequenceArrowAt(line, r.value)
    ensures r.Some? ==> forall j :: k <= j < r.value ==> !SequenceArrowAt(line, j)
    ensures r.None? ==> forall j :: k <= j ==> !SequenceArrowAt(line, j)
    decreases |line| - k
  {
    if k + 3 > |line| then None
    else if SequenceArrowAt(line, k) then Some(k)
    else FindSequenceArrow(line, k + 1)
  }

  /** `getSequenceArrowPosition` */
  function SequenceArrowPosition(line: string): nat {
    match FindSequenceArrow(line, 0)
    case Some(i) => i + 1
    case None => 1
  }

  /** Blank lines and `%%` comment lines get no per-line diagnostics. */
  predicate Skipped(line: string) {
    var t := Trim(line);
    t == [] || "%%" <= t
  }

  /** The square-bracket warning, placed at the end of the line. */
  function SquareCheck(line: string, lineNum: nat): seq<Diagnostic> {
    if Mismatched(line, '[', ']') then [Diagnostic(lineNum, |line|, SquareMessage, Warning)] else []
  }

  /** The curly-bracket warning, placed at the end of the line. */
  function CurlyCheck(line: string, lineNum: nat): seq<Diagnostic> {
    if Mismatched(line, '{', '}') then [Diagnostic(lineNum, |line|, CurlyMessage, Warning)] else []
  }

  /** The invalid-arrow error, for flowcharts only. */
  function ArrowCheck(kind: DiagramKind, line: string, lineNum: nat): seq<Diagnostic> {
    if kind == Flowchart && HasInvalidFlowchartArrow(line)
    then [Diagnostic(lineNum, InvalidArrowPosition(line), ArrowMessage, Error)] else []
  }

  /** The misplaced sequence-arrow warning, for every kind but sequence diagrams. */
  function SequenceArrowCheck(kind: DiagramKind, line: string, lineNum: nat): seq<Diagnostic> {
    if kind != Sequence && HasSequenceArrows(line)
    then [Diagnostic(lineNum, SequenceArrowPosition(line), SequenceArrowMessage, Warning)] else []
  }

  /** The diagnostics one line contributes, in the order the source pushes them. */
  function LineDiagnostics(kind: DiagramKind, line: string, lineNum: nat): seq<Diagnostic> {
    if Skipped(line) then []
    else
      SquareCheck(line, lineNum) + CurlyCheck(line, lineNum)
      + ArrowCheck(kind, line, lineNum) + SequenceArrowCheck(kind, line, lineNum)
  }

  /** The per-line diagnostics of `lines`, numbering the lines from 1. */
  function LinesDiagnostics(kind: DiagramKind, lines: seq<string>): seq<Diagnostic>
    decreases |lines|
  {
    if |lines| == 0 then []
    else LinesDiagnostics(kind, lines[..|lines| - 1]) + LineDiagnostics(kind, lines[|lines| - 1], |lines|)
  }

  /** One more line adds its own diagnostics, numbered after the others, at the end. */
  lemma LinesSnoc(kind: DiagramKind, lines: seq<string>, line: string)
    ensures LinesDiagnostics(kind, lines + [line])
      == LinesDiagnostics(kind, lines) + LineDiagnostics(kind, line, |lines| + 1)
  {
    assert (lines + [line])[..|lines|] == lines;
  }

  /** The step of the scan over the lines: the next line's diagnostics go at the end. */
  lemma LinesStep(kind: DiagramKind, lines: seq<string>, index: nat, before: seq<Diagnostic>, found: seq<Diagnostic>)
    requires index < |lines|
    requires before == LinesDiagnostics(kind, lines[..index])
    requires found == LineDiagnostics(kind, lines[index], index + 1)
    ensures before + found == LinesDiagnostics(kind, lines[..index + 1])
  {
    var next := lines[..index + 1];
    assert next[..index] == lines[..index] && next[index] == lines[index] && |next| == index + 1;
    assert LinesDiagnostics(kind, next)
      == LinesDiagnostics(kind, next[..index]) + LineDiagnostics(kind, next[index], index + 1);
  }

  // ---------------------------------------------------------------------
  // The renderer's parse error

  /** `isKnownValidationIssue` */
  predicate IsKnownValidationIssue(message: string) {
    var m := Lower(message);
    Contains(m, "arrow") || Contains(m, "bracket") || Contains(m, "syntax")
  }

  /** Length of the run of decimal digits starting at `i`. */
  function DigitRun(s: string, i: nat): (n: nat)
    ensures i + n <= |s| || n == 0
    ensures forall j :: i <= j < i + n ==> IsDigit(s[j])
    ensures i + n < |s| ==> !IsDigit(s[i + n])
    decreases |s| - i
  {
    if i < |s| && IsDigit(s[i]) then 1 + DigitRun(s, i + 1) else 0
  }

  /** `parseInt` of a string of decimal digits. */
  function DecimalValue(ds: string): nat
    requires forall j :: 0 <= j < |ds| ==> IsDigit(ds[j])
  {
    if |ds| == 0 then 0
    else
      var last := ds[|ds| - 1];
      assert IsDigit(last);
      DecimalValue(ds[..|ds| - 1]) * 10 + (last as int - '0' as int)
  }

  /** `/line (\d+)/i` matches at `i`. */
  predicate LineReferenceAt(message: string, i: int) {
    OccursAtIgnoringCase(message, "line ", i) && i + 5 < |message| && IsDigit(message[i + 5])
  }

  function FindLineReference(message: string, k: nat): (r: Option<nat>)
    ensures r.Some? ==> k <= r.value && LineReferenceAt(message, r.value)
    ensures r.Some? ==> forall j :: k <= j < r.value ==> !LineReferenceAt(message, j)
    ensures r.None? ==> forall j :: k <= j ==> !LineReferenceAt(message, j)
    decreases |message| - k
  {
    if k + 6 > |message| then None
    else if LineReferenceAt(message, k) then Some(k)
    else FindLineReference(message, k + 1)
  }

  /** The line number a parse error names, or 1. */
  function ReportedLine(message: string): nat {
    match FindLineReference(message, 0)
    case None => 1
    case Some(i) => DecimalValue(message[i + 5..i + 5 + DigitRun(message, i + 5)])
  }

  /** `/Parse error on line \d+:/i` matches at `i`; the match is `n` characters long. */
  predicate ParsePrefixAt(message: string, i: int) {
    OccursAtIgnoringCase(message, "parse error on line ", i)
    && DigitRun(message, i + 20) > 0
    && i + 20 + DigitRun(message, i + 20) < |message|
    && message[i + 20 + DigitRun(message, i + 20)] == ':'
  }

  function FindParsePrefix(message: string, k: nat): (r: Option<nat>)
    ensures r.Some? ==> k <= r.value && ParsePrefixAt(message, r.value)
    ensures r.Some? ==> forall j :: k <= j < r.value ==> !ParsePrefixAt(message, j)
    ensures r.None? ==> forall j :: k <= j ==> !ParsePrefixAt(message, j)
    decreases |message| - k
  {
    if k + 22 > |message| then None
    else if ParsePrefixAt(message, k) then Some(k)
    else FindParsePrefix(message, k + 1)
  }

  /** `.replace(/Parse error on line \d+:/i, '')`: the first match is removed. */
  function RemoveParsePrefix(message: string): (r: string)
    ensures FindParsePrefix(message, 0).None? ==> r == message
    ensures |r| <= |message|
  {
    match FindParsePrefix(message, 0)
    case None => message
    case Some(i) => message[..i] + message[i + 21 + DigitRun(message, i + 20)..]
  }

  /** End of the line containing position `k`: the first line terminator at or after it. */
  function LineEnd(s: string, k: nat): (e: nat)
    requires k <= |s|
    ensures k <= e <= |s|
    ensures forall j :: k <= j < e ==> !IsLineTerminator(s[j])
    ensures e < |s| ==> IsLineTerminator(s[e])
    decreases |s| - k
  {
    if k == |s| || IsLineTerminator(s[k]) then k else LineEnd(s, k + 1)
  }

  /** The case-insensitive regex `Expecting .* got .*` matches at `i`: `expecting ` there,
      and ` got ` later on the same line. */
  predicate ExpectingAt(message: string, i: int) {
    OccursAtIgnoringCase(message, "expecting ", i)
    && var g := FindFromIgnoringCase(message, " got ", i + 10);
       g.Some? && g.value + 5 <= LineEnd(message, i + 10)
  }

  function FindExpecting(message: string, k: nat): (r: Option<nat>)
    ensures r.Some? ==> k <= r.value && ExpectingAt(message, r.value)
    ensures r.Some? ==> forall j :: k <= j < r.value ==> !ExpectingAt(message, j)
    ensures r.None? ==> forall j :: k <= j ==> !ExpectingAt(message, j)
    decreases |message| - k
  {
    if k + 15 > |message| then None
    else if ExpectingAt(message, k) then Some(k)
    else FindExpecting(message, k + 1)
  }

  /** The first case-insensitive match of `Expecting .* got .*`, which runs to the end
      of its line, is replaced by `Syntax error`. */
  function ReplaceExpecting(message: string): (r: string)
    ensures FindExpecting(message, 0).None? ==> r == message
  {
    match FindExpecting(message, 0)
    case None => message
    case Some(i) => message[..i] + "Syntax error" + message[LineEnd(message, i + 10)..]
  }

  /** `cleanErrorMessage` */
  function CleanErrorMessage(message: string): (r: string)
    ensures |r| > 0 ==> !IsWhitespace(r[0]) && !IsWhitespace(r[|r| - 1])
  {
    Trim(ReplaceExpecting(RemoveParsePrefix(message)))
  }

  /** What the secondary pass appends after the per-line diagnostics. */
  function ParseDiagnostics(outcome: ParseOutcome): seq<Diagnostic> {
    match outcome
    case Accepted => []
    case Rejected(m) =>
      if IsKnownValidationIssue(m) then []
      else [Diagnostic(ReportedLine(m), 1, CleanErrorMessage(m), Error)]
    case Faulted(cause) =>
      [Diagnostic(1, 1, "Validation error: " + (if cause == "" then "Unknown error" else cause), Warning)]
  }

  /** `validateSyntax` as a function of the text and the parser's verdict. */
  function Validation(code: string, outcome: ParseOutcome): seq<Diagnostic> {
    if Trim(code) == [] then []
    else LinesDiagnostics(DetectDiagramType(code), Split(code, '\n')) + ParseDiagnostics(outcome)
  }

  /** The bracket tests of the `forEach` callback, the first to push for a line. */
  method CheckBrackets(line: string, lineNum: nat) returns (pushed: seq<Diagnostic>)
    ensures pushed == SquareCheck(line, lineNum) + CurlyCheck(line, lineNum)
  {
    pushed := [];
    if Mismatched(line, '[', ']') {
      pushed := pushed + [Diagnostic(lineNum, |line|, SquareMessage, Warning)];
    }
    assert pushed == SquareCheck(line, lineNum);
    if Mismatched(line, '{', '}') {
      pushed := pushed + [Diagnostic(lineNum, |line|, CurlyMessage, Warning)];
    }
  }

  /** The arrow tests of the `forEach` callback, pushing onto `found`. */
  method CheckArrows(diagramType: DiagramKind, line: string, lineNum: nat, found: seq<Diagnostic>)
    returns (pushed: seq<Diagnostic>)
    ensures pushed == found + ArrowCheck(diagramType, line, lineNum) + SequenceArrowCheck(diagramType, line, lineNum)
  {
    pushed := found;
    if diagramType == Flowchart && HasInvalidFlowchartArrow(line) {
      var column := InvalidArrowPosition(line);
      pushed := pushed + [Diagnostic(lineNum, column, ArrowMessage, Error)];
    }
    assert pushed == found + ArrowCheck(diagramType, line, lineNum);
    if diagramType != Sequence && HasSequenceArrows(line) {
      var column := SequenceArrowPosition(line);
      pushed := pushed + [Diagnostic(lineNum, column, SequenceArrowMessage, Warning)];
    }
  }

  /** The body of the `forEach` callback: the diagnostics pushed for one line. */
  method CheckLine(diagramType: DiagramKind, line: string, lineNum: nat) returns (found: seq<Diagnostic>)
    ensures found == LineDiagnostics(diagramType, line, lineNum)
  {
    found := [];
    if Skipped(line) {
      return;
    }
    found := CheckBrackets(line, lineNum);
    found := CheckArrows(diagramType, line, lineNum, found);
  }

  /** The `forEach` over the lines: each line's diagnostics, numbered from 1, in order. */
  method CheckLines(diagramType: DiagramKind, lines: seq<string>) returns (errors: seq<Diagnostic>)
    ensures errors == LinesDiagnostics(diagramType, lines)
  {
    errors := [];
    var index := 0;
    while index < |lines|
      invariant 0 <= index <= |lines|
      invariant errors == LinesDiagnostics(diagramType, lines[..index])
    {
      var found := CheckLine(diagramType, lines[index], index + 1);
      LinesStep(diagramType, lines, index, errors, found);
      errors := errors + found;
      index := index + 1;
    }
    assert lines[..|lines|] == lines;
  }

  /** `validateSyntax`: scans the lines, collecting diagnostics, then consults the parser. */
  method ValidateSyntax(code: string, outcome: ParseOutcome) returns (errors: seq<Diagnostic>)
    ensures errors == Validation(code, outcome)
  {
    errors := [];
    if Trim(code) == [] {
      return;
    }
    var diagramType := DetectDiagramType(code);
    var lines := Split(code, '\n');
    errors := CheckLines(diagramType, lines);
    match outcome {
      case Accepted =>
      case Rejected(m) =>
        if !IsKnownValidationIssue(m) {
          errors := errors + [Diagnostic(ReportedLine(m), 1, CleanErrorMessage(m), Error)];
        }
      case Faulted(cause) =>
        var reason := if cause == "" then "Unknown error" else cause;
        errors := errors + [Diagnostic(1, 1, "Validation error: " + reason, Warning)];
    }
  }

  // ---------------------------------------------------------------------
  // Properties

  /** Empty or whitespace-only text yields no diagnostics, whatever the parser says. */
  lemma BlankTextHasNoDiagnostics(code: string, outcome: ParseOutcome)
    requires AllWhitespace(code)
    ensures Validation(code, outcome) == []
  {
  }

  /** Blank lines and `%%` comment lines contribute nothing. */
  lemma SkippedLinesAreSilent(kind: DiagramKind, line: string, lineNum: nat)
    requires AllWhitespace(line) || "%%" <= Trim(line)
    ensures LineDiagnostics(kind, line, lineNum) == []
  {
  }

  /** Position of a per-line message in the order the checks run. */
  function Rank(message: string): nat {
    if message == SquareMessage then 0
    else if message == CurlyMessage then 1
    else if message == ArrowMessage then 2
    else 3
  }

  predicate Reports(ds: seq<Diagnostic>, message: string) {
    exists k | 0 <= k < |ds| :: ds[k].message == message
  }

  predicate RanksIncrease(ds: seq<Diagnostic>) {
    forall k, m :: 0 <= k < m < |ds| ==> Rank(ds[k].message) < Rank(ds[m].message)
  }

  lemma ReportsConcat(x: seq<Diagnostic>, y: seq<Diagnostic>, message: string)
    ensures Reports(x + y, message) <==> Reports(x, message) || Reports(y, message)
  {
    if Reports(x + y, message) {
      var k :| 0 <= k < |x + y| && (x + y)[k].message == message;
      if k >= |x| { assert y[k - |x|].message == message; }
    }
    if Reports(x, message) {
      var k :| 0 <= k < |x| && x[k].message == message;
      assert (x + y)[k] == x[k];
    }
    if Reports(y, message) {
      var k :| 0 <= k < |y| && y[k].message == message;
      assert (x + y)[|x| + k] == y[k];
    }
  }

  /** Diagnostics `ds` all carry `message` on line `lineNum`; there is at most one. */
  predicate OnlyOf(ds: seq<Diagnostic>, message: string, lineNum: nat) {
    |ds| <= 1 && forall k :: 0 <= k < |ds| ==> ds[k].message == message && ds[k].line == lineNum
  }

  /** The four checks' outputs, concatenated in the order the checks run. */
  lemma FourPartsInOrder(a: seq<Diagnostic>, b: seq<Diagnostic>, c: seq<Diagnostic>, d: seq<Diagnostic>, lineNum: nat)
    requires OnlyOf(a, SquareMessage, lineNum) && OnlyOf(b, CurlyMessage, lineNum)
    requires OnlyOf(c, ArrowMessage, lineNum) && OnlyOf(d, SequenceArrowMessage, lineNum)
    ensures var ds := a + b + c + d;
      && |ds| <= 4
      && (forall k :: 0 <= k < |ds| ==> ds[k].line == lineNum)
      && RanksIncrease(ds)
  {
    assert Rank(SquareMessage) == 0 && Rank(CurlyMessage) == 1;
    assert Rank(ArrowMessage) == 2 && Rank(SequenceArrowMessage) == 3;
    RanksIncreaseSnoc(a, b);
    RanksIncreaseSnoc(a + b, c);
    RanksIncreaseSnoc(a + b + c, d);
  }

  /** A part that holds only `message` reports `other` exactly when it is not
      empty and the two messages are the same. */
  lemma OnlyOfReports(ds: seq<Diagnostic>, message: string, lineNum: nat, other: string)
    requires OnlyOf(ds, message, lineNum)
    ensures Reports(ds, other) <==> |ds| == 1 && message == other
  {
    if |ds| == 1 && message == other {
      assert ds[0].message == other;
    }
  }

  /** Four parts, each holding only its own message: the concatenation reports a
      message exactly when a non-empty part holds it. */
  lemma FourPartsReportOne(a: seq<Diagnostic>, b: seq<Diagnostic>, c: seq<Diagnostic>, d: seq<Diagnostic>,
                           ma: string, mb: string, mc: string, md: string, lineNum: nat, message: string)
    requires OnlyOf(a, ma, lineNum) && OnlyOf(b, mb, lineNum) && OnlyOf(c, mc, lineNum) && OnlyOf(d, md, lineNum)
    ensures Reports(a + b + c + d, message) <==>
      || (|a| == 1 && ma == message) || (|b| == 1 && mb == message)
      || (|c| == 1 && mc == message) || (|d| == 1 && md == message)
  {
    ReportsConcat(a, b, message);
    ReportsConcat(a + b, c, message);
    ReportsConcat(a + b + c, d, message);
    OnlyOfReports(a, ma, lineNum, message);
    OnlyOfReports(b, mb, lineNum, message);
    OnlyOfReports(c, mc, lineNum, message);
    OnlyOfReports(d, md, lineNum, message);
  }

  /** Every element of four such parts is the single element of one of them. */
  lemma FourPartsPlacement(a: seq<Diagnostic>, b: seq<Diagnostic>, c: seq<Diagnostic>, d: seq<Diagnostic>,
                           ma: string, mb: string, mc: string, md: string, lineNum: nat)
    requires OnlyOf(a, ma, lineNum) && OnlyOf(b, mb, lineNum) && OnlyOf(c, mc, lineNum) && OnlyOf(d, md, lineNum)
    ensures forall k :: 0 <= k < |a + b + c + d| ==>
      var x := (a + b + c + d)[k];
      || (|a| == 1 && x == a[0] && x.message == ma) || (|b| == 1 && x == b[0] && x.message == mb)
      || (|c| == 1 && x == c[0] && x.message == mc) || (|d| == 1 && x == d[0] && x.message == md)
  {
    var ds := a + b + c + d;
    assert forall k :: 0 <= k < |a| ==> ds[k] == a[k];
    assert forall k :: |a| <= k < |a| + |b| ==> ds[k] == b[k - |a|];
    assert forall k :: |a| + |b| <= k < |a| + |b| + |c| ==> ds[k] == c[k - |a| - |b|];
    assert forall k :: |a| + |b| + |c| <= k < |ds| ==> ds[k] == d[k - |a| - |b| - |c|];
  }

  /** Which messages four such parts report. */
  lemma FourPartsReport(a: seq<Diagnostic>, b: seq<Diagnostic>, c: seq<Diagnostic>, d: seq<Diagnostic>, lineNum: nat)
    requires OnlyOf(a, SquareMessage, lineNum) && OnlyOf(b, CurlyMessage, lineNum)
    requires OnlyOf(c, ArrowMessage, lineNum) && OnlyOf(d, SequenceArrowMessage, lineNum)
    ensures Reports(a + b + c + d, SquareMessage) <==> |a| == 1
    ensures Reports(a + b + c + d, CurlyMessage) <==> |b| == 1
    ensures Reports(a + b + c + d, ArrowMessage) <==> |c| == 1
    ensures Reports(a + b + c + d, SequenceArrowMessage) <==> |d| == 1
    ensures forall k :: 0 <= k < |a + b + c + d| ==>
      var x := (a + b + c + d)[k];
      (x.message == SquareMessage ==> x == a[0]) && (x.message == CurlyMessage ==> x == b[0])
      && (x.message == ArrowMessage ==> x == c[0]) && (x.message == SequenceArrowMessage ==> x == d[0])
  {
    assert Rank(SquareMessage) == 0 && Rank(CurlyMessage) == 1;
    assert Rank(ArrowMessage) == 2 && Rank(SequenceArrowMessage) == 3;
    var ma, mb, mc, md := SquareMessage, CurlyMessage, ArrowMessage, SequenceArrowMessage;
    FourPartsReportOne(a, b, c, d, ma, mb, mc, md, lineNum, ma);
    FourPartsReportOne(a, b, c, d, ma, mb, mc, md, lineNum, mb);
    FourPartsReportOne(a, b, c, d, ma, mb, mc, md, lineNum, mc);
    FourPartsReportOne(a, b, c, d, ma, mb, mc, md, lineNum, md);
    FourPartsPlacement(a, b, c, d, ma, mb, mc, md, lineNum);
  }

  /** Appending a diagnostic of higher rank than everything before keeps ranks increasing. */
  lemma RanksIncreaseSnoc(x: seq<Diagnostic>, y: seq<Diagnostic>)
    requires RanksIncrease(x) && |y| <= 1
    requires forall k, m :: 0 <= k < |x| && 0 <= m < |y| ==> Rank(x[k].message) < Rank(y[m].message)
    ensures RanksIncrease(x + y)
  {
  }

  /** The shape of one line's diagnostics: at most one per check, all on that
      line, and in the order square, curly, arrow, sequence arrow. */
  lemma LineDiagnosticsOrder(kind: DiagramKind, line: string, lineNum: nat)
    ensures var ds := LineDiagnostics(kind, line, lineNum);
      && |ds| <= 4
      && (forall k :: 0 <= k < |ds| ==> ds[k].line == lineNum)
      && RanksIncrease(ds)
  {
    if !Skipped(line) {
      FourPartsInOrder(SquareCheck(line, lineNum), CurlyCheck(line, lineNum),
        ArrowCheck(kind, line, lineNum), SequenceArrowCheck(kind, line, lineNum), lineNum);
    }
  }

  /** Bracket warnings: raised for one bracket kind exactly when both of its sides
      occur on the line in different numbers; placed at the end of the line.
      Parentheses play no part. */
  lemma BracketWarnings(kind: DiagramKind, line: string, lineNum: nat)
    ensures var ds := LineDiagnostics(kind, line, lineNum);
      && (Reports(ds, SquareMessage) <==> !Skipped(line) && Mismatched(line, '[', ']'))
      && (Reports(ds, CurlyMessage) <==> !Skipped(line) && Mismatched(line, '{', '}'))
      && (forall k :: 0 <= k < |ds| && (ds[k].message == SquareMessage || ds[k].message == CurlyMessage) ==>
            ds[k].severity == Warning && ds[k].column == |line|)
  {
    if !Skipped(line) {
      FourPartsReport(SquareCheck(line, lineNum), CurlyCheck(line, lineNum),
        ArrowCheck(kind, line, lineNum), SequenceArrowCheck(kind, line, lineNum), lineNum);
    }
  }

  /** Arrow diagnostics: the invalid-arrow error only in flowcharts, the
      sequence-arrow warning in every kind but sequence diagrams. */
  lemma ArrowDiagnostics(kind: DiagramKind, line: string, lineNum: nat)
    ensures var ds := LineDiagnostics(kind, line, lineNum);
      && (Reports(ds, ArrowMessage) <==> !Skipped(line) && kind == Flowchart && HasInvalidFlowchartArrow(line))
      && (Reports(ds, SequenceArrowMessage) <==> !Skipped(line) && kind != Sequence && HasSequenceArrows(line))
      && (forall k :: 0 <= k < |ds| && ds[k].message == ArrowMessage ==>
            ds[k].severity == Error && ds[k].column == InvalidArrowPosition(line))
      && (forall k :: 0 <= k < |ds| && ds[k].message == SequenceArrowMessage ==>
            ds[k].severity == Warning && ds[k].column == SequenceArrowPosition(line))
  {
    if !Skipped(line) {
      FourPartsReport(SquareCheck(line, lineNum), CurlyCheck(line, lineNum),
        ArrowCheck(kind, line, lineNum), SequenceArrowCheck(kind, line, lineNum), lineNum);
    }
  }

  /** The arrow check in plain terms: a `->` somewhere, no valid flowchart arrow,
      and no sequence arrow. So `A->B` is flagged while `A-->B` and `A-.->B` are not. */
  lemma InvalidArrowMeaning(line: string)
    ensures HasInvalidFlowchartArrow(line) <==>
      Contains(line, "->") && !Contains(line, "->>")
      && forall k :: 0 <= k < |ValidArrows| ==> !Contains(line, ValidArrows[k])
  {
    assert OccursAt("->>", "->", 0) && OccursAt("-->", "->", 1) && OccursAt("-.->", "->", 2);
    assert OccursAt("-->>", "->>", 1);
    if Contains(line, "->>") { ContainsInner(line, "->>", "->", 0); }
    if Contains(line, "-->") { ContainsInner(line, "-->", "->", 1); }
    if Contains(line, "-.->") { ContainsInner(line, "-.->", "->", 2); }
    if Contains(line, "-->>") { ContainsInner(line, "-->>", "->>", 1); }
    assert ArrowPatterns[0] == "->";
    assert ValidArrows[2] == "==>" && ArrowPatterns[4] == "==>";
    assert ValidArrows[3] == "--x" && ArrowPatterns[5] == "--x";
    assert ValidArrows[4] == "--o" && ArrowPatterns[6] == "--o";
  }

  /** On a flagged line, the column is one past the first `->`: the default of 1 is never used. */
  lemma InvalidArrowColumn(line: string)
    requires HasInvalidFlowchartArrow(line)
    ensures IndexOf(line, "->").Some?
    ensures InvalidArrowPosition(line) == IndexOf(line, "->").value + 1
  {
    InvalidArrowMeaning(line);
    var i := IndexOf(line, "->").value;
    if i + 2 < |line| && line[i + 2] == '>' {
      assert OccursAt(line, "->>", i);
    }
    assert BareArrowAt(line, i);
    var r := FindBareArrow(line, 0);
    assert r.Some? && r.value <= i;
    assert OccursAt(line, "->", r.value);
  }

  /** The sequence-arrow check fires exactly when `->>` occurs. */
  lemma SequenceArrowMeaning(line: string)
    ensures HasSequenceArrows(line) <==> Contains(line, "->>")
    ensures HasSequenceArrows(line) ==> SequenceArrowAt(line, SequenceArrowPosition(line) - 1)
  {
    assert OccursAt("-->>", "->>", 1);
    if Contains(line, "-->>") { ContainsInner(line, "-->>", "->>", 1); }
    if HasSequenceArrows(line) {
      var i := IndexOf(line, "->>").value;
      assert SequenceArrowAt(line, i);
    }
  }

  /** Every diagnostic in `ds` names one of lines 1 to `n`, in non-decreasing order. */
  predicate InLineOrder(ds: seq<Diagnostic>, n: nat) {
    && (forall k :: 0 <= k < |ds| ==> 1 <= ds[k].line <= n)
    && (forall k, m :: 0 <= k < m < |ds| ==> ds[k].line <= ds[m].line)
  }

  /** The per-line diagnostics come out in line order, numbered from 1. */
  lemma {:induction false} LinesDiagnosticsInLineOrder(kind: DiagramKind, lines: seq<string>)
    ensures InLineOrder(LinesDiagnostics(kind, lines), |lines|)
    decreases |lines|
  {
    if |lines| > 0 {
      var init := lines[..|lines| - 1];
      LinesDiagnosticsInLineOrder(kind, init);
      LineDiagnosticsOrder(kind, lines[|lines| - 1], |lines|);
      assert |init| == |lines| - 1;
      AppendInLineOrder(LinesDiagnostics(kind, init), LineDiagnostics(kind, lines[|lines| - 1], |lines|), |lines|);
    }
  }

  /** Appending the diagnostics of line `n` to those of the lines before it keeps
      them in line order. */
  lemma AppendInLineOrder(a: seq<Diagnostic>, b: seq<Diagnostic>, n: nat)
    requires 1 <= n && InLineOrder(a, n - 1)
    requires forall k :: 0 <= k < |b| ==> b[k].line == n
    ensures InLineOrder(a + b, n)
  {
    var ds := a + b;
    assert forall k :: 0 <= k < |a| ==> ds[k] == a[k];
    assert forall k :: |a| <= k < |ds| ==> ds[k] == b[k - |a|];
    forall k, m | 0 <= k < m < |ds|
      ensures ds[k].line <= ds[m].line
    {
      if m < |a| {
        assert ds[k] == a[k] && ds[m] == a[m];
      } else if k < |a| {
        assert ds[k] == a[k] && ds[m] == b[m - |a|];
      } else {
        assert ds[k] == b[k - |a|] && ds[m] == b[m - |a|];
      }
    }
  }

  /** The parser's verdict only ever appends, and at most one diagnostic: an error
      at column 1 on the line it names for an unknown kind of failure, nothing for
      a failure that mentions an arrow, a bracket or syntax, and a warning at line 1,
      column 1 when its message could not be read. */
  lemma ParserVerdictAppends(code: string, outcome: ParseOutcome)
    requires !AllWhitespace(code)
    ensures var base := Validation(code, Accepted);
      && base == LinesDiagnostics(DetectDiagramType(code), Split(code, '\n'))
      && Validation(code, outcome) == base + ParseDiagnostics(outcome)
      && |ParseDiagnostics(outcome)| <= 1
      && (outcome.Rejected? && IsKnownValidationIssue(outcome.message) ==> Validation(code, outcome) == base)
      && (outcome.Rejected? && !IsKnownValidationIssue(outcome.message) ==>
            Validation(code, outcome) == base +
              [Diagnostic(ReportedLine(outcome.message), 1, CleanErrorMessage(outcome.message), Error)])
      && (outcome.Faulted? ==>
            && Validation(code, outcome)[|base|].line == 1
            && Validation(code, outcome)[|base|].column == 1
            && Validation(code, outcome)[|base|].severity == Warning
            && "Validation error: " <= Validation(code, outcome)[|base|].message)
  {
  }
}
