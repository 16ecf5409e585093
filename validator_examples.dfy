/**
 * Worked examples of the validator on small diagrams. Concrete string facts are
 * cheap only in small steps, so each example is assembled from one lemma per
 * line and per check.
 */
module MermaidValidatorExamples {
  import opened Wrappers
  import opened Text
  import opened MermaidValidator

  lemma HeaderMissesEarlyKeywords()
    ensures !Contains("graph td", "sequencediagram") && !Contains("graph td", "classdiagram")
  {
    NotContainsByChar("graph td", "sequencediagram", 'q');
    NotContainsByChar("graph td", "classdiagram", 'c');
  }

  lemma HeaderMissesMiddleKeywords()
    ensures !Contains("graph td", "statediagram") && !Contains("graph td", "erdiagram")
    ensures !Contains("graph td", "journey")
  {
    NotContainsByChar("graph td", "statediagram", 's');
    NotContainsByChar("graph td", "erdiagram", 'e');
    NotContainsByChar("graph td", "journey", 'j');
  }

  lemma HeaderMissesLateKeywords()
    ensures !Contains("graph td", "gantt") && !Contains("graph td", "pie")
    ensures !Contains("graph td", "gitgraph") && !Contains("graph td", "mindmap")
    ensures !Contains("graph td", "timeline")
  {
    var l := "graph td";
    NotContainsByChar(l, "gantt", 'n');
    NotContainsByChar(l, "pie", 'i');
    NotContainsByChar(l, "gitgraph", 'i');
    NotContainsByChar(l, "mindmap", 'm');
    NotContainsByChar(l, "timeline", 'i');
  }

  /** `graph TD` is a flowchart header. */
  lemma ClassifyGraphHeader()
    ensures Classify("graph TD") == Flowchart
  {
    assert Lower("graph TD") == "graph td";
    HeaderMissesEarlyKeywords();
    HeaderMissesMiddleKeywords();
    HeaderMissesLateKeywords();
    assert OccursAt("graph td", "graph", 0);
  }

  lemma HeaderHasNoArrows()
    ensures !HasSequenceArrows("graph TD") && !ContainsAny("graph TD", ArrowPatterns)
  {
    var line := "graph TD";
    forall k | 0 <= k < |ArrowPatterns| ensures !Contains(line, ArrowPatterns[k]) {
      assert '-' in ArrowPatterns[k] || '=' in ArrowPatterns[k];
      if '-' in ArrowPatterns[k] {
        NotContainsByChar(line, ArrowPatterns[k], '-');
      } else {
        NotContainsByChar(line, ArrowPatterns[k], '=');
      }
    }
    NotContainsByChar(line, "->>", '-');
    NotContainsByChar(line, "-->>", '-');
  }

  lemma HeaderIsChecked()
    ensures !Skipped("graph TD")
  {
    TrimTrimmed("graph TD");
  }

  lemma HeaderHasNoBrackets()
    ensures !Mismatched("graph TD", '[', ']') && !Mismatched("graph TD", '{', '}')
  {
    assert '[' !in "graph TD" && '{' !in "graph TD";
  }

  /** The header line of a flowchart draws no per-line diagnostic. */
  lemma GraphHeaderIsClean()
    ensures LineDiagnostics(Flowchart, "graph TD", 1) == []
  {
    HeaderIsChecked();
    HeaderHasNoArrows();
    HeaderHasNoBrackets();
  }

  lemma BareArrowLineUsesNoValidArrow()
    ensures !ContainsAny(" A->B", ValidArrows)
  {
    var line := " A->B";
    forall k | 0 <= k < |ValidArrows| ensures !Contains(line, ValidArrows[k]) {
      if k == 0 {
        MismatchAt(line, "-->", 0, 0); MismatchAt(line, "-->", 1, 0); MismatchAt(line, "-->", 2, 1);
      } else if k == 1 {
        NotContainsByChar(line, "-.->", '.');
      } else if k == 2 {
        NotContainsByChar(line, "==>", '=');
      } else if k == 3 {
        NotContainsByChar(line, "--x", 'x');
      } else if k == 4 {
        NotContainsByChar(line, "--o", 'o');
      } else {
        MismatchAt(line, "---", 0, 0); MismatchAt(line, "---", 1, 0); MismatchAt(line, "---", 2, 1);
      }
    }
  }

  lemma BareArrowLineHasNoSequenceArrow()
    ensures !HasSequenceArrows(" A->B")
  {
    var line := " A->B";
    MismatchAt(line, "->>", 0, 0); MismatchAt(line, "->>", 1, 0); MismatchAt(line, "->>", 2, 2);
    MismatchAt(line, "-->>", 0, 0); MismatchAt(line, "-->>", 1, 0);
  }

  lemma BareArrowLineIsChecked()
    ensures !Skipped(" A->B")
  {
    assert Spaces(1) + "A->B" == " A->B";
    TrimAfterSpaces(1, "A->B");
    TrimTrimmed("A->B");
  }

  lemma BareArrowLineIsInvalid()
    ensures HasInvalidFlowchartArrow(" A->B")
  {
    BareArrowLineUsesNoValidArrow();
    BareArrowLineHasNoSequenceArrow();
    assert OccursAt(" A->B", ArrowPatterns[0], 2);
  }

  lemma BareArrowLineColumn()
    ensures InvalidArrowPosition(" A->B") == 3
  {
    var line := " A->B";
    assert BareArrowAt(line, 2);
    MismatchAt(line, "->", 0, 0); MismatchAt(line, "->", 1, 0);
  }

  lemma BareArrowLineHasNoBrackets()
    ensures !Mismatched(" A->B", '[', ']') && !Mismatched(" A->B", '{', '}')
  {
    assert '[' !in " A->B" && '{' !in " A->B";
  }

  /** The line ` A->B` of a flowchart gets exactly the invalid-arrow error at column 3. */
  lemma BareArrowLine()
    ensures LineDiagnostics(Flowchart, " A->B", 2) == [Diagnostic(2, 3, ArrowMessage, Error)]
  {
    BareArrowLineIsChecked();
    BareArrowLineIsInvalid();
    BareArrowLineColumn();
    BareArrowLineHasNoSequenceArrow();
    BareArrowLineHasNoBrackets();
  }

  /** A header line followed by one more line: a non-blank text of two lines whose
      kind the header decides. */
  lemma TwoLineText(header: string, second: string)
    requires '\n' !in header && |header| > 0 && !IsWhitespace(header[0]) && '\n' !in second
    ensures var code := header + "\n" + second;
      && Trim(code) != []
      && DetectDiagramType(code) == Classify(header)
      && Split(code, '\n') == [header, second]
  {
    var code := header + "\n" + second;
    DetectLeadingLine(header, second);
    assert code == header + ['\n'] + second;
    SplitCons(header, second, '\n');
    SplitSingle(second, '\n');
    assert code[0] == header[0];
  }

  /** A `graph TD` header followed by one line: a non-blank flowchart of two lines. */
  lemma TwoLineFlowchart(second: string)
    requires '\n' !in second
    ensures var code := "graph TD\n" + second;
      && Trim(code) != []
      && DetectDiagramType(code) == Flowchart
      && Split(code, '\n') == ["graph TD", second]
  {
    assert "graph TD\n" + second == "graph TD" + "\n" + second;
    TwoLineText("graph TD", second);
    ClassifyGraphHeader();
  }

  /** The per-line diagnostics of a one-line text are those of line 1. */
  lemma OneLine(kind: DiagramKind, first: string)
    ensures LinesDiagnostics(kind, [first]) == LineDiagnostics(kind, first, 1)
  {
    LinesSnoc(kind, [], first);
    assert [] + [first] == [first];
  }

  /** The per-line diagnostics of a two-line text: the first line's, then the second's. */
  lemma TwoLines(kind: DiagramKind, first: string, second: string)
    ensures LinesDiagnostics(kind, [first, second])
      == LineDiagnostics(kind, first, 1) + LineDiagnostics(kind, second, 2)
  {
    OneLine(kind, first);
    LinesSnoc(kind, [first], second);
    assert [first] + [second] == [first, second];
  }

  /** An accepted two-line text whose header is clean gets exactly the diagnostics
      of its second line. */
  lemma AcceptedTwoLineText(code: string, kind: DiagramKind, first: string, second: string, ds: seq<Diagnostic>)
    requires Trim(code) != [] && DetectDiagramType(code) == kind
    requires Split(code, '\n') == [first, second]
    requires LineDiagnostics(kind, first, 1) == [] && LineDiagnostics(kind, second, 2) == ds
    ensures Validation(code, Accepted) == ds
  {
    TwoLines(kind, first, second);
  }

  /** A flowchart arrow written `->` is reported on its line, at its column, and
      nothing else is reported when the renderer accepts the text. */
  lemma BareArrowExample()
    ensures Validation("graph TD\n A->B", Accepted) == [Diagnostic(2, 3, ArrowMessage, Error)]
  {
    var code := "graph TD\n A->B";
    assert code == "graph TD\n" + " A->B";
    TwoLineFlowchart(" A->B");
    GraphHeaderIsClean();
    BareArrowLine();
    AcceptedTwoLineText(code, Flowchart, "graph TD", " A->B", [Diagnostic(2, 3, ArrowMessage, Error)]);
  }

  lemma SequenceArrowLineIsChecked()
    ensures !Skipped(" A->>B")
  {
    assert Spaces(1) + "A->>B" == " A->>B";
    TrimAfterSpaces(1, "A->>B");
    TrimTrimmed("A->>B");
  }

  lemma SequenceArrowLineFacts()
    ensures HasSequenceArrows(" A->>B") && !HasInvalidFlowchartArrow(" A->>B")
    ensures SequenceArrowPosition(" A->>B") == 3
  {
    var line := " A->>B";
    assert OccursAt(line, "->>", 2);
    MismatchAt(line, "->>", 0, 0); MismatchAt(line, "->>", 1, 0);
    MismatchAt(line, "-->>", 0, 0); MismatchAt(line, "-->>", 1, 0);
  }

  lemma SequenceArrowLineHasNoBrackets()
    ensures !Mismatched(" A->>B", '[', ']') && !Mismatched(" A->>B", '{', '}')
  {
    assert '[' !in " A->>B" && '{' !in " A->>B";
  }

  /** The line ` A->>B` of a flowchart gets exactly the sequence-arrow warning at column 3. */
  lemma SequenceArrowLine()
    ensures LineDiagnostics(Flowchart, " A->>B", 2) == [Diagnostic(2, 3, SequenceArrowMessage, Warning)]
  {
    SequenceArrowLineIsChecked();
    SequenceArrowLineFacts();
    SequenceArrowLineHasNoBrackets();
  }

  /** A sequence-diagram arrow in a flowchart is a warning, not the invalid-arrow error. */
  lemma SequenceArrowInFlowchartExample()
    ensures Validation("graph TD\n A->>B", Accepted) == [Diagnostic(2, 3, SequenceArrowMessage, Warning)]
  {
    var code := "graph TD\n A->>B";
    assert code == "graph TD\n" + " A->>B";
    TwoLineFlowchart(" A->>B");
    GraphHeaderIsClean();
    SequenceArrowLine();
    AcceptedTwoLineText(code, Flowchart, "graph TD", " A->>B", [Diagnostic(2, 3, SequenceArrowMessage, Warning)]);
  }

  /** `Line 3` names line 3. */
  lemma ReportedLineExample()
    ensures ReportedLine("Line 3") == 3
  {
    var m := "Line 3";
    assert Lower(m[0..5]) == "line ";
    assert LineReferenceAt(m, 0);
    assert DigitRun(m, 6) == 0;
    assert DigitRun(m, 5) == 1;
    assert m[5..6] == "3";
  }

  lemma ExpectingMessageLower()
    ensures Lower("Expecting X got Y") == "expecting x got y"
  {
  }

  lemma ExpectingMessageIsUnknown()
    ensures !IsKnownValidationIssue("Expecting X got Y")
  {
    var l := "expecting x got y";
    ExpectingMessageLower();
    NotContainsByChar(l, "arrow", 'a');
    NotContainsByChar(l, "bracket", 'a');
    NotContainsByChar(l, "syntax", 's');
  }

  /** A message without the letter `l` in either case names no line. */
  lemma NoLineReferenceWithoutL(m: string)
    requires 'l' !in m && 'L' !in m
    ensures FindLineReference(m, 0).None?
  {
    forall j | 0 <= j
      ensures !LineReferenceAt(m, j)
    {
      if j + 5 <= |m| {
        assert Lower(m[j..j + 5])[0] == LowerChar(m[j]);
      }
    }
  }

  lemma ExpectingMessageGot()
    ensures FindFromIgnoringCase("Expecting X got Y", " got ", 10) == Some(11)
  {
    var m := "Expecting X got Y";
    assert Lower(m[11..16]) == " got ";
    assert Lower(m[10..15])[0] == 'x';
  }

  lemma ExpectingMessageLineEnd()
    ensures LineEnd("Expecting X got Y", 10) == 17
  {
    var m := "Expecting X got Y";
    assert forall j :: 10 <= j < 17 ==> !IsLineTerminator(m[j]);
  }

  lemma ExpectingMessageMatch()
    ensures FindExpecting("Expecting X got Y", 0) == Some(0)
    ensures LineEnd("Expecting X got Y", 10) == 17
  {
    var m := "Expecting X got Y";
    assert Lower(m[0..10]) == "expecting ";
    ExpectingMessageGot();
    ExpectingMessageLineEnd();
    assert ExpectingAt(m, 0);
  }

  /** A message that is one whole `Expecting ... got ...` line, with no parse-error
      prefix, is cleaned to `Syntax error`. */
  lemma WholeExpectingLine(m: string)
    requires FindParsePrefix(m, 0).None? && FindExpecting(m, 0) == Some(0)
    requires 10 <= |m| && LineEnd(m, 10) == |m|
    ensures CleanErrorMessage(m) == "Syntax error"
  {
    assert RemoveParsePrefix(m) == m;
    assert m[..0] == [] && m[|m|..] == [];
    assert ReplaceExpecting(m) == m[..0] + "Syntax error" + m[|m|..];
    assert [] + "Syntax error" + [] == "Syntax error";
    SyntaxErrorTrimmed();
  }

  lemma SyntaxErrorTrimmed()
    ensures Trim("Syntax error") == "Syntax error"
  {
    TrimTrimmed("Syntax error");
  }

  /** A leading line break is trimmed away. */
  lemma BrokenSyntaxErrorTrimmed()
    ensures Trim("\nSyntax error") == "Syntax error"
  {
    assert "\nSyntax error" == ['\n'] + "Syntax error";
    TrimLeadingWhitespace('\n', "Syntax error");
    SyntaxErrorTrimmed();
  }

  lemma TrimLeadingWhitespace(c: char, t: string)
    requires IsWhitespace(c)
    ensures Trim([c] + t) == Trim(t)
  {
    assert ([c] + t)[1..] == t;
    assert TrimStart([c] + t) == TrimStart(t);
  }

  /** A parser complaint of the form `Expecting ... got ...` is shown as `Syntax error`,
      on line 1 when it names no line. */
  lemma ExpectingMessageExample()
    ensures ParseDiagnostics(Rejected("Expecting X got Y")) == [Diagnostic(1, 1, "Syntax error", Error)]
  {
    var m := "Expecting X got Y";
    ExpectingMessageIsUnknown();
    NoLineReferenceWithoutL(m);
    ExpectingMessageMatch();
    WholeExpectingLine(m);
  }

  // ---------------------------------------------------------------------
  // A clean flowchart

  lemma ValidArrowLineIsChecked()
    ensures !Skipped("  A-->B")
  {
    assert Spaces(2) + "A-->B" == "  A-->B";
    TrimAfterSpaces(2, "A-->B");
    TrimTrimmed("A-->B");
  }

  lemma ValidArrowLineFacts()
    ensures !HasInvalidFlowchartArrow("  A-->B") && !HasSequenceArrows("  A-->B")
  {
    var line := "  A-->B";
    assert OccursAt(line, ValidArrows[0], 3);
    MismatchAt(line, "->>", 0, 0); MismatchAt(line, "->>", 1, 0); MismatchAt(line, "->>", 2, 0);
    MismatchAt(line, "->>", 3, 1); MismatchAt(line, "->>", 4, 2);
    MismatchAt(line, "-->>", 0, 0); MismatchAt(line, "-->>", 1, 0); MismatchAt(line, "-->>", 2, 0);
    MismatchAt(line, "-->>", 3, 3);
  }

  lemma ValidArrowLineHasNoBrackets()
    ensures !Mismatched("  A-->B", '[', ']') && !Mismatched("  A-->B", '{', '}')
  {
    assert '[' !in "  A-->B" && '{' !in "  A-->B";
  }

  /** The line `  A-->B` of a flowchart draws no diagnostic. */
  lemma ValidArrowLine()
    ensures LineDiagnostics(Flowchart, "  A-->B", 2) == []
  {
    ValidArrowLineIsChecked();
    ValidArrowLineFacts();
    ValidArrowLineHasNoBrackets();
  }

  /** A flowchart with a valid arrow, accepted by the renderer, gets no diagnostics. */
  lemma CleanFlowchartExample()
    ensures Validation("graph TD\n  A-->B", Accepted) == []
  {
    var code := "graph TD\n  A-->B";
    assert code == "graph TD\n" + "  A-->B";
    TwoLineFlowchart("  A-->B");
    GraphHeaderIsClean();
    ValidArrowLine();
    AcceptedTwoLineText(code, Flowchart, "graph TD", "  A-->B", []);
  }

  // ---------------------------------------------------------------------
  // A sequence diagram

  /** `sequenceDiagram` is a sequence-diagram header. */
  lemma ClassifySequenceHeader()
    ensures Classify("sequenceDiagram") == Sequence
  {
    assert Lower("sequenceDiagram") == "sequencediagram";
    assert OccursAt("sequencediagram", "sequencediagram", 0);
  }

  lemma SequenceHeaderHasNoBrackets()
    ensures !Mismatched("sequenceDiagram", '[', ']') && !Mismatched("sequenceDiagram", '{', '}')
  {
    assert '[' !in "sequenceDiagram" && '{' !in "sequenceDiagram";
  }

  lemma SequenceMessageHasNoBrackets()
    ensures !Mismatched("  A->>B", '[', ']') && !Mismatched("  A->>B", '{', '}')
  {
    assert '[' !in "  A->>B" && '{' !in "  A->>B";
  }

  /** In a sequence diagram the header draws no diagnostic. */
  lemma SequenceHeaderIsClean()
    ensures LineDiagnostics(Sequence, "sequenceDiagram", 1) == []
  {
    SequenceHeaderHasNoBrackets();
  }

  /** In a sequence diagram a `->>` message line draws no diagnostic. */
  lemma SequenceMessageIsClean()
    ensures LineDiagnostics(Sequence, "  A->>B", 2) == []
  {
    SequenceMessageHasNoBrackets();
  }

  /** `->>` in a sequence diagram is not reported. */
  lemma SequenceDiagramExample()
    ensures Validation("sequenceDiagram\n  A->>B", Accepted) == []
  {
    var code := "sequenceDiagram\n  A->>B";
    assert code == "sequenceDiagram" + "\n" + "  A->>B";
    TwoLineText("sequenceDiagram", "  A->>B");
    ClassifySequenceHeader();
    SequenceHeaderIsClean();
    SequenceMessageIsClean();
    AcceptedTwoLineText(code, Sequence, "sequenceDiagram", "  A->>B", []);
  }

  // ---------------------------------------------------------------------
  // A parse error that names its line

  const ErrorHead := "Parse error on line 2:"
  const ErrorRest := "\nExpecting X got Z"
  const LineTwoError := ErrorHead + ErrorRest

  /** A letter absent from a text in both cases is absent from its lower-cased form. */
  lemma LowerAvoids(s: string, c: char)
    requires 'a' <= c <= 'z' && c !in s && (c as int - 32) as char !in s
    ensures c !in Lower(s)
  {
    forall i | 0 <= i < |s| ensures Lower(s)[i] != c {
      assert s[i] != c;
    }
  }

  lemma HeadAvoidsW()
    ensures 'w' !in ErrorHead && 'W' !in ErrorHead
  {
  }

  lemma HeadAvoidsB()
    ensures 'b' !in ErrorHead && 'B' !in ErrorHead
  {
  }

  lemma HeadAvoidsY()
    ensures 'y' !in ErrorHead && 'Y' !in ErrorHead
  {
  }

  lemma RestAvoids()
    ensures 'w' !in ErrorRest && 'W' !in ErrorRest
    ensures 'b' !in ErrorRest && 'B' !in ErrorRest
    ensures 'y' !in ErrorRest && 'Y' !in ErrorRest
  {
  }

  lemma LineTwoErrorIsUnknown()
    ensures !IsKnownValidationIssue(LineTwoError)
  {
    var m := LineTwoError;
    HeadAvoidsW();
    HeadAvoidsB();
    HeadAvoidsY();
    RestAvoids();
    LowerAvoids(m, 'w');
    LowerAvoids(m, 'b');
    LowerAvoids(m, 'y');
    NotContainsByChar(Lower(m), "arrow", 'w');
    NotContainsByChar(Lower(m), "bracket", 'b');
    NotContainsByChar(Lower(m), "syntax", 'y');
  }

  lemma HeadFacts()
    ensures LineTwoError[..22] == ErrorHead && LineTwoError[22..] == ErrorRest
    ensures LineTwoError[15..20] == "line " && LineTwoError[..20] == "Parse error on line "
    ensures LineTwoError[20] == '2' && LineTwoError[21] == ':'
    ensures 'l' !in LineTwoError[..15] && 'L' !in LineTwoError[..15]
  {
    var m := LineTwoError;
    assert m[..22] == ErrorHead && m[22..] == ErrorRest;
    assert m[15..20] == ErrorHead[15..20];
    assert m[..20] == ErrorHead[..20];
    assert m[..15] == ErrorHead[..15] == "Parse error on ";
  }

  /** The first `line <digit>` is the one at offset 15, and it names line 2. */
  lemma LineTwoErrorLine()
    ensures ReportedLine(LineTwoError) == 2
  {
    var m := LineTwoError;
    HeadFacts();
    assert Lower(m[15..20]) == "line ";
    assert LineReferenceAt(m, 15);
    forall j | 0 <= j < 15
      ensures !LineReferenceAt(m, j)
    {
      assert m[..15][j] == m[j];
      assert Lower(m[j..j + 5])[0] == LowerChar(m[j]);
    }
    assert FindLineReference(m, 0) == Some(15);
    assert DigitRun(m, 21) == 0;
    assert DigitRun(m, 20) == 1;
    assert m[20..21] == "2";
    assert DecimalValue("2") == 2 by { assert "2"[..0] == []; }
  }

  /** The prefix `Parse error on line 2:` is cut out. */
  lemma LineTwoErrorPrefix()
    ensures RemoveParsePrefix(LineTwoError) == ErrorRest
  {
    var m := LineTwoError;
    HeadFacts();
    assert Lower(m[0..20]) == "parse error on line ";
    assert DigitRun(m, 21) == 0;
    assert DigitRun(m, 20) == 1;
    assert ParsePrefixAt(m, 0);
    assert m[..0] + m[22..] == ErrorRest;
  }

  lemma RestGot()
    ensures FindFromIgnoringCase(ErrorRest, " got ", 11) == Some(12)
  {
    var r := ErrorRest;
    assert Lower(r[12..17]) == " got ";
    assert Lower(r[11..16])[0] == 'x';
  }

  lemma RestLineEnd()
    ensures LineEnd(ErrorRest, 11) == 18
  {
    var r := ErrorRest;
    assert forall j :: 11 <= j < 18 ==> !IsLineTerminator(r[j]);
  }

  /** The match starts after the line break and runs to the end of the text. */
  lemma RestExpectingMatch()
    ensures FindExpecting(ErrorRest, 0) == Some(1) && LineEnd(ErrorRest, 11) == 18
  {
    var r := ErrorRest;
    assert Lower(r[1..11]) == "expecting ";
    RestGot();
    RestLineEnd();
    assert ExpectingAt(r, 1);
    assert Lower(r[0..10])[0] == '\n';
  }

  /** The `Expecting ... got ...` after the line break becomes `Syntax error`. */
  lemma RestExpecting()
    ensures ReplaceExpecting(ErrorRest) == "\nSyntax error"
  {
    var r := ErrorRest;
    RestExpectingMatch();
    assert r[..1] + "Syntax error" + r[18..] == "\nSyntax error";
  }

  /** The cleaned message is `Syntax error`. */
  lemma LineTwoErrorCleaned()
    ensures CleanErrorMessage(LineTwoError) == "Syntax error"
  {
    LineTwoErrorPrefix();
    RestExpecting();
    BrokenSyntaxErrorTrimmed();
  }

  /** A parse error naming line 2 is reported on line 2, with the prefix removed
      and the parser's expectation shown as `Syntax error`. */
  lemma LineTwoErrorExample()
    ensures ParseDiagnostics(Rejected(LineTwoError)) == [Diagnostic(2, 1, "Syntax error", Error)]
  {
    LineTwoErrorIsUnknown();
    LineTwoErrorLine();
    LineTwoErrorCleaned();
  }
}
