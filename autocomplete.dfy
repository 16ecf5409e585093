/**
 * Suggestions for the Mermaid editor: one of four constant pools of items is
 * chosen from the text before the cursor, filtered by the word being typed
 * and cut to ten items.
 */
module MermaidAutoComplete {
  import opened Text

  /** The `kind` strings the pools use. */
  datatype ItemKind = Keyword | Snippet | Operator

  /** An `AutoCompleteItem`; `caption` is its `label` field (a reserved word here). */
  datatype Item = Item(caption: string, kind: ItemKind, insertText: string, documentation: string)

  /** The diagram declarations, offered on a blank line. */
  const Declarations: seq<Item> := [
    Item("graph TD", Keyword, "graph TD\n    A[Start] --> B[Process]\n    B --> C[End]", "Top-down flowchart"),
    Item("graph LR", Keyword, "graph LR\n    A[Start] --> B[Process]\n    B --> C[End]", "Left-to-right flowchart"),
    Item("sequenceDiagram", Keyword, "sequenceDiagram\n    participant A\n    participant B\n    A->>B: Message", "Sequence diagram"),
    Item("classDiagram", Keyword, "classDiagram\n    class Animal {\n        +String name\n        +makeSound()\n    }", "Class diagram"),
    Item("stateDiagram-v2", Keyword, "stateDiagram-v2\n    [*] --> State1\n    State1 --> State2\n    State2 --> [*]", "State diagram"),
    Item("erDiagram", Keyword, "erDiagram\n    CUSTOMER {\n        string name\n        string email\n    }\n    ORDER {\n        int id\n        date created\n    }\n    CUSTOMER ||--o{ ORDER : places", "Entity relationship diagram")
  ]

  const Shapes: seq<Item> := [
    Item("A[Rectangle]", Snippet, "A[${1:Text}]", "Rectangle node"),
    Item("A(Round)", Snippet, "A(${1:Text})", "Round node"),
    Item("A{Diamond}", Snippet, "A{${1:Text}}", "Diamond node"),
    Item("A((Circle))", Snippet, "A((${1:Text}))", "Circle node"),
    Item("A>Flag]", Snippet, "A>${1:Text}]", "Flag node"),
    Item("A[[Subroutine]]", Snippet, "A[[${1:Text}]]", "Subroutine node")
  ]

  const Arrows: seq<Item> := [
    Item("-->", Operator, "-->", "Arrow"),
    Item("---", Operator, "---", "Line"),
    Item("-.->", Operator, "-.->", "Dotted arrow"),
    Item("==>", Operator, "==>", "Thick arrow"),
    Item("--x", Operator, "--x", "Arrow with cross"),
    Item("--o", Operator, "--o", "Arrow with circle")
  ]

  const Styles: seq<Item> := [
    Item("style", Keyword, "style ${1:nodeId} fill:${2:#f9f9f9},stroke:${3:#333},stroke-width:${4:2px}", "Style a node"),
    Item("classDef", Keyword, "classDef ${1:className} fill:${2:#f9f9f9},stroke:${3:#333},stroke-width:${4:2px}", "Define a CSS class"),
    Item("class", Keyword, "class ${1:nodeId} ${2:className}", "Apply class to node")
  ]

  /** At most this many suggestions are returned. */
  const Limit: nat := 10

  // ---------------------------------------------------------------------
  // The text before the cursor

  /** The end index `substring(0, cursor)` uses: the cursor clamped into the text. */
  function Clamp(cursor: int, n: nat): (c: nat)
    ensures c <= n
    ensures 0 <= cursor <= n ==> c == cursor
    ensures cursor < 0 ==> c == 0
    ensures cursor > n ==> c == n
  {
    if cursor < 0 then 0 else if cursor > n then n else cursor
  }

  function Last<T>(s: seq<T>): T
    requires |s| > 0
  {
    s[|s| - 1]
  }

  /** `beforeCursor.split('\n').pop()`: the line the cursor is on, up to the cursor. */
  function CurrentLine(before: string): string {
    Last(Split(before, '\n'))
  }

  /** The current line is what follows the last line break. */
  lemma {:induction false} CurrentLineIsSuffix(before: string)
    ensures |CurrentLine(before)| <= |before|
    ensures CurrentLine(before) == before[|before| - |CurrentLine(before)|..]
    ensures '\n' !in CurrentLine(before)
    ensures |CurrentLine(before)| < |before| ==> before[|before| - |CurrentLine(before)| - 1] == '\n'
    decreases |before|
  {
    if |before| > 0 {
      var t := before[1..];
      CurrentLineIsSuffix(t);
      CurrentLineStep(before);
      var line := CurrentLine(t);
      if CurrentLine(before) == line {
        if |line| == |t| {
          assert line == t;
          if before[0] != '\n' {
            SplitSingle(t, '\n');
          }
        }
        SuffixOfTail(before, |line|);
      }
    }
  }

  /** Dropping the first character keeps the current line, unless the whole text is one line. */
  lemma CurrentLineStep(before: string)
    requires |before| > 0
    ensures var rest := Split(before[1..], '\n');
      if before[0] == '\n' || |rest| > 1 then CurrentLine(before) == CurrentLine(before[1..])
      else CurrentLine(before) == before && '\n' !in before
  {
    var t := before[1..];
    var rest := Split(t, '\n');
    if before[0] == '\n' {
      LastAfter([], rest);
    } else if |rest| > 1 {
      LastAfter([before[0]] + rest[0], rest[1..]);
      LastAfter(rest[0], rest[1..]);
      HeadTail(rest);
    } else {
      JoinSplit(t, '\n');
      assert Split(before, '\n') == [[before[0]] + rest[0]];
      HeadTail(before);
    }
  }

  lemma LastAfter<T>(x: T, s: seq<T>)
    requires |s| > 0
    ensures Last([x] + s) == Last(s)
  {
  }

  lemma HeadTail<T>(s: seq<T>)
    requires |s| > 0
    ensures s == [s[0]] + s[1..]
  {
  }

  lemma SuffixOfTail<T>(s: seq<T>, n: nat)
    requires n < |s|
    ensures s[|s| - n..] == s[1..][|s| - 1 - n..]
  {
  }

  /** After a line break, the current line is the text typed since. */
  lemma CurrentLineAfterBreak(s: string, t: string)
    requires '\n' !in t
    ensures CurrentLine(s + "\n" + t) == t
  {
    var b := s + "\n" + t;
    CurrentLineIsSuffix(b);
    assert b[|s|] == '\n';
    assert b[|b| - |t|..] == t;
  }

  /** The last element of `split(/\s+/)`: the text after the last whitespace character. */
  function LastWord(t: string): (w: string)
    ensures |w| <= |t| && w == t[|t| - |w|..]
    ensures NoWhitespace(w)
    ensures |w| < |t| ==> IsWhitespace(t[|t| - |w| - 1])
    decreases |t|
  {
    if |t| == 0 || IsWhitespace(t[|t| - 1]) then []
    else LastWord(t[..|t| - 1]) + [t[|t| - 1]]
  }

  /** `/^[A-Za-z0-9]+$/` */
  predicate IsIdentifier(w: string) {
    |w| > 0 && forall i :: 0 <= i < |w| ==> IsAlnum(w[i])
  }

  // ---------------------------------------------------------------------
  // Choosing a pool

  datatype PoolChoice = DeclarationPool | ArrowPool | GraphPool | StylePool | AllPools

  /** The word being typed: the last word of the trimmed current line. */
  function Word(before: string): string {
    LastWord(Trim(CurrentLine(before)))
  }

  /** At the beginning of the document or of a line. */
  predicate Blank(before: string) {
    Trim(before) == [] || Trim(CurrentLine(before)) == []
  }

  /** A bare identifier typed on a line with no `-->` yet. */
  predicate AfterIdentifier(before: string) {
    IsIdentifier(Word(before)) && !Contains(CurrentLine(before), "-->")
  }

  /** A `graph` declaration somewhere before, and no `style` on this line. */
  predicate InGraph(before: string) {
    Contains(before, "graph") && !Contains(CurrentLine(before), "style")
  }

  /** A `style` statement on this line, or `style` as the word being typed. */
  predicate InStyle(before: string) {
    Contains(CurrentLine(before), "style") || Word(before) == "style"
  }

  /** The first condition that holds wins. */
  function FirstChoice(blank: bool, arrows: bool, graph: bool, style: bool): PoolChoice {
    if blank then DeclarationPool
    else if arrows then ArrowPool
    else if graph then GraphPool
    else if style then StylePool
    else AllPools
  }

  /** The branches of `getSuggestions`, in order. */
  function Choose(before: string): PoolChoice {
    FirstChoice(Blank(before), AfterIdentifier(before), InGraph(before), InStyle(before))
  }

  // ---------------------------------------------------------------------
  // Filtering and truncation

  /** `a` is `b` with some items dropped, the rest kept in order. */
  predicate IsSubsequence<T(==)>(a: seq<T>, b: seq<T>)
    decreases |b|
  {
    if |a| == 0 then true
    else if |b| == 0 then false
    else if a[0] == b[0] then IsSubsequence(a[1..], b[1..])
    else IsSubsequence(a, b[1..])
  }

  lemma {:induction false} SubsequenceOfItself<T>(a: seq<T>)
    ensures IsSubsequence(a, a)
    decreases |a|
  {
    if |a| > 0 {
      SubsequenceOfItself(a[1..]);
    }
  }

  lemma {:induction false} PrefixIsSubsequence<T>(a: seq<T>, b: seq<T>, n: nat)
    requires n <= |a| && IsSubsequence(a, b)
    ensures IsSubsequence(a[..n], b)
    decreases |b|
  {
    if n > 0 {
      assert a[..n][1..] == a[1..][..n - 1];
      if a[0] == b[0] {
        PrefixIsSubsequence(a[1..], b[1..], n - 1);
      } else {
        PrefixIsSubsequence(a, b[1..], n);
      }
    }
  }

  /** `item.label.toLowerCase().includes(word.toLowerCase())` */
  predicate LabelMatches(item: Item, w: string) {
    Contains(Lower(item.caption), Lower(w))
  }

  /** `items.filter(item => LabelMatches(item, w))` */
  function Matching(items: seq<Item>, w: string): (r: seq<Item>)
    ensures IsSubsequence(r, items)
    ensures forall i :: 0 <= i < |r| ==> LabelMatches(r[i], w)
    ensures forall x :: x in items && LabelMatches(x, w) ==> x in r
    ensures forall x :: x in r ==> x in items
  {
    if |items| == 0 then []
    else if LabelMatches(items[0], w) then [items[0]] + Matching(items[1..], w)
    else Matching(items[1..], w)
  }

  /** The filter keeps every matching item as often as the pool holds it, and no other. */
  lemma {:induction false} MatchingCounts(items: seq<Item>, w: string)
    ensures forall x :: multiset(Matching(items, w))[x] == if LabelMatches(x, w) then multiset(items)[x] else 0
  {
    if |items| > 0 {
      MatchingCounts(items[1..], w);
      MultisetCons(items);
      var rest := Matching(items[1..], w);
      if LabelMatches(items[0], w) {
        MultisetCons([items[0]] + rest);
        assert ([items[0]] + rest)[1..] == rest;
      }
    }
  }

  lemma MultisetCons<T>(s: seq<T>)
    requires |s| > 0
    ensures multiset(s) == multiset{s[0]} + multiset(s[1..])
  {
    assert s == [s[0]] + s[1..];
  }

  /** `slice(0, Limit)` */
  function Take(items: seq<Item>): seq<Item> {
    if |items| <= Limit then items else items[..Limit]
  }

  lemma TakeIsSubsequence(a: seq<Item>, b: seq<Item>)
    requires IsSubsequence(a, b)
    ensures IsSubsequence(Take(a), b)
  {
    if |a| > Limit {
      PrefixIsSubsequence(a, b, Limit);
    }
  }

  /** The filter, applied only when a word is typed, then the cut: the first
      `min(Limit, n)` of the `n` qualifying items, in pool order. */
  function Select(pool: seq<Item>, w: string): (r: seq<Item>)
    ensures |r| <= Limit
    ensures IsSubsequence(r, pool)
    ensures w != [] ==> forall i :: 0 <= i < |r| ==> LabelMatches(r[i], w)
    ensures var f := if w != [] then Matching(pool, w) else pool;
      |r| == (if |f| <= Limit then |f| else Limit) && r == f[..|r|]
  {
    var filtered := if w != [] then Matching(pool, w) else pool;
    SubsequenceOfItself(pool);
    TakeIsSubsequence(filtered, pool);
    Take(filtered)
  }

  /** With no word typed, a pool that fits comes back whole. */
  lemma SelectAll(pool: seq<Item>)
    requires |pool| <= Limit
    ensures Select(pool, []) == pool
  {
  }

  /** With a word typed and at most ten matches, exactly the matches come back. */
  lemma SelectFew(pool: seq<Item>, w: string)
    ensures w != [] && |Matching(pool, w)| <= Limit ==> Select(pool, w) == Matching(pool, w)
  {
  }

  // ---------------------------------------------------------------------
  // The instance

  /** A `MermaidAutoComplete` object: its four pool fields and `getSuggestions`. */
  datatype AutoComplete = AutoComplete(flowchart: seq<Item>, shapes: seq<Item>, arrows: seq<Item>, styles: seq<Item>)
  {
    function PoolOf(c: PoolChoice): seq<Item> {
      match c
      case DeclarationPool => flowchart
      case ArrowPool => arrows
      case GraphPool => shapes + arrows
      case StylePool => styles
      case AllPools => flowchart + shapes + arrows + styles
    }

    /** The suggestions for the text before the cursor. */
    function Suggest(before: string): (r: seq<Item>)
      ensures |r| <= Limit
      ensures IsSubsequence(r, PoolOf(Choose(before)))
      ensures Word(before) != [] ==> forall i :: 0 <= i < |r| ==> LabelMatches(r[i], Word(before))
      ensures var pool, w := PoolOf(Choose(before)), Word(before);
        var f := if w != [] then Matching(pool, w) else pool;
        |r| == (if |f| <= Limit then |f| else Limit) && r == f[..|r|]
    {
      Select(PoolOf(Choose(before)), Word(before))
    }

    /** `getSuggestions(text, cursorPosition)` */
    function GetSuggestions(text: string, cursor: int): (r: seq<Item>)
      ensures |r| <= Limit
    {
      Suggest(text[..Clamp(cursor, |text|)])
    }
  }

  /** The shared instance `mermaidAutoComplete`, its pools as the class initialises them. */
  const Instance: AutoComplete := AutoComplete(Declarations, Shapes, Arrows, Styles)

  /** The labels of the arrow pool, in order. */
  predicate ArrowCaptions(a: seq<Item>) {
    && |a| == 6
    && a[0].caption == "-->" && a[1].caption == "---" && a[2].caption == "-.->"
    && a[3].caption == "==>" && a[4].caption == ['-', '-', 'x'] && a[5].caption == ['-', '-', 'o']
  }

  lemma InstancePools()
    ensures Instance.flowchart == Declarations && |Declarations| == 6
    ensures forall i :: 0 <= i < |Declarations| ==> Declarations[i].kind == Keyword
    ensures ArrowCaptions(Instance.arrows)
  {
  }

  // ---------------------------------------------------------------------
  // Properties

  /** Nothing is lost to the filter or to the cut unless more than ten items match. */
  lemma SuggestComplete(ac: AutoComplete, before: string)
    ensures var pool := ac.PoolOf(Choose(before));
      Word(before) == [] && |pool| <= Limit ==> ac.Suggest(before) == pool
    ensures var pool := ac.PoolOf(Choose(before));
      Word(before) != [] && |Matching(pool, Word(before))| <= Limit ==>
        forall x :: x in pool && LabelMatches(x, Word(before)) ==> x in ac.Suggest(before)
  {
    var pool := ac.PoolOf(Choose(before));
    if Word(before) == [] && |pool| <= Limit {
      SelectAll(pool);
    }
    SelectFew(pool, Word(before));
  }

  /** Blank input leaves nothing to filter by. */
  lemma BlankHasNoWord(before: string)
    requires Blank(before)
    ensures Trim(CurrentLine(before)) == [] && Word(before) == []
  {
    var line := CurrentLine(before);
    CurrentLineIsSuffix(before);
    SuffixWhitespace(before, line);
  }

  lemma SuffixWhitespace(s: string, t: string)
    requires |t| <= |s| && t == s[|s| - |t|..]
    ensures AllWhitespace(s) ==> AllWhitespace(t)
  {
    if AllWhitespace(s) {
      forall i | 0 <= i < |t| ensures IsWhitespace(t[i]) {
        assert t[i] == s[|s| - |t| + i];
      }
    }
  }

  /** On a blank line, or before any text, the declaration pool comes back unfiltered. */
  lemma BlankSuggestsFlowchart(ac: AutoComplete, before: string)
    ensures Blank(before) && |ac.flowchart| <= Limit ==> ac.Suggest(before) == ac.flowchart
  {
    if Blank(before) && |ac.flowchart| <= Limit {
      BlankHasNoWord(before);
      SelectAll(ac.flowchart);
    }
  }

  /** For the shared instance: the six declarations, in their declared order. */
  lemma BlankSuggestsDeclarations(text: string, cursor: int)
    ensures Blank(text[..Clamp(cursor, |text|)]) ==> Instance.GetSuggestions(text, cursor) == Declarations
  {
    InstancePools();
    BlankSuggestsFlowchart(Instance, text[..Clamp(cursor, |text|)]);
  }

  /** Right after the header line and its line break, the declarations come back:
      the text before cursor 9 of `graph TD\nA` ends in the line break. */
  lemma CursorAfterHeader()
    ensures Instance.GetSuggestions("graph TD\nA", 9) == Declarations
  {
    var text := "graph TD\nA";
    assert text[..9] == "graph TD" + "\n" + [];
    CurrentLineAfterBreak("graph TD", []);
    BlankSuggestsDeclarations(text, 9);
  }

  /** The word being typed is part of the current line. */
  lemma WordOnLine(before: string)
    ensures Word(before) != [] ==> Contains(CurrentLine(before), Word(before))
  {
    var line := CurrentLine(before);
    var a := TrimSlice(line);
    SuffixOccurs(line, a, Trim(line), Word(before));
  }

  lemma SuffixOccurs(line: string, a: nat, t: string, w: string)
    requires a + |t| <= |line| && t == line[a..a + |t|]
    requires |w| <= |t| && w == t[|t| - |w|..]
    ensures OccursAt(line, w, a + |t| - |w|) && Contains(line, w)
  {
    assert line[a + |t| - |w|..a + |t|] == t[|t| - |w|..];
    assert OccursAt(line, w, a + |t| - |w|);
  }

  /** The priority among the pools. The second half of the `style` condition never
      decides: a last word `style` already puts `style` on the line. */
  lemma ChoicePriority(before: string)
    ensures var line := CurrentLine(before);
      var arrows := IsIdentifier(Word(before)) && !Contains(line, "-->");
      var graph := Contains(before, "graph") && !Contains(line, "style");
      && (Choose(before) == DeclarationPool <==> Blank(before))
      && (Choose(before) == ArrowPool <==> !Blank(before) && arrows)
      && (Choose(before) == GraphPool <==> !Blank(before) && !arrows && graph)
      && (Choose(before) == StylePool <==> !Blank(before) && !arrows && !graph && Contains(line, "style"))
      && (Choose(before) == AllPools <==> !Blank(before) && !arrows && !graph && !Contains(line, "style"))
  {
    StyleOnLine(before);
    FirstChoiceCases(Blank(before), AfterIdentifier(before), InGraph(before), InStyle(before));
  }

  lemma StyleOnLine(before: string)
    ensures InStyle(before) <==> Contains(CurrentLine(before), "style")
  {
    WordOnLine(before);
  }

  lemma FirstChoiceCases(blank: bool, arrows: bool, graph: bool, style: bool)
    ensures var c := FirstChoice(blank, arrows, graph, style);
      && (c == DeclarationPool <==> blank)
      && (c == ArrowPool <==> !blank && arrows)
      && (c == GraphPool <==> !blank && !arrows && graph)
      && (c == StylePool <==> !blank && !arrows && !graph && style)
      && (c == AllPools <==> !blank && !arrows && !graph && !style)
  {
  }

  /** Text at or after the cursor never matters. */
  lemma AfterCursorIrrelevant(ac: AutoComplete, text: string, more: string, cursor: int)
    ensures ac.GetSuggestions(text + more, Clamp(cursor, |text|)) == ac.GetSuggestions(text, cursor)
    ensures 0 <= cursor <= |text| ==> ac.GetSuggestions(text + more, cursor) == ac.GetSuggestions(text, cursor)
  {
    var c := Clamp(cursor, |text|);
    assert (text + more)[..c] == text[..c];
  }

  // ---------------------------------------------------------------------
  // After a bare identifier

  /** A label without letters or digits contains no identifier. */
  lemma NoIdentifierInSymbols(s: string, q: string)
    requires forall i :: 0 <= i < |s| ==> !IsAlnum(s[i])
    requires IsIdentifier(q)
    ensures !Contains(s, q)
  {
    forall i | 0 <= i
      ensures !OccursAt(s, q, i)
    {
      MismatchAt(s, q, i, 0);
    }
  }

  /** In `--c` an identifier can occur only as `c` itself. */
  lemma IdentifierInTail(c: char, q: string)
    requires IsIdentifier(q)
    ensures Contains(['-', '-', c], q) ==> q == [c]
  {
    var s := ['-', '-', c];
    forall i | 0 <= i < 2
      ensures !OccursAt(s, q, i)
    {
      MismatchAt(s, q, i, 0);
    }
    if Contains(s, q) {
      var i :| 0 <= i <= |s| - |q| && OccursAt(s, q, i);
      assert q == s[2..3];
    }
  }

  lemma LowerIdentifier(w: string)
    requires IsIdentifier(w)
    ensures IsIdentifier(Lower(w))
  {
  }

  lemma LowerOfSymbols(s: string)
    requires forall i :: 0 <= i < |s| ==> !('A' <= s[i] <= 'Z')
    ensures Lower(s) == s
  {
  }

  lemma {:induction false} MatchingAppend(a: seq<Item>, b: seq<Item>, w: string)
    ensures Matching(a + b, w) == Matching(a, w) + Matching(b, w)
  {
    if |a| == 0 {
      assert a + b == b;
    } else {
      assert (a + b)[0] == a[0] && (a + b)[1..] == a[1..] + b;
      MatchingAppend(a[1..], b, w);
    }
  }

  lemma {:induction false} MatchingNone(a: seq<Item>, w: string)
    requires forall k :: 0 <= k < |a| ==> !LabelMatches(a[k], w)
    ensures Matching(a, w) == []
  {
    if |a| > 0 {
      MatchingNone(a[1..], w);
    }
  }

  /** Dropping `k` leading items that do not match changes nothing. */
  lemma {:induction false} MatchingFrom(items: seq<Item>, w: string, k: nat)
    requires k <= |items|
    requires forall j :: 0 <= j < k ==> !LabelMatches(items[j], w)
    ensures Matching(items, w) == Matching(items[k..], w)
  {
    if k > 0 {
      MatchingFrom(items[1..], w, k - 1);
      DropDrop(items, k);
    }
  }

  lemma DropDrop<T>(s: seq<T>, k: nat)
    requires 0 < k <= |s|
    ensures s[1..][k - 1..] == s[k..]
  {
  }

  lemma PairParts<T>(s: seq<T>)
    requires |s| == 2
    ensures s[1..][0] == s[1] && |s[1..][1..]| == 0
  {
  }

  /** The filter of a pair of items. */
  lemma MatchingPair(s: seq<Item>, w: string)
    requires |s| == 2
    ensures Matching(s, w) ==
      (if LabelMatches(s[0], w) then [s[0]] else []) + (if LabelMatches(s[1], w) then [s[1]] else [])
  {
    PairParts(s);
  }

  /** Six items of which only the last two may match. */
  lemma MatchingLastTwo(items: seq<Item>, w: string)
    requires |items| == 6
    requires forall k :: 0 <= k < 4 ==> !LabelMatches(items[k], w)
    ensures Matching(items, w) ==
      (if LabelMatches(items[4], w) then [items[4]] else []) + (if LabelMatches(items[5], w) then [items[5]] else [])
  {
    MatchingFrom(items, w, 4);
    MatchingPair(items[4..], w);
    assert items[4..][0] == items[4] && items[4..][1] == items[5];
  }

  lemma SymbolArrowsDoNotMatch(a: seq<Item>, w: string)
    requires ArrowCaptions(a) && IsIdentifier(w)
    ensures forall k :: 0 <= k < 4 ==> !LabelMatches(a[k], w)
  {
    LowerIdentifier(w);
    forall k | 0 <= k < 4
      ensures !LabelMatches(a[k], w)
    {
      LowerOfSymbols(a[k].caption);
      NoIdentifierInSymbols(a[k].caption, Lower(w));
    }
  }

  /** `--c` matches an identifier exactly when the identifier is `c` in either case. */
  lemma TailArrowMatches(item: Item, c: char, w: string)
    requires item.caption == ['-', '-', c] && 'a' <= c <= 'z'
    requires IsIdentifier(w)
    ensures LabelMatches(item, w) <==> Lower(w) == [c]
  {
    LowerIdentifier(w);
    LowerOfSymbols(item.caption);
    IdentifierInTail(c, Lower(w));
    if Lower(w) == [c] {
      assert OccursAt(item.caption, Lower(w), 2);
    }
  }

  /** Which arrow items an identifier picks out. */
  lemma ArrowsSelected(a: seq<Item>, w: string)
    requires ArrowCaptions(a) && IsIdentifier(w)
    ensures Select(a, w) ==
      if Lower(w) == "x" then [a[4]]
      else if Lower(w) == "o" then [a[5]]
      else []
  {
    SymbolArrowsDoNotMatch(a, w);
    MatchingLastTwo(a, w);
    TailArrowMatches(a[4], 'x', w);
    TailArrowMatches(a[5], 'o', w);
    SelectFew(a, w);
  }

  /** After a bare identifier the arrow pool is filtered by that identifier, so
      only `x` (the `--x` item) or `o` (the `--o` item) leave anything. */
  lemma ArrowsAfterIdentifier(ac: AutoComplete, before: string)
    requires ArrowCaptions(ac.arrows) && Choose(before) == ArrowPool
    ensures ac.Suggest(before) ==
      if Lower(Word(before)) == "x" then [ac.arrows[4]]
      else if Lower(Word(before)) == "o" then [ac.arrows[5]]
      else []
  {
    ChosenArrowsIdentifier(before);
    SuggestArrowPool(ac, before);
    ArrowsSelected(ac.arrows, Word(before));
  }

  lemma ChosenArrowsIdentifier(before: string)
    ensures Choose(before) == ArrowPool ==> IsIdentifier(Word(before))
  {
    FirstChoiceCases(Blank(before), AfterIdentifier(before), InGraph(before), InStyle(before));
  }

  lemma SuggestArrowPool(ac: AutoComplete, before: string)
    ensures Choose(before) == ArrowPool ==> ac.Suggest(before) == Select(ac.arrows, Word(before))
  {
  }
}
