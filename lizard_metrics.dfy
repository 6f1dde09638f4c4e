/**
  The lexical metric extractor of app/lizard_metrics.py (`analyze_with_lizard`):
  one file's text, plus the per-function figures the lizard library reports
  for it, become a fixed-shape metric record. Every count is a scan of the
  raw text with one of a fixed family of patterns, the same for every
  language.
 */
module LizardMetrics {
  import opened Wrappers
  import opened Text
  import opened PyStr
  import opened PyRegex
  import opened LanguageMap

  /**
    What lizard reports for one function: its cyclomatic complexity and, when
    the reported object carries one, its `max_nesting` attribute.
   */
  datatype FuncSummary = FuncSummary(cyclomaticComplexity: nat, maxNesting: Option<nat>)

  /** The metric record, one field per key of the dictionary the extractor returns. */
  datatype MetricSet = MetricSet(
    loc: nat, cbo: nat, wmc: nat, dit: nat, rfc: nat, lcom: nat,
    totalMethods: nat, totalFields: nat, nosi: nat,
    returnQty: nat, loopQty: nat, comparisonsQty: nat, tryCatchQty: nat,
    parenthesizedExpsQty: nat, stringLiteralsQty: nat, numbersQty: nat,
    assignmentsQty: nat, mathOperationsQty: nat, variablesQty: nat,
    maxNestedBlocks: nat, uniqueWordsQty: nat)

  /** The record as the dictionary the classifier reads. */
  function ToDict(m: MetricSet): (d: map<string, int>)
    ensures forall k :: k in d ==> d[k] >= 0
    ensures "loc" in d && d["loc"] == m.loc
  {
    map[
      "loc" := m.loc, "cbo" := m.cbo, "wmc" := m.wmc, "dit" := m.dit, "rfc" := m.rfc,
      "lcom" := m.lcom, "totalMethods" := m.totalMethods, "totalFields" := m.totalFields,
      "nosi" := m.nosi, "returnQty" := m.returnQty, "loopQty" := m.loopQty,
      "comparisonsQty" := m.comparisonsQty, "tryCatchQty" := m.tryCatchQty,
      "parenthesizedExpsQty" := m.parenthesizedExpsQty,
      "stringLiteralsQty" := m.stringLiteralsQty, "numbersQty" := m.numbersQty,
      "assignmentsQty" := m.assignmentsQty, "mathOperationsQty" := m.mathOperationsQty,
      "variablesQty" := m.variablesQty, "maxNestedBlocks" := m.maxNestedBlocks,
      "uniqueWordsQty" := m.uniqueWordsQty]
  }

  // ----- Lines -----

  /** `[line.strip() for line in content.split('\n')]`. */
  function StrippedLines(content: string): (lines: seq<string>)
    ensures |lines| == |Split(content, '\n')|
  {
    var parts := Split(content, '\n');
    seq(|parts|, k requires 0 <= k < |parts| => Strip(parts[k]))
  }

  /**
    Each line is its piece of `content` with the surrounding whitespace cut
    off: a slice of the piece, with nothing left to strip at either end.
   */
  lemma LinesAreStripped(content: string)
    ensures forall k :: 0 <= k < |StrippedLines(content)| ==>
      LStrip(StrippedLines(content)[k]) == StrippedLines(content)[k]
      && RStrip(StrippedLines(content)[k]) == StrippedLines(content)[k]
    ensures forall k :: 0 <= k < |StrippedLines(content)| ==>
      TrimmedSlice(StrippedLines(content)[k], Split(content, '\n')[k])
  {
    var parts := Split(content, '\n');
    var lines := StrippedLines(content);
    forall k | 0 <= k < |lines|
      ensures LStrip(lines[k]) == lines[k] && RStrip(lines[k]) == lines[k]
      ensures TrimmedSlice(lines[k], parts[k])
    {
      StripIsStripped(parts[k]);
      StripTrimsSpace(parts[k]);
    }
  }

  /** A stripped line that counts as code: not blank, not starting with a comment marker. */
  predicate IsCodeLine(line: string)
  {
    line != [] && !StartsWith(line, "//") && !StartsWith(line, "/*") && !StartsWith(line, "#")
  }

  /** Number of lines satisfying `IsCodeLine`. */
  function CountCodeLines(lines: seq<string>): nat
  {
    if lines == [] then 0
    else CountCodeLines(lines[..|lines| - 1]) + (if IsCodeLine(lines[|lines| - 1]) then 1 else 0)
  }

  /** Number of non-empty lines. */
  function CountNonBlank(lines: seq<string>): nat
  {
    if lines == [] then 0
    else CountNonBlank(lines[..|lines| - 1]) + (if lines[|lines| - 1] != [] then 1 else 0)
  }

  /** `actual_loc`. */
  function LinesOfCode(content: string): nat
  {
    CountCodeLines(StrippedLines(content))
  }

  lemma {:induction false} CodeLinesAtMostNonBlank(lines: seq<string>)
    ensures CountCodeLines(lines) <= CountNonBlank(lines) <= |lines|
  {
    if lines != [] {
      CodeLinesAtMostNonBlank(lines[..|lines| - 1]);
    }
  }

  /**
    The line count never exceeds the number of non-blank lines, nor the number
    of pieces `content.split('\n')` yields.
   */
  lemma LinesOfCodeBounds(content: string)
    ensures LinesOfCode(content) <= CountNonBlank(StrippedLines(content))
    ensures LinesOfCode(content) <= CountIn(content, {'\n'}) + 1
  {
    CodeLinesAtMostNonBlank(StrippedLines(content));
  }

  // ----- Indentation nesting -----

  /** `indent // 2` for one line: half its count of leading whitespace characters. */
  function IndentLevel(line: string): nat
  {
    (|line| - |LStrip(line)|) / 2
  }

  /** The list `indent_levels` the extractor builds from `lines`. */
  function IndentLevels(lines: seq<string>): seq<nat>
  {
    if lines == [] then []
    else
      var last := lines[|lines| - 1];
      IndentLevels(lines[..|lines| - 1]) + (if IsCodeLine(Strip(last)) then [IndentLevel(last)] else [])
  }

  /** `max(xs) if xs else 0`. */
  function MaxOrZero(xs: seq<nat>): (m: nat)
    ensures forall k :: 0 <= k < |xs| ==> xs[k] <= m
    ensures xs != [] ==> m in xs
    ensures xs == [] ==> m == 0
  {
    if xs == [] then 0
    else
      var rest := MaxOrZero(xs[1..]);
      if xs[1..] == [] || xs[0] >= rest then xs[0] else rest
  }

  /**
    The indentation-based nesting is always 0: it is measured on lines that
    were stripped already, so no line has leading whitespace left.
   */
  lemma {:induction false} IndentationNestingIsZero(content: string)
    ensures MaxOrZero(IndentLevels(StrippedLines(content))) == 0
  {
    var lines := StrippedLines(content);
    forall k | 0 <= k < |lines|
      ensures IndentLevel(lines[k]) == 0
    {
      StripIsStripped(Split(content, '\n')[k]);
    }
    AllZeroLevels(lines);
  }

  lemma {:induction false} AllZeroLevels(lines: seq<string>)
    requires forall k :: 0 <= k < |lines| ==> IndentLevel(lines[k]) == 0
    ensures forall k :: 0 <= k < |IndentLevels(lines)| ==> IndentLevels(lines)[k] == 0
  {
    if lines != [] {
      AllZeroLevels(lines[..|lines| - 1]);
    }
  }

  // ----- Pattern families -----

  const LoopPatterns: seq<Pattern> := [
    KeywordOpen("for", '('), KeywordOpen("while", '('), KeywordOpen("do", '{'),
    KeywordOpen("foreach", '('), ArrayMethodCall]

  const ComparisonPatterns: seq<Pattern> := [
    Keyword("if"), Keyword("else"), Keyword("switch"),
    Literal("=="), Literal("!="), Literal(">="), Literal("<="), Literal(">"), Literal("<")]

  const VariablePatterns: seq<Pattern> := [
    Keyword("var"), Keyword("let"), Keyword("const"), Keyword("int"),
    Keyword("float"), Keyword("double"), Keyword("string"), Keyword("bool")]

  /** `sum(len(re.findall(p, s)) for p in ps)`. */
  function SumCounts(ps: seq<Pattern>, s: string): nat
  {
    if ps == [] then 0 else FindAllCount(ps[0], s) + SumCounts(ps[1..], s)
  }

  /** `sum(s.count(op) for op in ['+', '-', '*', '/', '%'])`. */
  function MathOperations(s: string): nat
  {
    CountIn(s, {'+'}) + CountIn(s, {'-'}) + CountIn(s, {'*'}) + CountIn(s, {'/'}) + CountIn(s, {'%'})
  }

  // ----- Figures taken from lizard -----

  /** Sum of the per-function complexities. */
  function SumComplexity(funcs: seq<FuncSummary>): nat
  {
    if funcs == [] then 0 else funcs[0].cyclomaticComplexity + SumComplexity(funcs[1..])
  }

  /** Every function summary carries `max_nesting`. */
  predicate AllHaveNesting(funcs: seq<FuncSummary>)
  {
    forall k :: 0 <= k < |funcs| ==> funcs[k].maxNesting.Some?
  }

  /** `max(f.max_nesting for f in funcs)` when every summary has the attribute. */
  function MaxNesting(funcs: seq<FuncSummary>): nat
    requires AllHaveNesting(funcs)
  {
    if funcs == [] then 0
    else
      var rest := MaxNesting(funcs[1..]);
      if funcs[0].maxNesting.value >= rest then funcs[0].maxNesting.value else rest
  }

  /**
    The first summary has `max_nesting` but a later one does not: computing
    the maximum raises AttributeError, which is caught and resets `cc_sum`
    to 0.
   */
  predicate NestingAttributeError(funcs: seq<FuncSummary>)
  {
    funcs != [] && funcs[0].maxNesting.Some? && !AllHaveNesting(funcs)
  }

  /** `rfc`: `cc_sum` when it was bound (some function was found), else the return count. */
  function ResponseForClass(funcs: seq<FuncSummary>, returnCount: nat): nat
  {
    if funcs == [] then returnCount
    else if NestingAttributeError(funcs) then 0
    else SumComplexity(funcs)
  }

  /** `max_nesting_level` after lizard's figures have been taken into account. */
  function NestingWithLizard(indentMax: nat, funcs: seq<FuncSummary>): nat
  {
    if funcs != [] && funcs[0].maxNesting.Some? && AllHaveNesting(funcs) then
      (if indentMax >= MaxNesting(funcs) then indentMax else MaxNesting(funcs))
    else indentMax
  }

  // ----- The extractor -----

  /** The metrics the extractor reports, once the language is known and lizard has run. */
  function Measure(content: string, funcs: seq<FuncSummary>, indentMax: nat): MetricSet
  {
    var returnCount := FindAllCount(Keyword("return"), content);
    MetricSet(
      loc := LinesOfCode(content),
      cbo := 0,
      wmc := |funcs|,
      dit := 0,
      rfc := ResponseForClass(funcs, returnCount),
      lcom := 0,
      totalMethods := |funcs|,
      totalFields := 0,
      nosi := 0,
      returnQty := returnCount,
      loopQty := SumCounts(LoopPatterns, content),
      comparisonsQty := SumCounts(ComparisonPatterns, content),
      tryCatchQty := FindAllCount(Keyword("try"), content),
      parenthesizedExpsQty := CountIn(content, {'('}),
      stringLiteralsQty := FindAllCount(AnyOf({'"', '\''}), content) / 2,
      numbersQty := FindAllCount(WholeNumber, content),
      assignmentsQty := FindAllCount(Assignment, content),
      mathOperationsQty := MathOperations(content),
      variablesQty := SumCounts(VariablePatterns, content),
      maxNestedBlocks := NestingWithLizard(indentMax, funcs),
      uniqueWordsQty := |set t | t in Tokens(content)|)
  }

  /**
    `analyze_with_lizard(path)` for a file whose text is `content`. `lizard`
    is what reading the file and `lizard.analyze_file` produce: the function
    list, or None when either raised (the extractor then reports nothing).
   */
  function Extract(path: string, content: string, lizard: Option<seq<FuncSummary>>): (r: Option<MetricSet>)
    ensures r.None? <==> GetLanguageByExtension(Ext(path)).None? || lizard.None?
  {
    if GetLanguageByExtension(Ext(path)).None? then None
    else if lizard.None? then None
    else Some(Measure(content, lizard.value, MaxOrZero(IndentLevels(StrippedLines(content)))))
  }

  /** The loop that builds `indent_levels`: one level per code line, in order. */
  method CollectIndentLevels(lines: seq<string>) returns (indentLevels: seq<nat>)
    ensures indentLevels == IndentLevels(lines)
  {
    indentLevels := [];
    var i := 0;
    while i < |lines|
      invariant 0 <= i <= |lines|
      invariant indentLevels == IndentLevels(lines[..i])
    {
      var line := lines[i];
      if IsCodeLine(Strip(line)) {
        indentLevels := indentLevels + [IndentLevel(line)];
      }
      assert lines[..i + 1][..i] == lines[..i];
      i := i + 1;
    }
    assert lines[..i] == lines;
  }

  /** The extractor: language check, then the counts over the text and lizard's figures. */
  method AnalyzeWithLizard(path: string, content: string, lizard: Option<seq<FuncSummary>>)
    returns (metrics: Option<MetricSet>)
    ensures metrics == Extract(path, content, lizard)
  {
    var language := GetLanguageByExtension(Ext(path));
    if language.None? {
      return None;
    }
    if lizard.None? {
      return None;
    }
    var indentLevels := CollectIndentLevels(StrippedLines(content));
    var maxNestingLevel := MaxOrZero(indentLevels);
    metrics := Some(Measure(content, lizard.value, maxNestingLevel));
  }

  // ----- Properties of the extracted record -----

  /**
    For a file in a supported language the extractor measures the text with
    an indentation nesting of 0: the indentation pass contributes nothing.
   */
  lemma ExtractSupported(path: string, content: string, funcs: seq<FuncSummary>)
    requires GetLanguageByExtension(Ext(path)).Some?
    ensures Extract(path, content, Some(funcs)) == Some(Measure(content, funcs, 0))
  {
    IndentationNestingIsZero(content);
  }


  /**
    The figures derived from the function list: `wmc` and `totalMethods` are
    the number of functions; `rfc` is the summed complexity when functions
    were found (0 after the caught AttributeError) and the return count
    otherwise; the coupling, inheritance, cohesion, field and static
    invocation figures are always 0.
   */
  lemma FunctionDerivedFields(path: string, content: string, funcs: seq<FuncSummary>)
    requires Extract(path, content, Some(funcs)).Some?
    ensures var m := Extract(path, content, Some(funcs)).value;
      && m.wmc == |funcs| && m.totalMethods == |funcs|
      && (funcs == [] ==> m.rfc == m.returnQty)
      && (funcs != [] && !NestingAttributeError(funcs) ==> m.rfc == SumComplexity(funcs))
      && (NestingAttributeError(funcs) ==> m.rfc == 0)
      && m.cbo == 0 && m.dit == 0 && m.lcom == 0 && m.totalFields == 0 && m.nosi == 0
  {
  }

  /**
    `maxNestedBlocks` is 0 unless the first summary carries `max_nesting` and
    so do all the others, in which case it is the largest of them.
   */
  lemma MaxNestedBlocksFromLizard(path: string, content: string, funcs: seq<FuncSummary>)
    requires Extract(path, content, Some(funcs)).Some?
    ensures Extract(path, content, Some(funcs)).value.maxNestedBlocks ==
      if funcs != [] && funcs[0].maxNesting.Some? && AllHaveNesting(funcs) then MaxNesting(funcs) else 0
  {
    IndentationNestingIsZero(content);
  }

  /** `CountIn` over two characters is the sum of the two single counts. */
  lemma {:induction false} CountInPair(s: string, a: char, b: char)
    requires a != b
    ensures CountIn(s, {a, b}) == CountIn(s, {a}) + CountIn(s, {b})
  {
    if s != [] {
      CountInPair(s[1..], a, b);
    }
  }

  /**
    The character-based counts: `parenthesizedExpsQty` counts '(',
    `stringLiteralsQty` is half the number of quote characters (rounded down),
    and `mathOperationsQty` counts each of + - * / % on its own.
   */
  lemma CharacterCounts(content: string, funcs: seq<FuncSummary>, indentMax: nat)
    ensures var m := Measure(content, funcs, indentMax);
      && m.parenthesizedExpsQty == CountIn(content, {'('})
      && m.stringLiteralsQty == (CountIn(content, {'"'}) + CountIn(content, {'\''})) / 2
      && m.mathOperationsQty == MathOperations(content)
  {
    ParenthesesCounted(content, funcs, indentMax);
    QuotesHalved(content, funcs, indentMax);
    MathOperatorsCounted(content, funcs, indentMax);
  }

  lemma ParenthesesCounted(content: string, funcs: seq<FuncSummary>, indentMax: nat)
    ensures Measure(content, funcs, indentMax).parenthesizedExpsQty == CountIn(content, {'('})
  {
  }

  lemma QuotesHalved(content: string, funcs: seq<FuncSummary>, indentMax: nat)
    ensures Measure(content, funcs, indentMax).stringLiteralsQty == (CountIn(content, {'"'}) + CountIn(content, {'\''})) / 2
  {
    QuoteCount(content);
  }

  lemma MathOperatorsCounted(content: string, funcs: seq<FuncSummary>, indentMax: nat)
    ensures Measure(content, funcs, indentMax).mathOperationsQty == MathOperations(content)
  {
  }

  /** The quote pattern matches each single or double quote once. */
  lemma QuoteCount(s: string)
    ensures FindAllCount(AnyOf({'"', '\''}), s) == CountIn(s, {'"'}) + CountIn(s, {'\''})
  {
    CountAnyOf(s, {'"', '\''});
    CountInPair(s, '"', '\'');
  }

  /** A `//` comment marker adds 2 to the math operator count, like two divisions. */
  lemma CommentMarkerCountsAsMath(a: string, b: string)
    ensures MathOperations(a + "//" + b) == MathOperations(a) + MathOperations(b) + 2
  {
    forall c: char
      ensures CountIn(a + "//" + b, {c}) == CountIn(a, {c}) + CountIn("//", {c}) + CountIn(b, {c})
    {
      CountInAppend(a + "//", b, {c});
      CountInAppend(a, "//", {c});
    }
    assert CountIn("//", {'/'}) == 2;
  }

  /** Every '<' and '>' is counted as a comparison, on top of any `<=`, `>=` it belongs to. */
  lemma ComparisonsCoverAngleBrackets(s: string)
    ensures SumCounts(ComparisonPatterns, s) >= CountIn(s, {'<'}) + CountIn(s, {'>'})
  {
    CountLiteralChar(s, '>');
    CountLiteralChar(s, '<');
    var ps := ComparisonPatterns;
    var tail := [Literal(">"), Literal("<")];
    assert ps[7..] == tail;
    assert tail[1..] == [Literal("<")];
    assert tail[1..][1..] == [];
    assert SumCounts(tail[1..], s) == FindAllCount(Literal("<"), s);
    assert SumCounts(tail, s) == FindAllCount(Literal(">"), s) + FindAllCount(Literal("<"), s);
    SumCountsSuffix(ps, s, 7);
  }

  lemma {:induction false} SumCountsSuffix(ps: seq<Pattern>, s: string, k: nat)
    requires k <= |ps|
    ensures SumCounts(ps, s) >= SumCounts(ps[k..], s)
  {
    if k > 0 {
      SumCountsSuffix(ps[1..], s, k - 1);
      assert ps[1..][k - 1..] == ps[k..];
    }
  }

  /** No pattern matches in the empty text. */
  lemma {:induction false} SumCountsEmpty(ps: seq<Pattern>)
    ensures SumCounts(ps, "") == 0
  {
    if ps != [] {
      SumCountsEmpty(ps[1..]);
    }
  }

  /** Every assignment the pattern finds holds its own '=': there are never more assignments than '=' signs. */
  lemma {:induction false} AssignmentsAtMostEquals(s: string, i: nat)
    requires i <= |s|
    ensures CountFrom(Assignment, s, i) <= CountIn(s[i..], {'='})
    decreases |s| - i
  {
    if i < |s| {
      var m := MatchLength(Assignment, s, i);
      if m == 0 {
        AssignmentsAtMostEquals(s, i + 1);
        assert s[i..][1..] == s[i + 1..];
      } else {
        AssignmentsAtMostEquals(s, i + 3);
        assert s[i..] == s[i..i + 3] + s[i + 3..];
        CountInAppend(s[i..i + 3], s[i + 3..], {'='});
        assert s[i..i + 3][1..][0] == '=';
      }
    }
  }

  /** The usual comparison operators, written between two operands, are never taken for assignments. */
  lemma ComparisonOperatorsAreNotAssignments(op: string)
    requires op in ["==", "!=", "<=", ">=", "==="]
    ensures FindAllCount(Assignment, "a " + op + " b") == 0
  {
    var s := "a " + op + " b";
    forall j | 0 <= j && j + 3 <= |s|
      ensures !(s[j] !in {'=', '!', '<', '>'} && s[j + 1] == '=' && s[j + 2] != '=')
    {
    }
    NoAssignmentIn(s);
  }

  lemma NoAssignmentIn(s: string)
    requires forall j :: 0 <= j && j + 3 <= |s| ==>
      !(s[j] !in {'=', '!', '<', '>'} && s[j + 1] == '=' && s[j + 2] != '=')
    ensures FindAllCount(Assignment, s) == 0
  {
    CountZeroIff(Assignment, s, 0);
  }

  /** Compound assignments and arrows are counted as assignments. */
  lemma CompoundAssignmentAndArrowCounted()
    ensures FindAllCount(Assignment, "x += 1") > 0
    ensures FindAllCount(Assignment, "x => y") > 0
  {
    assert MatchLength(Assignment, "x += 1", 2) == 3;
    CountZeroIff(Assignment, "x += 1", 0);
    assert MatchLength(Assignment, "x => y", 1) == 3;
    CountZeroIff(Assignment, "x => y", 0);
  }

  /** The number of distinct whitespace-separated tokens never exceeds the number of tokens. */
  lemma UniqueWordsAtMostTokens(path: string, content: string, funcs: seq<FuncSummary>)
    requires Extract(path, content, Some(funcs)).Some?
    ensures Extract(path, content, Some(funcs)).value.uniqueWordsQty <= |Tokens(content)|
  {
    DistinctAtMostLength(Tokens(content));
  }

  /** Every field of the record is 0. */
  predicate IsZeroRecord(m: MetricSet)
  {
    && m.loc == 0 && m.cbo == 0 && m.wmc == 0 && m.dit == 0 && m.rfc == 0 && m.lcom == 0
    && m.totalMethods == 0 && m.totalFields == 0 && m.nosi == 0 && m.returnQty == 0 && m.loopQty == 0
    && m.comparisonsQty == 0 && m.tryCatchQty == 0 && m.parenthesizedExpsQty == 0 && m.stringLiteralsQty == 0
    && m.numbersQty == 0 && m.assignmentsQty == 0 && m.mathOperationsQty == 0 && m.variablesQty == 0
    && m.maxNestedBlocks == 0 && m.uniqueWordsQty == 0
  }

  /** The text-derived counts of the empty text. */
  lemma EmptyTextCounts(content: string)
    requires |content| == 0
    ensures var m := Measure(content, [], 0);
      m.loc == 0 && m.uniqueWordsQty == 0 && m.loopQty == 0 && m.comparisonsQty == 0 && m.variablesQty == 0
  {
    EmptyTextLoc(content);
    EmptyTextWords(content);
    EmptyTextPatterns(content);
  }

  lemma EmptyTextLoc(content: string)
    requires |content| == 0
    ensures Measure(content, [], 0).loc == 0
  {
    assert content == "";
    assert Split(content, '\n') == [""];
    assert StrippedLines(content) == [""];
    assert CountCodeLines([""]) == 0 by { assert [""][..0] == []; }
  }

  lemma EmptyTextWords(content: string)
    requires |content| == 0
    ensures Measure(content, [], 0).uniqueWordsQty == 0
  {
    assert Tokens(content) == [];
    assert (set t | t in Tokens(content)) == {};
  }

  lemma EmptyTextPatterns(content: string)
    requires |content| == 0
    ensures var m := Measure(content, [], 0);
      m.loopQty == 0 && m.comparisonsQty == 0 && m.variablesQty == 0
  {
    assert content == "";
    SumCountsEmpty(LoopPatterns);
    SumCountsEmpty(ComparisonPatterns);
    SumCountsEmpty(VariablePatterns);
  }

  /** The remaining fields of the empty text's record. */
  lemma EmptyTextOtherFields(content: string)
    requires |content| == 0
    ensures var m := Measure(content, [], 0);
      && m.cbo == 0 && m.wmc == 0 && m.dit == 0 && m.rfc == 0 && m.lcom == 0
      && m.totalMethods == 0 && m.totalFields == 0 && m.nosi == 0 && m.returnQty == 0
      && m.tryCatchQty == 0 && m.parenthesizedExpsQty == 0 && m.stringLiteralsQty == 0
      && m.numbersQty == 0 && m.assignmentsQty == 0 && m.mathOperationsQty == 0 && m.maxNestedBlocks == 0
  {
  }

  /** The record of the empty text, with no functions, is all zeros. */
  lemma EmptyTextIsZero(content: string, m: MetricSet)
    requires |content| == 0 && m == Measure(content, [], 0)
    ensures IsZeroRecord(m)
  {
    EmptyTextCounts(content);
    EmptyTextOtherFields(content);
  }

  /** An empty file in a supported language, with no functions reported, yields an all-zero record. */
  lemma EmptyFileMetrics(path: string, content: string)
    requires GetLanguageByExtension(Ext(path)).Some? && |content| == 0
    ensures Extract(path, content, Some([])).Some? && IsZeroRecord(Extract(path, content, Some([])).value)
  {
    ExtractSupported(path, content, []);
    EmptyTextIsZero(content, Extract(path, content, Some([])).value);
  }
}
