# ts-metrics-analyzer: the metrics and classification engine in Dafny

This project models the engine of ts-metrics-analyzer that turns source files into code metrics and verdicts, and proves properties of it:

- **Lexical extractor** (`analyze_with_lizard`, app/lizard_metrics.py): one file's text, together with the function summaries the lizard library reports for it, becomes a fixed-shape record of 21 counts. Those are lines of code, loops, comparisons, assignments, character counts, nesting, distinct tokens and others.
- **Classifier** (`classify` and `metric_name_to_portuguese`): a fixed table of eight rules is run in order over that record. Each rule adds at most one finding to a risk list or a quality list. The two scores are the lists' lengths, and each list is rendered as a Portuguese comment.
- **File filter** (app/language_map.py): decides which paths are analysed, and in which language, from the path's last suffix, its directories and one Flutter-specific exclusion.
- **Class metrics** (analyze-metrics.ts): computes per-class metrics of TypeScript classes over a syntax tree. These are block nesting depth, cyclomatic complexity, LCOM (lack of cohesion between methods), DIT (depth of the inheritance chain), distinct words, and the per-class record built from them.

Modules, one per file:

| file | module | models |
|---|---|---|
| text.dfy | `Wrappers`, `Text` | splitting on one character, joining, character counts, decimal rendering of integers |
| pystr.dfy | `PyStr` | Python's `strip`/`lstrip`, `split()` on whitespace (with the exact `str.isspace` table), `startswith`/`endswith`, substring test, `lower` |
| pyregex.dfy | `PyRegex` | the regular expressions the extractor counts with, and `len(re.findall(...))` as a non-overlapping left-to-right scan |
| language_map.dfy | `LanguageMap` | `get_language_by_extension`, `os.path.splitext`, `should_analyze_file` |
| lizard_metrics.dfy | `LizardMetrics` | `analyze_with_lizard` as the function `Extract` and the method `AnalyzeWithLizard` |
| classification.dfy | `Classification` | `classify` (the method `Classify`, specified by the finding lists `RiskFindings`/`QualityFindings` and their texts) and `metric_name_to_portuguese` |
| analyze_metrics.dfy | `AnalyzeMetrics` | `getMaxNestedDepth`, `getCyclomaticComplexity`, `calculateLCOM`, `calculateDIT`, `countUniqueWords` and the per-class record |

Several quirks of the code are stated and proved rather than smoothed over:

- Indentation nesting is measured on lines that were already stripped, so it is always 0.
- `//` adds 2 to the math-operator count.
- `<` and `>` count as comparisons again on top of `<=` and `>=`.
- `+=` and `=>` count as assignments.
- `.min.js` and `.d.ts` are never reached as extensions.
- The Flutter exclusion is case-sensitive.
- A missing `loc` key reads as 0 for the size rule but as 1 for the variables rule.
- Every TypeScript binary expression, `a + b` included, raises cyclomatic complexity.
- `totalFields` counts explicit properties twice.
- `calculateDIT` does not terminate on a class that extends itself.

## Model

| member | source | states |
|---|---|---|
| Text.Split | app/lizard_metrics.py:166 | `s.split(sep)` has one more piece than `s` has separators, and no piece contains the separator |
| Text.SplitJoin | app/lizard_metrics.py:166 | joining the pieces of `s.split(sep)` with `sep` gives `s` back |
| Text.CountIn | app/lizard_metrics.py:222 | `s.count(c)` never exceeds the length of `s` |
| Text.CountInAppend | app/lizard_metrics.py:229 | character counts add up over concatenation |
| Text.NatToString | app/lizard_metrics.py:290 | the decimal rendering of a number is non-empty, all digits, and has no leading zero |
| Text.NatToStringRoundTrip | app/lizard_metrics.py:290 | reading the rendered digits back gives the number |
| Text.NatToStringInjective | app/lizard_metrics.py:290 | distinct values render to distinct texts |
| Text.IntToString | app/lizard_metrics.py:325 | an integer renders with a leading '-' exactly when it is negative |
| Text.DistinctAtMostLength | app/lizard_metrics.py:257 | a list has no more distinct elements than entries |
| PyStr.LStrip | app/lizard_metrics.py:188 | `lstrip` removes exactly the leading whitespace: a suffix of the input, what was dropped is whitespace, and the result does not start with whitespace |
| PyStr.RStrip | app/lizard_metrics.py:166 | `rstrip` removes exactly the trailing whitespace |
| PyStr.StripIsStripped | app/lizard_metrics.py:166 | a stripped line starts and ends with non-whitespace, and stripping it again changes nothing |
| PyStr.Tokens | app/lizard_metrics.py:257 | `split()` yields non-empty pieces free of whitespace |
| PyStr.TokensAreMaximalRuns | app/lizard_metrics.py:257 | the pieces of `split()` are the maximal non-whitespace runs in order: the text is the pieces interleaved with all-whitespace gaps, every gap between two pieces non-empty |
| PyStr.StripTrimsSpace | app/lizard_metrics.py:166 | `strip()` returns a slice of its argument, and everything cut off either end is whitespace |
| PyStr.NoTokensIffBlank | app/lizard_metrics.py:257 | `split()` is empty exactly when the text is all whitespace |
| PyStr.Lower | app/language_map.py:4 | `lower` keeps the length, leaves no upper-case ASCII letter, maps each upper-case letter to its lower-case one and leaves every other character unchanged |
| PyStr.LowerIdempotent | app/language_map.py:4 | lower-casing twice is lower-casing once |
| PyStr.ContainedCharsOccur | app/language_map.py:109 | every character of a contained substring occurs in the text |
| PyRegex.MatchLength | app/lizard_metrics.py:173-179 | a match starting at position i stays inside the text |
| PyRegex.FirstNameAt | app/lizard_metrics.py:178 | the alternation picks a listed array method present at the position, or none is present |
| PyRegex.SpaceRun | app/lizard_metrics.py:174 | `\s*` consumes the maximal run of whitespace |
| PyRegex.DigitRun | app/lizard_metrics.py:224 | `\d+` consumes the maximal run of digits |
| PyRegex.CountZeroIff | app/lizard_metrics.py:182 | `findall` finds nothing exactly when the pattern matches at no position |
| PyRegex.CountSingleChars | app/lizard_metrics.py:223 | a one-character pattern is counted once per matching character |
| PyRegex.CountLiteralChar | app/lizard_metrics.py:218 | `findall` of a one-character literal equals `count` of that character |
| PyRegex.CountAnyOf | app/lizard_metrics.py:223 | `findall` of `["']` equals the number of quote characters |
| LanguageMap.LookupIgnoresCase | app/language_map.py:3-4 | extension lookup is case-insensitive: spellings that lower-case alike resolve alike |
| LanguageMap.LastIndexOf | app/language_map.py:98 | `rfind` returns the last occurrence of the character, or -1 |
| LanguageMap.SplitExt | app/language_map.py:98 | `splitext` splits the path into root + ext; a non-empty ext starts at the last '.', which lies in the last component after some non-dot character of it; an empty ext means every '.' of the last component has only dots before it |
| LanguageMap.AnalysedFilesHaveLanguage | app/language_map.py:69-113 | a path the filter accepts always has a language |
| LanguageMap.MultiDotSuffixesUnreachable | app/language_map.py:27 | the keys `.min.js`, `.min.css` and `.d.ts` can never be an extracted extension |
| LanguageMap.MinifiedScriptIsAnalysed | app/language_map.py:87 | `a.min.js` has extension `.js` and is analysed despite the `.min.js` deny-list entry |
| LanguageMap.SkippedDirectoryRejects | app/language_map.py:103-106 | any lower-cased path component that is a skipped directory rejects the path |
| LanguageMap.NoExtensionRejects | app/language_map.py:98-113 | a path without an extension is never analysed |
| LanguageMap.DotfilesHaveNoExtension | app/language_map.py:98 | a file named one or more dots and then dot-free text (`.bashrc`, `..env`), in any directory, has no extension and is rejected |
| LanguageMap.LowerCasePathNeverFlutterExcluded | app/language_map.py:109-110 | the Flutter exclusion is case-sensitive and never fires on an all-lower-case path |
| LanguageMap.FlutterWorkspaceExcluded | app/language_map.py:109-110 | the exact workspace spelling excludes an otherwise valid Swift path |
| LanguageMap.SkipExtensionsHaveNoLanguage | app/language_map.py:75-88 | no skipped extension appears in the language table |
| LizardMetrics.ToDict | app/lizard_metrics.py:236-258 | the record as a dictionary: every value is a non-negative count, and `loc` maps to the line count |
| LizardMetrics.LinesAreStripped | app/lizard_metrics.py:166 | each line is its piece of `content.split('\n')` with the surrounding whitespace cut off, and has no whitespace left at either end |
| LizardMetrics.LinesOfCodeBounds | app/lizard_metrics.py:166-167 | `loc` is at most the number of non-blank lines and at most the number of newline characters plus one |
| LizardMetrics.CodeLinesAtMostNonBlank | app/lizard_metrics.py:167 | counted code lines are non-blank lines |
| LizardMetrics.MaxOrZero | app/lizard_metrics.py:191 | `max(xs) if xs else 0` is an upper bound that is attained, or 0 for no levels |
| LizardMetrics.IndentationNestingIsZero | app/lizard_metrics.py:185-191 | the indentation nesting level is always 0 because the lines were stripped first |
| LizardMetrics.Extract | app/lizard_metrics.py:149-154 | no record exactly when the extension has no language or the file read and lizard run fail |
| LizardMetrics.CollectIndentLevels | app/lizard_metrics.py:185-189 | the loop appends half the leading-whitespace count of each code line, in order, and of no other line |
| LizardMetrics.AnalyzeWithLizard | app/lizard_metrics.py:149-258 | the extractor returns the record `Extract` specifies, or nothing in the same cases |
| LizardMetrics.ExtractSupported | app/lizard_metrics.py:150-258 | on a supported file the record is built with indentation nesting 0 |
| LizardMetrics.FunctionDerivedFields | app/lizard_metrics.py:197-211 | `wmc` and `totalMethods` are the function count; `rfc` is the summed complexity if functions were found (0 after the caught AttributeError), else the return count; cbo, dit, lcom, totalFields and nosi are 0 |
| LizardMetrics.MaxNestedBlocksFromLizard | app/lizard_metrics.py:205-208 | `maxNestedBlocks` is lizard's largest `max_nesting` when the first and all other summaries carry it, else 0 |
| LizardMetrics.QuoteCount | app/lizard_metrics.py:223 | the quote pattern matches once per single or double quote |
| LizardMetrics.CharacterCounts | app/lizard_metrics.py:222-229 | parentheses count '(', string literals are half the quote count rounded down, math operations count each of `+ - * / %` |
| LizardMetrics.CountInPair | app/lizard_metrics.py:223 | counting two characters is the sum of the two counts |
| LizardMetrics.CommentMarkerCountsAsMath | app/lizard_metrics.py:228-229 | a `//` adds exactly 2 to the math-operator count |
| LizardMetrics.ComparisonsCoverAngleBrackets | app/lizard_metrics.py:218-219 | the comparison count is at least the number of '<' plus '>' characters |
| LizardMetrics.AssignmentsAtMostEquals | app/lizard_metrics.py:225 | every assignment match holds an '=' of its own, so there are never more assignments than '=' signs |
| LizardMetrics.ComparisonOperatorsAreNotAssignments | app/lizard_metrics.py:225 | `a op b` for each of `==`, `!=`, `<=`, `>=` and `===` produces no assignment match |
| LizardMetrics.NoAssignmentIn | app/lizard_metrics.py:225 | a text with no matching position has no assignments |
| LizardMetrics.CompoundAssignmentAndArrowCounted | app/lizard_metrics.py:225 | `+=` and `=>` are counted as assignments |
| LizardMetrics.UniqueWordsAtMostTokens | app/lizard_metrics.py:257 | `uniqueWordsQty` is at most the number of whitespace-separated tokens |
| LizardMetrics.EmptyTextIsZero | app/lizard_metrics.py:236-258 | the empty text without functions gives an all-zero record |
| LizardMetrics.EmptyFileMetrics | app/lizard_metrics.py:149-258 | an empty file in a supported language yields a record, and it is all zeros |
| Classification.MetricNameToPortuguese | app/lizard_metrics.py:322-339 | a described metric's sentence ends with the value and ')'; any other name renders as `name: value` |
| Classification.LeadsDiffer | app/lizard_metrics.py:324-337 | the positive and negative wording of each described metric differ |
| Classification.PositiveFlagMatters | app/lizard_metrics.py:324-337 | for a described metric, the positive flag changes the sentence |
| Classification.PositiveFlagIgnored | app/lizard_metrics.py:338-339 | for any other name, the flag does not change the text |
| Classification.RiskFindings | app/lizard_metrics.py:275-305 | every risk finding is a negative one, and there are at most as many as rules |
| Classification.QualityFindings | app/lizard_metrics.py:278-305 | every quality finding is a positive one, and there are at most as many as rules |
| Classification.Texts | app/lizard_metrics.py:281-305 | there is one point text per finding |
| Classification.TextsAt | app/lizard_metrics.py:281-305 | the k-th point text is the rendering of the k-th finding |
| Classification.ApplyRule | app/lizard_metrics.py:282-305 | one pass of the loop body appends the rendering of the rule's finding, if any, to the matching list and leaves the other list alone |
| Classification.CollectPoints | app/lizard_metrics.py:281-305 | the loop over the rule table builds the renderings of the risk and the quality findings, in rule order |
| Classification.Classify | app/lizard_metrics.py:260-320 | the loop's scores are the lengths of the specified finding lists, the comments are the specified renderings, and the two scores add up to 7 or 8 |
| Classification.ThresholdRule | app/lizard_metrics.py:264-305 | each of the first seven rules yields exactly one finding about its own metric and value (missing as 0): a quality iff the value is at most its threshold, else a risk |
| Classification.ThresholdFindingText | app/lizard_metrics.py:296-305 | a finding about a described metric is rendered by `metric_name_to_portuguese` with its flag, and ends with the value and ')' |
| Classification.RatioThresholds | app/lizard_metrics.py:287-291 | for positive `loc`, `ratio <= 0.1` iff 10·value ≤ loc, and `ratio > 0.2` iff 5·value > loc |
| Classification.VariablesRule | app/lizard_metrics.py:285-293 | the variables rule reports on `variablesQty` with the value read; it gives a quality iff value > 0 and (loc ≤ 0 or 10·value ≤ loc), and risk iff value > 0, loc > 0 and 5·value > loc |
| Classification.AppendRule | app/lizard_metrics.py:281-305 | evaluating one more rule appends its finding, in table order, to the matching list only |
| Classification.OneFindingPerRule | app/lizard_metrics.py:281-305 | rules that each produce a finding contribute exactly one finding apiece |
| Classification.ScoresBetweenSevenAndEight | app/lizard_metrics.py:307-309 | risk + quality is 7, plus 1 when the variables rule produced a finding |
| Classification.PointsDependOnRules | app/lizard_metrics.py:281-305 | the finding lists depend only on each rule's outcome |
| Classification.MissingKeyCountsAsZero | app/lizard_metrics.py:282 | a missing metric other than `loc` is classified as if it were 0 |
| Classification.MissingLocIsNotZero | app/lizard_metrics.py:282-286 | a missing `loc` reads as 1 for the variables rule, unlike an explicit 0 |
| Classification.RiskCommentShape | app/lizard_metrics.py:312-314 | the risk comment is its default sentence exactly when there is no risk point, and otherwise starts with its prefix |
| Classification.QualityCommentShape | app/lizard_metrics.py:316-318 | the quality comment is its default sentence exactly when there is no quality point, and otherwise starts with its prefix |
| Classification.MixedScenario | app/lizard_metrics.py:260-309 | a 200-line file with nesting 5 and otherwise moderate figures gets exactly two risks, LOC 200 and nesting 5 in that order, and 6 qualities |
| Classification.AllZeroClassification | app/lizard_metrics.py:260-309 | an all-zero dictionary gets no risk and 7 qualities |
| Classification.NoRiskWhenNoneRisky | app/lizard_metrics.py:281-305 | no rule yielding risk means an empty risk list |
| Classification.EmptyFileClassification | app/lizard_metrics.py:149-320 | an empty supported file is classified with 0 risks and 7 qualities |
| AnalyzeMetrics.MaxBlockDepth | analyze-metrics.ts:67-72 | the deepest child is an upper bound on every child's depth and is attained |
| AnalyzeMetrics.GetMaxNestedDepth | analyze-metrics.ts:60-75 | the recursion with its child loop returns the starting depth plus `BlockDepth`, so never less than the starting depth |
| AnalyzeMetrics.PathBlocksAtMostDepth | analyze-metrics.ts:60-75 | no downward path meets more `Block` nodes than `BlockDepth` |
| AnalyzeMetrics.DeepestLeafPath | analyze-metrics.ts:60-75 | some root-to-leaf path meets exactly `BlockDepth` blocks |
| AnalyzeMetrics.NoBlockIffZeroDepth | analyze-metrics.ts:60-75 | the depth is 0 exactly when neither the node nor any descendant is a `Block` |
| AnalyzeMetrics.GetCyclomaticComplexity | analyze-metrics.ts:101-133 | the counter walked over the descendants ends at 1 + control-flow descendants + `&&`/`||` descendants |
| AnalyzeMetrics.BinaryExpressionWeights | analyze-metrics.ts:104-129 | an `&&` or `\|\|` adds 2, any other binary expression adds 1, and an empty method has complexity 1 |
| AnalyzeMetrics.IdentifierTexts | analyze-metrics.ts:148-149 | a text is collected exactly when some node is an identifier with that text, and there are no more texts than nodes |
| AnalyzeMetrics.CountRow | analyze-metrics.ts:143-166 | the inner loop counts the later methods that share a field with method i, and those that do not |
| AnalyzeMetrics.CalculateLcom | analyze-metrics.ts:135-170 | the nested pair loops return non-sharing pairs minus sharing pairs, floored at 0 |
| AnalyzeMetrics.PairsPartition | analyze-metrics.ts:139-169 | sharing + non-sharing pairs = n(n−1)/2, so the LCOM value is at most n(n−1)/2 |
| AnalyzeMetrics.FewMethodsNoLcom | analyze-metrics.ts:142-143 | fewer than two methods give LCOM 0 |
| AnalyzeMetrics.TwoFieldlessMethods | analyze-metrics.ts:147-165 | two methods touching no field are a non-sharing pair: LCOM 1 |
| AnalyzeMetrics.FindClass | analyze-metrics.ts:88 | `find` returns the first project class with that name, or there is none |
| AnalyzeMetrics.ChainLengthUnique | analyze-metrics.ts:79-97 | the inheritance chain has at most one length |
| AnalyzeMetrics.CalculateDit | analyze-metrics.ts:79-97 | the `while (true)` loop returns the number of resolved `extends` links, the only chain length |
| AnalyzeMetrics.SelfExtendingHasNoDepth | analyze-metrics.ts:83-94 | a class resolving to itself as its own base has no finite chain, so the loop would not end |
| AnalyzeMetrics.UnresolvedBaseHasDepthZero | analyze-metrics.ts:84-90 | no `extends`, or a base missing from the project, gives depth 0 |
| AnalyzeMetrics.Words | analyze-metrics.ts:51 | the matches of `\b\w+\b` are non-empty runs of word characters |
| AnalyzeMetrics.WordsAreMaximalRuns | analyze-metrics.ts:51 | the matches of `\b\w+\b` are the maximal word-character runs in order: the text is the words interleaved with gaps free of word characters, every gap between two words non-empty |
| AnalyzeMetrics.CountUniqueWords | analyze-metrics.ts:50-53 | the distinct-word count is at most the number of matches |
| AnalyzeMetrics.NoWordsIffNoWordChars | analyze-metrics.ts:51 | nothing matches exactly when the text has no word character |
| AnalyzeMetrics.UniqueWordsZeroIff | analyze-metrics.ts:52 | the count is 0 exactly when the text has no word character |
| AnalyzeMetrics.MeasureClass | analyze-metrics.ts:175-246 | the class record: loc = newlines + 1, cbo, wmc = summed complexity, dit, rfc = distinct identifier callees + methods, lcom, totalFields = 2·properties + scoped constructor parameters, maxNestedBlocks = depth − 1, uniqueWordsQty |
| AnalyzeMetrics.MaxNestedMinusOneIffNoBlock | analyze-metrics.ts:205 | `maxNested` is at least −1, and exactly −1 when the class subtree has no `Block` |
| AnalyzeMetrics.WmcAtLeastMethodCount | analyze-metrics.ts:206-209 | `wmc` is at least the number of methods |

## Left out

- `process_commit` (app/lizard_metrics.py:4-148), app/main.py, app/git_utils.py and run-analysis.ts are left out: they are git checkout, directory walks, diff decoding, HTTP handling and printing, with no metric logic.
- The file read and `lizard.analyze_file` (app/lizard_metrics.py:158-163) are inputs. The text is a parameter, and lizard's report is an `Option<seq<FuncSummary>>`. `None` stands for an exception raised there, which the source turns into no record (lines 213-215).
- `\w`, `\d`, `\b` and `lower()` are modelled on ASCII letters and digits; Python's Unicode tables for them are not part of this model. `\s`, `str.isspace` and `strip` use Python's exact whitespace set.
- Classification.RatioThresholds: the ratio `value / loc` is an exact rational, not a binary float. The two can differ only at a ratio within one float rounding step of 0.1 or 0.2, which needs `loc` above about 2^50.
- Paths use the POSIX separator `/`; `os.sep` on other platforms is not modelled.
- Classification.MetricNameToPortuguese: the `ensures` states only the sentence's ending and the fallback form. The exact Portuguese openings are the body of `Classification.Lead`, and `Classification.PositiveFlagMatters` proves the flag changes them.
- The top level of analyze-metrics.ts (lines 55-57, 173-176, 260-261), which loads the ts-morph project and writes the JSON file, is left out. `MeasureClass` takes the file text, the class and the project's classes as inputs.
- The fields analyze-metrics.ts fills with `countNodeKind` (lines 223-242) are left out: they are library counts of token kinds the abstract tree does not carry. So are `filePath` and the project-wide NOSI pass (lines 250-258).
- The ts-morph syntax tree is abstracted: `Node.children` are the `forEachChild` children, an `extends` clause is reduced to its expression text, and constructor parameters to whether they carry an accessibility modifier (`public`, `private` or `protected`).
- AnalyzeMetrics.CalculateDit requires a finite inheritance chain. The source loops forever on a cycle, and `SelfExtendingHasNoDepth` shows such a class.
- AnalyzeMetrics.MeasureClass requires a finite inheritance chain, for the same reason as `CalculateDit`.
