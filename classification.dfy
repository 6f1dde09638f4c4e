/**
  The risk/quality classifier of app/lizard_metrics.py (`classify` and
  `metric_name_to_portuguese`): a fixed table of eight rules is evaluated in
  order over a metric dictionary; each rule adds at most one finding to the
  risk list or to the quality list, the scores are the two lists' lengths,
  and each list is rendered into a Portuguese comment.
 */
module Classification {
  import opened Wrappers
  import opened Text
  import opened PyStr
  import opened LanguageMap
  import opened LizardMetrics

  /** One row of the rule table: metric name, threshold, and whether a higher value is better. */
  datatype Rule = Rule(name: string, threshold: int, higherIsBetter: bool)

  /** `metrics_to_evaluate`, in evaluation order. */
  const MetricsToEvaluate: seq<Rule> := [
    Rule("loc", 150, false),
    Rule("wmc", 8, false),
    Rule("rfc", 15, false),
    Rule("maxNestedBlocks", 3, false),
    Rule("loopQty", 5, false),
    Rule("comparisonsQty", 20, false),
    Rule("tryCatchQty", 3, false),
    Rule("variablesQty", -1, true)]

  /** `metrics.get(key, default)`. */
  function Get(metrics: map<string, int>, key: string, default: int): int
  {
    if key in metrics then metrics[key] else default
  }

  /** The metric names `metric_name_to_portuguese` has a dedicated sentence for. */
  const DescribedMetrics: set<string> :=
    {"loc", "wmc", "rfc", "maxNestedBlocks", "loopQty", "comparisonsQty", "tryCatchQty"}

  /** The sentence `metric_name_to_portuguese` writes for a described metric, up to the value. */
  function Lead(name: string, positive: bool): string
    requires name in DescribedMetrics
  {
    if name == "loc" then
      "Tamanho " + (if positive then "adequado" else "excessivo") + " de arquivo (LOC: "
    else if name == "wmc" then
      (if positive then "Boa" else "Má") + " distribuição de métodos/funções ("
    else if name == "rfc" then
      (if positive then "Baixa" else "Alta") + " complexidade (RFC: "
    else if name == "maxNestedBlocks" then
      "Estrutura de código " + (if positive then "bem organizada" else "muito aninhada") + " (profundidade: "
    else if name == "loopQty" then
      (if positive then "Uso moderado" else "Excesso") + " de loops ("
    else if name == "comparisonsQty" then
      (if positive then "Quantidade adequada" else "Excesso") + " de condições/comparações ("
    else
      (if positive then "Uso adequado" else "Excesso") + " de blocos try-catch ("
  }

  /**
    `metric_name_to_portuguese(metric_name, value, is_positive)`: a described
    metric's sentence closes with its value in parentheses; any other name is
    written as `name: value`.
   */
  function MetricNameToPortuguese(name: string, value: int, positive: bool): (s: string)
    ensures name in DescribedMetrics ==> EndsWith(s, IntToString(value) + ")")
    ensures name !in DescribedMetrics ==> s == name + ": " + IntToString(value)
  {
    if name in DescribedMetrics then
      var s := Lead(name, positive) + IntToString(value) + ")";
      assert s == Lead(name, positive) + (IntToString(value) + ")");
      s
    else
      name + ": " + IntToString(value)
  }

  /** The positive and negative openings of a described metric differ. */
  lemma LeadsDiffer(name: string)
    requires name in DescribedMetrics
    ensures Lead(name, true) != Lead(name, false)
  {
    var p := Lead(name, true);
    var n := Lead(name, false);
    if name == "loc" {
      assert p[8] == 'a' && n[8] == 'e';
    } else if name == "wmc" {
      assert p[0] == 'B' && n[0] == 'M';
    } else if name == "rfc" {
      assert p[0] == 'B' && n[0] == 'A';
    } else if name == "maxNestedBlocks" {
      assert p[20] == 'b' && n[20] == 'm';
    } else {
      assert p[0] != 'E' && n[0] == 'E';
    }
  }

  /** For a described metric the flag selects a different sentence. */
  lemma PositiveFlagMatters(name: string, value: int)
    requires name in DescribedMetrics
    ensures MetricNameToPortuguese(name, value, true) != MetricNameToPortuguese(name, value, false)
  {
    LeadsDiffer(name);
    var tail := IntToString(value) + ")";
    var p := Lead(name, true);
    var n := Lead(name, false);
    assert MetricNameToPortuguese(name, value, true) == p + tail;
    assert MetricNameToPortuguese(name, value, false) == n + tail;
  }

  /** For any other name the flag is ignored: both renderings are `name: value`. */
  lemma PositiveFlagIgnored(name: string, value: int)
    requires name !in DescribedMetrics
    ensures MetricNameToPortuguese(name, value, true) == MetricNameToPortuguese(name, value, false)
  {
  }

  /**
    What one rule contributes: the metric it is about, the value read for it,
    and whether it goes to the quality list (`positive`) or the risk list.
   */
  datatype Finding = Finding(name: string, value: int, positive: bool)

  /** `ratio = value / loc if loc > 0 else 0`, on exact rationals. */
  function Ratio(value: int, loc: int): real
  {
    if loc > 0 then value as real / loc as real else 0.0
  }

  /** The finding one pass of the loop body adds for `rule`, if any. */
  function Evaluate(rule: Rule, metrics: map<string, int>): Option<Finding>
  {
    var value := Get(metrics, rule.name, 0);
    if rule.name == "variablesQty" then
      var ratio := Ratio(value, Get(metrics, "loc", 1));
      if value > 0 && ratio <= 0.1 then Some(Finding(rule.name, value, true))
      else if value > 0 && ratio > 0.2 then Some(Finding(rule.name, value, false))
      else None
    else if rule.higherIsBetter then Some(Finding(rule.name, value, value > rule.threshold))
    else Some(Finding(rule.name, value, value <= rule.threshold))
  }

  /** The text a finding is appended as. */
  function FindingText(f: Finding): string
  {
    if f.name == "variablesQty" then
      if f.positive then "Uso eficiente de variáveis (" + IntToString(f.value) + ")"
      else "Muitas variáveis em relação ao tamanho do arquivo (" + IntToString(f.value) + ")"
    else MetricNameToPortuguese(f.name, f.value, f.positive)
  }

  /** The texts of `fs`, in order. */
  function Texts(fs: seq<Finding>): (ts: seq<string>)
    ensures |ts| == |fs|
  {
    if fs == [] then [] else Texts(fs[..|fs| - 1]) + [FindingText(fs[|fs| - 1])]
  }

  /** The k-th text is the text of the k-th finding. */
  lemma {:induction false} TextsAt(fs: seq<Finding>, k: nat)
    requires k < |fs|
    ensures Texts(fs)[k] == FindingText(fs[k])
  {
    if k < |fs| - 1 {
      TextsAt(fs[..|fs| - 1], k);
    }
  }

  /** The risk findings of `rules`, in rule order. */
  function RiskFindings(rules: seq<Rule>, metrics: map<string, int>): (fs: seq<Finding>)
    ensures |fs| <= |rules|
    ensures forall k :: 0 <= k < |fs| ==> !fs[k].positive
  {
    if rules == [] then []
    else
      var last := Evaluate(rules[|rules| - 1], metrics);
      RiskFindings(rules[..|rules| - 1], metrics) + RiskPart(last)
  }

  /** The quality findings of `rules`, in rule order. */
  function QualityFindings(rules: seq<Rule>, metrics: map<string, int>): (fs: seq<Finding>)
    ensures |fs| <= |rules|
    ensures forall k :: 0 <= k < |fs| ==> fs[k].positive
  {
    if rules == [] then []
    else
      var last := Evaluate(rules[|rules| - 1], metrics);
      QualityFindings(rules[..|rules| - 1], metrics) + QualityPart(last)
  }

  const RiskDefault: string := "Código apresenta baixo risco operacional."
  const RiskPrefix: string := "Código com pontos de atenção: "
  const QualityDefault: string := "Código bem organizado e legível."
  const QualityPrefix: string := "Pontos positivos: "

  /** `risk_comment` for a list of risk findings. */
  function RiskComment(points: seq<string>): string
  {
    if points == [] then RiskDefault else RiskPrefix + Join(points, ", ")
  }

  /** `quality_comment` for a list of quality findings. */
  function QualityComment(points: seq<string>): string
  {
    if points == [] then QualityDefault else QualityPrefix + Join(points, ", ")
  }

  lemma {:induction false} TextsConcat(fs: seq<Finding>, gs: seq<Finding>)
    requires |gs| <= 1
    ensures Texts(fs + gs) == Texts(fs) + Texts(gs)
  {
    if gs != [] {
      assert (fs + gs)[..|fs|] == fs;
      assert Texts(gs) == [FindingText(gs[0])];
    } else {
      assert fs + gs == fs;
    }
  }

  /** The risk findings `v` contributes: itself when it is a risk, nothing otherwise. */
  function RiskPart(v: Option<Finding>): (fs: seq<Finding>)
    ensures |fs| <= 1
  {
    if v.Some? && !v.value.positive then [v.value] else []
  }

  /** The quality findings `v` contributes: itself when it is a quality, nothing otherwise. */
  function QualityPart(v: Option<Finding>): (fs: seq<Finding>)
    ensures |fs| <= 1
  {
    if v.Some? && v.value.positive then [v.value] else []
  }

  lemma PartTexts(v: Option<Finding>)
    ensures Texts(RiskPart(v)) == if v.Some? && !v.value.positive then [FindingText(v.value)] else []
    ensures Texts(QualityPart(v)) == if v.Some? && v.value.positive then [FindingText(v.value)] else []
  {
    assert Texts([]) == [];
    if v.Some? {
      assert Texts([v.value]) == Texts([]) + [FindingText(v.value)];
    }
  }

  /**
    One pass of the loop body of `classify`: the text of the finding of `rule`,
    if any, is appended to the risk or the quality list, and the other list is
    left as it was.
   */
  method ApplyRule(rule: Rule, metrics: map<string, int>, riskPoints: seq<string>, qualityPoints: seq<string>)
    returns (risk: seq<string>, quality: seq<string>)
    ensures risk == riskPoints + Texts(RiskPart(Evaluate(rule, metrics)))
    ensures quality == qualityPoints + Texts(QualityPart(Evaluate(rule, metrics)))
  {
    PartTexts(Evaluate(rule, metrics));
    risk, quality := riskPoints, qualityPoints;
    var value := Get(metrics, rule.name, 0);
    if rule.name == "variablesQty" {
      var loc := Get(metrics, "loc", 1);
      var ratio := if loc > 0 then value as real / loc as real else 0.0;
      assert ratio == Ratio(value, loc);
      if value > 0 && ratio <= 0.1 {
        assert Evaluate(rule, metrics) == Some(Finding(rule.name, value, true));
        quality := quality + ["Uso eficiente de variáveis (" + IntToString(value) + ")"];
      } else if value > 0 && ratio > 0.2 {
        assert Evaluate(rule, metrics) == Some(Finding(rule.name, value, false));
        risk := risk + ["Muitas variáveis em relação ao tamanho do arquivo (" + IntToString(value) + ")"];
      }
    } else if rule.higherIsBetter {
      if value > rule.threshold {
        assert Evaluate(rule, metrics) == Some(Finding(rule.name, value, true));
        quality := quality + [MetricNameToPortuguese(rule.name, value, true)];
      } else {
        assert Evaluate(rule, metrics) == Some(Finding(rule.name, value, false));
        risk := risk + [MetricNameToPortuguese(rule.name, value, false)];
      }
    } else {
      if value <= rule.threshold {
        assert Evaluate(rule, metrics) == Some(Finding(rule.name, value, true));
        quality := quality + [MetricNameToPortuguese(rule.name, value, true)];
      } else {
        assert Evaluate(rule, metrics) == Some(Finding(rule.name, value, false));
        risk := risk + [MetricNameToPortuguese(rule.name, value, false)];
      }
    }
  }

  /**
    The loop of `classify`: each rule of `rules`, in order, appends the text
    of its finding, if any, to the risk or the quality list.
   */
  method CollectPoints(rules: seq<Rule>, metrics: map<string, int>)
    returns (riskPoints: seq<string>, qualityPoints: seq<string>)
    ensures riskPoints == Texts(RiskFindings(rules, metrics))
    ensures qualityPoints == Texts(QualityFindings(rules, metrics))
  {
    riskPoints := [];
    qualityPoints := [];
    var i := 0;
    while i < |rules|
      invariant 0 <= i <= |rules|
      invariant riskPoints == Texts(RiskFindings(rules[..i], metrics))
      invariant qualityPoints == Texts(QualityFindings(rules[..i], metrics))
    {
      AppendRule(rules, metrics, i + 1);
      var v := Evaluate(rules[i], metrics);
      TextsConcat(RiskFindings(rules[..i], metrics), RiskPart(v));
      TextsConcat(QualityFindings(rules[..i], metrics), QualityPart(v));
      riskPoints, qualityPoints := ApplyRule(rules[i], metrics, riskPoints, qualityPoints);
      i := i + 1;
    }
    assert rules[..i] == rules;
  }

  /**
    `classify(metrics)`: the findings of the rule table, their counts as the
    two scores, and the two comments.
   */
  method Classify(metrics: map<string, int>)
    returns (risco: nat, qualidade: nat, riskComment: string, qualityComment: string)
    ensures risco == |RiskFindings(MetricsToEvaluate, metrics)|
    ensures qualidade == |QualityFindings(MetricsToEvaluate, metrics)|
    ensures riskComment == RiskComment(Texts(RiskFindings(MetricsToEvaluate, metrics)))
    ensures qualityComment == QualityComment(Texts(QualityFindings(MetricsToEvaluate, metrics)))
    ensures 7 <= risco + qualidade <= 8
  {
    var riskPoints, qualityPoints := CollectPoints(MetricsToEvaluate, metrics);
    ScoresBetweenSevenAndEight(metrics);
    risco := |riskPoints|;
    qualidade := |qualityPoints|;
    riskComment := "Código apresenta baixo risco operacional.";
    if riskPoints != [] {
      riskComment := "Código com pontos de atenção: " + Join(riskPoints, ", ");
    }
    qualityComment := "Código bem organizado e legível.";
    if qualityPoints != [] {
      qualityComment := "Pontos positivos: " + Join(qualityPoints, ", ");
    }
  }

  // ----- Properties of the rule table -----

  /**
    Each of the seven threshold rules (all but the last) yields exactly one
    finding about its own metric and value, the value being 0 for a missing
    key: a quality finding when the value is at most the threshold, a risk
    finding otherwise.
   */
  lemma ThresholdRule(k: nat, metrics: map<string, int>)
    requires k < 7
    ensures var rule := MetricsToEvaluate[k];
      var value := Get(metrics, rule.name, 0);
      Evaluate(rule, metrics) == Some(Finding(rule.name, value, value <= rule.threshold))
  {
    var rule := MetricsToEvaluate[k];
    assert rule.name != "variablesQty" && !rule.higherIsBetter;
  }

  /** The threshold rules' findings are written by `metric_name_to_portuguese`. */
  lemma ThresholdFindingText(f: Finding)
    requires f.name in DescribedMetrics
    ensures FindingText(f) == MetricNameToPortuguese(f.name, f.value, f.positive)
    ensures EndsWith(FindingText(f), IntToString(f.value) + ")")
  {
    assert f.name != "variablesQty";
  }

  lemma ScaleByPositive(a: real, b: real, l: real)
    requires l > 0.0
    ensures a <= b <==> a * l <= b * l
  {
    if a <= b {
      assert (b - a) * l >= 0.0;
    } else {
      assert (a - b) * l > 0.0;
    }
  }

  /** Dividing by a positive `l` and comparing with `c` is comparing with `c * l`. */
  lemma DivideCompare(v: real, l: real, c: real)
    requires l > 0.0
    ensures v / l <= c <==> v <= c * l
  {
    assert (v / l) * l == v;
    ScaleByPositive(v / l, c, l);
  }

  /** For a positive `loc`, `value / loc <= 0.1` is `10 * value <= loc` and `value / loc > 0.2` is `5 * value > loc`. */
  lemma RatioThresholds(value: int, loc: int)
    requires loc > 0
    ensures Ratio(value, loc) <= 0.1 <==> 10 * value <= loc
    ensures Ratio(value, loc) > 0.2 <==> 5 * value > loc
  {
    var v, l := value as real, loc as real;
    DivideCompare(v, l, 0.1);
    DivideCompare(v, l, 0.2);
    assert v <= 0.1 * l <==> (10 * value) as real <= l;
    assert v <= 0.2 * l <==> (5 * value) as real <= l;
  }

  /**
    The variables rule, with `loc` read with default 1 and a ratio of 0 when
    `loc` is not positive: a quality finding when there are variables and at
    most one per ten lines, a risk finding when there are more than one per
    five lines, nothing otherwise (no variables, or a ratio in (0.1, 0.2]).
   */
  lemma VariablesRule(metrics: map<string, int>)
    ensures var value := Get(metrics, "variablesQty", 0);
      var loc := Get(metrics, "loc", 1);
      var v := Evaluate(MetricsToEvaluate[7], metrics);
      && (v.Some? ==> v.value == Finding("variablesQty", value, v.value.positive))
      && (v.Some? && v.value.positive <==> value > 0 && (loc <= 0 || 10 * value <= loc))
      && (v.Some? && !v.value.positive <==> value > 0 && loc > 0 && 5 * value > loc)
  {
    var loc := Get(metrics, "loc", 1);
    if loc > 0 {
      RatioThresholds(Get(metrics, "variablesQty", 0), loc);
    }
  }

  /** Appending one rule appends its finding, if any, to the matching list. */
  lemma AppendRule(rules: seq<Rule>, metrics: map<string, int>, n: nat)
    requires 0 < n <= |rules|
    ensures var v := Evaluate(rules[n - 1], metrics);
      && RiskFindings(rules[..n], metrics) == RiskFindings(rules[..n - 1], metrics) + RiskPart(v)
      && QualityFindings(rules[..n], metrics) == QualityFindings(rules[..n - 1], metrics) + QualityPart(v)
  {
    assert rules[..n][..n - 1] == rules[..n - 1];
  }

  /** Rules that each produce a finding contribute one finding apiece. */
  lemma {:induction false} OneFindingPerRule(rules: seq<Rule>, metrics: map<string, int>, n: nat)
    requires n <= |rules|
    requires forall k :: 0 <= k < n ==> Evaluate(rules[k], metrics).Some?
    ensures |RiskFindings(rules[..n], metrics)| + |QualityFindings(rules[..n], metrics)| == n
  {
    if n > 0 {
      OneFindingPerRule(rules, metrics, n - 1);
      AppendRule(rules, metrics, n);
      var v := Evaluate(rules[n - 1], metrics);
      assert |RiskPart(v)| + |QualityPart(v)| == 1;
    }
  }

  /**
    The two scores add up to 7, plus 1 when the variables rule produced a
    finding: the total always lies between 7 and 8.
   */
  lemma ScoresBetweenSevenAndEight(metrics: map<string, int>)
    ensures |RiskFindings(MetricsToEvaluate, metrics)| + |QualityFindings(MetricsToEvaluate, metrics)|
      == 7 + (if Evaluate(MetricsToEvaluate[7], metrics).None? then 0 else 1)
  {
    var rules := MetricsToEvaluate;
    forall k | 0 <= k < 7
      ensures Evaluate(rules[k], metrics).Some?
    {
      ThresholdRule(k, metrics);
    }
    OneFindingPerRule(rules, metrics, 7);
    AppendRule(rules, metrics, 8);
    assert rules[..8] == rules;
  }

  /** The finding lists depend only on each rule's outcome. */
  lemma {:induction false} PointsDependOnRules(rules: seq<Rule>, a: map<string, int>, b: map<string, int>)
    requires forall k :: 0 <= k < |rules| ==> Evaluate(rules[k], a) == Evaluate(rules[k], b)
    ensures RiskFindings(rules, a) == RiskFindings(rules, b)
    ensures QualityFindings(rules, a) == QualityFindings(rules, b)
  {
    if rules != [] {
      PointsDependOnRules(rules[..|rules| - 1], a, b);
    }
  }

  /**
    A missing key reads as 0: adding it with value 0 changes no finding,
    for every key except "loc", which the variables rule reads with default 1.
   */
  lemma MissingKeyCountsAsZero(metrics: map<string, int>, key: string)
    requires key !in metrics && key != "loc"
    ensures RiskFindings(MetricsToEvaluate, metrics) == RiskFindings(MetricsToEvaluate, metrics[key := 0])
    ensures QualityFindings(MetricsToEvaluate, metrics) == QualityFindings(MetricsToEvaluate, metrics[key := 0])
  {
    var b := metrics[key := 0];
    forall k | 0 <= k < |MetricsToEvaluate|
      ensures Evaluate(MetricsToEvaluate[k], metrics) == Evaluate(MetricsToEvaluate[k], b)
    {
      var rule := MetricsToEvaluate[k];
      assert Get(metrics, rule.name, 0) == Get(b, rule.name, 0);
      assert Get(metrics, "loc", 1) == Get(b, "loc", 1);
    }
    PointsDependOnRules(MetricsToEvaluate, metrics, b);
  }

  /**
    A missing "loc" is read as 0 by the size rule but as 1 by the variables
    rule: with one variable and no "loc", the variables rule reports a risk,
    while an explicit "loc" of 0 makes it report a quality finding.
   */
  lemma MissingLocIsNotZero()
    ensures Evaluate(MetricsToEvaluate[7], map["variablesQty" := 1]) == Some(Finding("variablesQty", 1, false))
    ensures Evaluate(MetricsToEvaluate[7], map["variablesQty" := 1, "loc" := 0]) == Some(Finding("variablesQty", 1, true))
  {
    VariablesRule(map["variablesQty" := 1]);
    VariablesRule(map["variablesQty" := 1, "loc" := 0]);
  }

  /** The risk comment is its default sentence exactly when there is no risk finding, and otherwise starts with its prefix. */
  lemma RiskCommentShape(points: seq<string>)
    ensures RiskComment(points) == RiskDefault <==> points == []
    ensures points != [] ==> StartsWith(RiskComment(points), RiskPrefix)
  {
    if points != [] {
      var r := RiskComment(points);
      assert r == RiskPrefix + Join(points, ", ");
      assert r[..|RiskPrefix|] == RiskPrefix;
      assert r[7] == 'c' && RiskDefault[7] == 'a';
    }
  }

  /** The quality comment is its default sentence exactly when there is no quality finding, and otherwise starts with its prefix. */
  lemma QualityCommentShape(points: seq<string>)
    ensures QualityComment(points) == QualityDefault <==> points == []
    ensures points != [] ==> StartsWith(QualityComment(points), QualityPrefix)
  {
    if points != [] {
      var q := QualityComment(points);
      assert q == QualityPrefix + Join(points, ", ");
      assert q[..|QualityPrefix|] == QualityPrefix;
      assert q[0] == 'P' && QualityDefault[0] == 'C';
    }
  }

  /** 200 lines, 2 functions of total complexity 3, nesting 5, 1 loop, 4 comparisons, no try blocks, 10 variables. */
  const MixedMetrics: map<string, int> := map[
    "loc" := 200, "wmc" := 2, "rfc" := 3, "maxNestedBlocks" := 5,
    "loopQty" := 1, "comparisonsQty" := 4, "tryCatchQty" := 0, "variablesQty" := 10]

  /**
    On `MixedMetrics` size and nesting are risks; the other five thresholds
    and the variables ratio (0.05) are qualities.
   */
  lemma MixedScenario()
    ensures RiskFindings(MetricsToEvaluate, MixedMetrics) ==
      [Finding("loc", 200, false), Finding("maxNestedBlocks", 5, false)]
    ensures |QualityFindings(MetricsToEvaluate, MixedMetrics)| == 6
  {
    var m := MixedMetrics;
    var rules := MetricsToEvaluate;
    VariablesRule(m);
    forall k | 0 <= k < 7
      ensures IsRisk(Evaluate(rules[k], m)) <==> k == 0 || k == 3
    {
      ThresholdRule(k, m);
    }
    RisksAtSizeAndNesting(rules, m, 8);
    assert rules[..8] == rules;
    ScoresBetweenSevenAndEight(m);
  }

  /** The outcome is a risk finding. */
  predicate IsRisk(v: Option<Finding>)
  {
    v.Some? && !v.value.positive
  }

  lemma {:induction false} RisksAtSizeAndNesting(rules: seq<Rule>, m: map<string, int>, n: nat)
    requires n <= |rules| == 8
    requires forall k :: 0 <= k < 8 ==> (IsRisk(Evaluate(rules[k], m)) <==> k == 0 || k == 3)
    ensures RiskFindings(rules[..n], m) ==
      if n == 0 then []
      else if n <= 3 then RiskPart(Evaluate(rules[0], m))
      else RiskPart(Evaluate(rules[0], m)) + RiskPart(Evaluate(rules[3], m))
  {
    if n > 0 {
      RisksAtSizeAndNesting(rules, m, n - 1);
      AppendRule(rules, m, n);
    }
  }

  /**
    A dictionary whose values are all 0 (missing keys read as 0 too) is
    classified with no risk and seven quality findings: every threshold
    holds and the variables rule stays silent.
   */
  lemma AllZeroClassification(m: map<string, int>)
    requires forall k :: k in m ==> m[k] == 0
    ensures |RiskFindings(MetricsToEvaluate, m)| == 0 && |QualityFindings(MetricsToEvaluate, m)| == 7
  {
    VariablesRule(m);
    forall k | 0 <= k < 7
      ensures !IsRisk(Evaluate(MetricsToEvaluate[k], m))
    {
      ThresholdRule(k, m);
    }
    NoRiskWhenNoneRisky(MetricsToEvaluate, m);
    ScoresBetweenSevenAndEight(m);
  }

  lemma {:induction false} NoRiskWhenNoneRisky(rules: seq<Rule>, m: map<string, int>)
    requires forall k :: 0 <= k < |rules| ==> !IsRisk(Evaluate(rules[k], m))
    ensures RiskFindings(rules, m) == []
  {
    if rules != [] {
      NoRiskWhenNoneRisky(rules[..|rules| - 1], m);
    }
  }

  /**
    An empty file in a supported language, with no functions found, is
    classified with no risk and seven quality findings.
   */
  lemma EmptyFileClassification(path: string, content: string)
    requires GetLanguageByExtension(Ext(path)).Some? && |content| == 0
    ensures var m := ToDict(Extract(path, content, Some([])).value);
      |RiskFindings(MetricsToEvaluate, m)| == 0 && |QualityFindings(MetricsToEvaluate, m)| == 7
  {
    EmptyFileMetrics(path, content);
    var r := Extract(path, content, Some([])).value;
    ZeroRecordDict(r);
    AllZeroClassification(ToDict(r));
  }

  lemma ZeroRecordDict(r: MetricSet)
    requires IsZeroRecord(r)
    ensures forall k :: k in ToDict(r) ==> ToDict(r)[k] == 0
  {
  }
}
