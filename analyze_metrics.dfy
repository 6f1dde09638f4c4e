/**
  The class-level metric helpers of analyze-metrics.ts, over an abstract
  syntax tree: block nesting depth, cyclomatic complexity, lack of cohesion
  between methods, depth of the inheritance chain, distinct words, and the
  per-class record built from them.

  A `Node`'s children are the ones `forEachChild` visits, in order.
 */
module AnalyzeMetrics {
  import opened Wrappers
  import opened Text
  import opened PyRegex

  /** The operator token of a binary expression, as far as complexity cares. */
  datatype BinaryOperator = AmpersandAmpersand | BarBar | OtherOperator

  /** The syntax kinds the helpers distinguish; every other kind is `OtherKind`. */
  datatype SyntaxKind =
    | Block
    | IfStatement | ForStatement | ForOfStatement | ForInStatement | WhileStatement
    | CaseClause | CatchClause | ConditionalExpression
    | BinaryExpression(op: BinaryOperator)
    | Identifier(text: string)
    | CallExpression
    | OtherKind

  datatype Node = Node(kind: SyntaxKind, children: seq<Node>)

  /** Number of nodes in a tree. */
  function Size(n: Node): nat
  {
    1 + SizeList(n.children)
  }

  /** Number of nodes in a sequence of trees. */
  function SizeList(ns: seq<Node>): nat
  {
    if ns == [] then 0 else Size(ns[0]) + SizeList(ns[1..])
  }

  lemma {:induction false} SizeListAppend(a: seq<Node>, b: seq<Node>)
    ensures SizeList(a + b) == SizeList(a) + SizeList(b)
  {
    if a == [] {
      assert a + b == b;
    } else {
      assert (a + b)[1..] == a[1..] + b;
      SizeListAppend(a[1..], b);
    }
  }

  /** The nodes of a sequence of trees in depth-first pre-order. */
  function Forest(ns: seq<Node>): seq<Node>
    decreases SizeList(ns)
  {
    if ns == [] then []
    else
      assert SizeList(ns) == 1 + SizeList(ns[0].children) + SizeList(ns[1..]);
      [ns[0]] + Forest(ns[0].children) + Forest(ns[1..])
  }

  /** `forEachDescendant` order: every node below `n`, `n` itself excluded. */
  function Descendants(n: Node): seq<Node>
  {
    Forest(n.children)
  }

  lemma {:induction false} ForestAppend(a: seq<Node>, b: seq<Node>)
    ensures Forest(a + b) == Forest(a) + Forest(b)
    decreases |a|
  {
    if a == [] {
      assert a + b == b;
    } else {
      assert (a + b)[0] == a[0];
      assert (a + b)[1..] == a[1..] + b;
      ForestAppend(a[1..], b);
    }
  }

  // ----- getMaxNestedDepth -----

  /** The largest number of `Block` nodes on a downward path starting at `n`. */
  function BlockDepth(n: Node): nat
  {
    (if n.kind.Block? then 1 else 0) + MaxBlockDepth(n.children)
  }

  /** The largest `BlockDepth` among `ns`, 0 for none. */
  function MaxBlockDepth(ns: seq<Node>): (m: nat)
    ensures forall i :: 0 <= i < |ns| ==> BlockDepth(ns[i]) <= m
    ensures ns != [] ==> exists i :: 0 <= i < |ns| && BlockDepth(ns[i]) == m
    ensures ns == [] ==> m == 0
  {
    if ns == [] then 0
    else
      var rest := MaxBlockDepth(ns[..|ns| - 1]);
      var last := BlockDepth(ns[|ns| - 1]);
      assert forall i :: 0 <= i < |ns| - 1 ==> ns[..|ns| - 1][i] == ns[i];
      if last > rest then last else rest
  }

  /**
    `getMaxNestedDepth(node, currentDepth)`: entering a `Block` adds one, and
    the result is the deepest value reached among the children.
   */
  method GetMaxNestedDepth(node: Node, currentDepth: nat) returns (maxDepth: nat)
    ensures maxDepth == currentDepth + BlockDepth(node)
    decreases node
  {
    var depth := currentDepth;
    if node.kind.Block? {
      depth := depth + 1;
    }
    maxDepth := depth;
    var i := 0;
    while i < |node.children|
      invariant 0 <= i <= |node.children|
      invariant maxDepth == depth + MaxBlockDepth(node.children[..i])
    {
      var childDepth := GetMaxNestedDepth(node.children[i], depth);
      assert node.children[..i + 1][..i] == node.children[..i];
      if childDepth > maxDepth {
        maxDepth := childDepth;
      }
      i := i + 1;
    }
    assert node.children[..i] == node.children;
  }

  /** `p` is a sequence of child indices leading down from `n`. */
  predicate IsPath(n: Node, p: seq<nat>)
  {
    p == [] || (p[0] < |n.children| && IsPath(n.children[p[0]], p[1..]))
  }

  /** The path `p` from `n` ends at a leaf. */
  predicate EndsAtLeaf(n: Node, p: seq<nat>)
    requires IsPath(n, p)
  {
    if p == [] then n.children == [] else EndsAtLeaf(n.children[p[0]], p[1..])
  }

  /** Number of `Block` nodes on the path `p` from `n`, `n` included. */
  function BlocksOnPath(n: Node, p: seq<nat>): nat
    requires IsPath(n, p)
  {
    (if n.kind.Block? then 1 else 0) + (if p == [] then 0 else BlocksOnPath(n.children[p[0]], p[1..]))
  }

  /** No downward path meets more blocks than `BlockDepth`. */
  lemma {:induction false} PathBlocksAtMostDepth(n: Node, p: seq<nat>)
    requires IsPath(n, p)
    ensures BlocksOnPath(n, p) <= BlockDepth(n)
  {
    if p != [] {
      PathBlocksAtMostDepth(n.children[p[0]], p[1..]);
    }
  }

  /** Some root-to-leaf path meets exactly `BlockDepth` blocks. */
  lemma {:induction false} DeepestLeafPath(n: Node)
    ensures exists p :: IsPath(n, p) && EndsAtLeaf(n, p) && BlocksOnPath(n, p) == BlockDepth(n)
  {
    if n.children == [] {
      assert IsPath(n, []) && EndsAtLeaf(n, []) && BlocksOnPath(n, []) == BlockDepth(n);
    } else {
      var i :| 0 <= i < |n.children| && BlockDepth(n.children[i]) == MaxBlockDepth(n.children);
      DeepestLeafPath(n.children[i]);
      var q :| IsPath(n.children[i], q) && EndsAtLeaf(n.children[i], q)
        && BlocksOnPath(n.children[i], q) == BlockDepth(n.children[i]);
      var p := [i] + q;
      assert p[1..] == q;
      assert IsPath(n, p) && EndsAtLeaf(n, p) && BlocksOnPath(n, p) == BlockDepth(n);
    }
  }

  /** The nesting depth is 0 exactly when neither `n` nor any node below it is a `Block`. */
  lemma NoBlockIffZeroDepth(n: Node)
    ensures BlockDepth(n) == 0 <==> !n.kind.Block? && forall d :: d in Descendants(n) ==> !d.kind.Block?
  {
    NoBlockInForest(n.children);
  }

  lemma {:induction false} NoBlockInForest(ns: seq<Node>)
    ensures MaxBlockDepth(ns) == 0 <==> forall d :: d in Forest(ns) ==> !d.kind.Block?
    decreases SizeList(ns), 1
  {
    if ns != [] {
      assert SizeList(ns) == Size(ns[0]) + SizeList(ns[1..]);
      NoBlockInTree(ns[0]);
      NoBlockInForest(ns[1..]);
      assert Forest(ns) == [ns[0]] + Forest(ns[0].children) + Forest(ns[1..]);
      var m := MaxBlockDepth(ns);
      if m == 0 {
        assert MaxBlockDepth(ns[1..]) == 0;
      } else {
        var j :| 0 <= j < |ns| && BlockDepth(ns[j]) == m;
        if j > 0 {
          assert ns[1..][j - 1] == ns[j];
        }
      }
    }
  }

  lemma {:induction false} NoBlockInTree(n: Node)
    ensures BlockDepth(n) == 0 <==> !n.kind.Block? && forall d :: d in Forest(n.children) ==> !d.kind.Block?
    decreases Size(n), 0
  {
    NoBlockInForest(n.children);
  }

  // ----- getCyclomaticComplexity -----

  /** Membership in `controlFlowKinds` (every binary expression is listed there). */
  predicate IsControlFlow(k: SyntaxKind)
  {
    k.IfStatement? || k.ForStatement? || k.ForOfStatement? || k.ForInStatement? || k.WhileStatement?
    || k.CaseClause? || k.CatchClause? || k.ConditionalExpression? || k.BinaryExpression?
  }

  /** A binary expression whose operator is `&&` or `||`. */
  predicate IsLogical(k: SyntaxKind)
  {
    k.BinaryExpression? && (k.op == AmpersandAmpersand || k.op == BarBar)
  }

  /** Number of nodes of `ns` whose kind is a control-flow kind. */
  function CountControlFlow(ns: seq<Node>): nat
  {
    if ns == [] then 0
    else CountControlFlow(ns[..|ns| - 1]) + (if IsControlFlow(ns[|ns| - 1].kind) then 1 else 0)
  }

  /** Number of nodes of `ns` that are `&&` or `||` expressions. */
  function CountLogical(ns: seq<Node>): nat
  {
    if ns == [] then 0
    else CountLogical(ns[..|ns| - 1]) + (if IsLogical(ns[|ns| - 1].kind) then 1 else 0)
  }

  /**
    The complexity of a method node: 1, plus one per control-flow
    descendant, plus one more per `&&`/`||` descendant.
   */
  function Complexity(m: Node): nat
  {
    1 + CountControlFlow(Descendants(m)) + CountLogical(Descendants(m))
  }

  /** `getCyclomaticComplexity(method)`: a counter bumped while walking the descendants. */
  method GetCyclomaticComplexity(m: Node) returns (complexity: nat)
    ensures complexity == Complexity(m)
  {
    complexity := 1;
    var pending := m.children;
    ghost var visited: seq<Node> := [];
    while pending != []
      invariant Descendants(m) == visited + Forest(pending)
      invariant complexity == 1 + CountControlFlow(visited) + CountLogical(visited)
      decreases SizeList(pending)
    {
      var d := pending[0];
      VisitStep(pending);
      CountStep(visited, d);
      var kind := d.kind;
      if IsControlFlow(kind) {
        complexity := complexity + 1;
      }
      if kind.BinaryExpression? {
        if kind.op == AmpersandAmpersand || kind.op == BarBar {
          complexity := complexity + 1;
        }
      }
      visited := visited + [d];
      pending := d.children + pending[1..];
    }
    assert visited + [] == visited;
  }

  /** Visiting the first pending node replaces it by its children, ahead of the rest. */
  lemma VisitStep(pending: seq<Node>)
    requires pending != []
    ensures Forest(pending) == [pending[0]] + Forest(pending[0].children + pending[1..])
    ensures SizeList(pending[0].children + pending[1..]) < SizeList(pending)
  {
    var d := pending[0];
    ForestAppend(d.children, pending[1..]);
    SizeListAppend(d.children, pending[1..]);
  }

  lemma CountStep(visited: seq<Node>, d: Node)
    ensures CountControlFlow(visited + [d]) == CountControlFlow(visited) + (if IsControlFlow(d.kind) then 1 else 0)
    ensures CountLogical(visited + [d]) == CountLogical(visited) + (if IsLogical(d.kind) then 1 else 0)
  {
    assert (visited + [d])[..|visited|] == visited;
  }

  /** A leaf `&&` adds two to its method's complexity; an arithmetic `+` adds one. */
  lemma BinaryExpressionWeights()
    ensures Complexity(Node(OtherKind, [Node(BinaryExpression(AmpersandAmpersand), [])])) == 3
    ensures Complexity(Node(OtherKind, [Node(BinaryExpression(BarBar), [])])) == 3
    ensures Complexity(Node(OtherKind, [Node(BinaryExpression(OtherOperator), [])])) == 2
    ensures Complexity(Node(OtherKind, [])) == 1
  {
    var and := Node(BinaryExpression(AmpersandAmpersand), []);
    var or := Node(BinaryExpression(BarBar), []);
    var plus := Node(BinaryExpression(OtherOperator), []);
    assert Forest([and]) == [and] by { assert [and][1..] == []; }
    assert Forest([or]) == [or] by { assert [or][1..] == []; }
    assert Forest([plus]) == [plus] by { assert [plus][1..] == []; }
    assert [and][..0] == [] && [or][..0] == [] && [plus][..0] == [];
  }

  // ----- calculateLCOM -----

  /** Texts of the identifier nodes among `ns`, in order. */
  function IdentifierTexts(ns: seq<Node>): (ts: seq<string>)
    ensures |ts| <= |ns|
    ensures forall t :: t in ts <==> exists k :: 0 <= k < |ns| && ns[k].kind == Identifier(t)
  {
    if ns == [] then []
    else IdentifierTexts(ns[..|ns| - 1]) + (if ns[|ns| - 1].kind.Identifier? then [ns[|ns| - 1].kind.text] else [])
  }

  /** The fields a method mentions: its identifier texts that name a property. */
  function Accessed(m: Node, fields: seq<string>): set<string>
  {
    set x | x in IdentifierTexts(Descendants(m)) && x in fields
  }

  /** Two methods share a field when some field is accessed by both. */
  predicate Shares(a: Node, b: Node, fields: seq<string>)
  {
    Accessed(a, fields) * Accessed(b, fields) != {}
  }

  /** Pairs (i, j) with i < j < hi whose methods share a field. */
  function SharedWith(ms: seq<Node>, fields: seq<string>, i: nat, hi: nat): nat
    requires i < |ms| && hi <= |ms|
  {
    if hi <= i + 1 then 0
    else SharedWith(ms, fields, i, hi - 1) + (if Shares(ms[i], ms[hi - 1], fields) then 1 else 0)
  }

  /** Pairs (i, j) with i < j < hi whose methods share no field. */
  function NotSharedWith(ms: seq<Node>, fields: seq<string>, i: nat, hi: nat): nat
    requires i < |ms| && hi <= |ms|
  {
    if hi <= i + 1 then 0
    else NotSharedWith(ms, fields, i, hi - 1) + (if Shares(ms[i], ms[hi - 1], fields) then 0 else 1)
  }

  /** Sharing pairs whose first index is below `n`. */
  function SharedBelow(ms: seq<Node>, fields: seq<string>, n: nat): nat
    requires n <= |ms|
  {
    if n == 0 then 0 else SharedBelow(ms, fields, n - 1) + SharedWith(ms, fields, n - 1, |ms|)
  }

  /** Non-sharing pairs whose first index is below `n`. */
  function NotSharedBelow(ms: seq<Node>, fields: seq<string>, n: nat): nat
    requires n <= |ms|
  {
    if n == 0 then 0 else NotSharedBelow(ms, fields, n - 1) + NotSharedWith(ms, fields, n - 1, |ms|)
  }

  /** The LCOM value: non-sharing pairs minus sharing pairs, floored at 0. */
  function Lcom(ms: seq<Node>, fields: seq<string>): nat
  {
    var s := SharedBelow(ms, fields, |ms|);
    var ns := NotSharedBelow(ms, fields, |ms|);
    if ns > s then ns - s else 0
  }

  /** The inner loop of `calculateLCOM`: the pairs (i, j), j > i, that share a field and those that do not. */
  method CountRow(methods: seq<Node>, fields: seq<string>, i: nat) returns (shared: nat, nonShared: nat)
    requires i < |methods|
    ensures shared == SharedWith(methods, fields, i, |methods|)
    ensures nonShared == NotSharedWith(methods, fields, i, |methods|)
  {
    shared, nonShared := 0, 0;
    var j := i + 1;
    while j < |methods|
      invariant i + 1 <= j <= |methods|
      invariant shared == SharedWith(methods, fields, i, j)
      invariant nonShared == NotSharedWith(methods, fields, i, j)
    {
      var accessedByA := Accessed(methods[i], fields);
      var accessedByB := Accessed(methods[j], fields);
      if accessedByA * accessedByB != {} {
        shared := shared + 1;
      } else {
        nonShared := nonShared + 1;
      }
      j := j + 1;
    }
  }

  /** `calculateLCOM(cls)` over the class's methods and property names. */
  method CalculateLcom(methods: seq<Node>, fields: seq<string>) returns (lcom: nat)
    ensures lcom == Lcom(methods, fields)
  {
    var nonSharedPairs: int := 0;
    var sharedPairs: int := 0;
    var i := 0;
    while i < |methods|
      invariant 0 <= i <= |methods|
      invariant sharedPairs == SharedBelow(methods, fields, i)
      invariant nonSharedPairs == NotSharedBelow(methods, fields, i)
    {
      var shared, nonShared := CountRow(methods, fields, i);
      sharedPairs := sharedPairs + shared;
      nonSharedPairs := nonSharedPairs + nonShared;
      i := i + 1;
    }
    lcom := if nonSharedPairs - sharedPairs > 0 then nonSharedPairs - sharedPairs else 0;
  }

  lemma {:induction false} RowPairs(ms: seq<Node>, fields: seq<string>, i: nat, hi: nat)
    requires i < |ms| && hi <= |ms|
    ensures SharedWith(ms, fields, i, hi) + NotSharedWith(ms, fields, i, hi) == if hi <= i + 1 then 0 else hi - i - 1
  {
    if hi > i + 1 {
      RowPairs(ms, fields, i, hi - 1);
    }
  }

  /** Twice the number of pairs (i, j) with i < j < total and i < n. */
  function PairsBelow(total: nat, n: nat): nat
    requires n <= total
  {
    if n == 0 then 0 else PairsBelow(total, n - 1) + (total - n)
  }

  lemma {:induction false} AllPairs(ms: seq<Node>, fields: seq<string>, n: nat)
    requires n <= |ms|
    ensures SharedBelow(ms, fields, n) + NotSharedBelow(ms, fields, n) == PairsBelow(|ms|, n)
  {
    if n > 0 {
      AllPairs(ms, fields, n - 1);
      RowPairs(ms, fields, n - 1, |ms|);
    }
  }

  lemma {:induction false} PairsBelowClosedForm(total: nat, n: nat)
    requires n <= total
    ensures 2 * PairsBelow(total, n) == n * (2 * total - n - 1)
  {
    if n > 0 {
      PairsBelowClosedForm(total, n - 1);
    }
  }

  /**
    Every unordered pair of methods is counted exactly once, as sharing or
    as not sharing: the two counts add up to n(n-1)/2, which also bounds
    the LCOM value.
   */
  lemma PairsPartition(ms: seq<Node>, fields: seq<string>)
    ensures 2 * (SharedBelow(ms, fields, |ms|) + NotSharedBelow(ms, fields, |ms|)) == |ms| * (|ms| - 1)
    ensures 2 * Lcom(ms, fields) <= |ms| * (|ms| - 1)
  {
    AllPairs(ms, fields, |ms|);
    PairsBelowClosedForm(|ms|, |ms|);
  }

  /** A class with fewer than two methods has LCOM 0. */
  lemma FewMethodsNoLcom(ms: seq<Node>, fields: seq<string>)
    requires |ms| < 2
    ensures Lcom(ms, fields) == 0
  {
    PairsPartition(ms, fields);
  }

  /** Two methods that touch no field form one non-sharing pair: LCOM 1. */
  lemma TwoFieldlessMethods(a: Node, b: Node, fields: seq<string>)
    requires Accessed(a, fields) == {} && Accessed(b, fields) == {}
    ensures Lcom([a, b], fields) == 1
  {
    var ms := [a, b];
    assert !Shares(ms[0], ms[1], fields);
    assert NotSharedWith(ms, fields, 0, 2) == 1 by {
      assert NotSharedWith(ms, fields, 0, 1) == 0;
    }
    assert SharedWith(ms, fields, 0, 2) == 0 by {
      assert SharedWith(ms, fields, 0, 1) == 0;
    }
    assert SharedWith(ms, fields, 1, 2) == 0 && NotSharedWith(ms, fields, 1, 2) == 0;
    assert SharedBelow(ms, fields, 2) == SharedBelow(ms, fields, 1) + SharedWith(ms, fields, 1, 2);
    assert SharedBelow(ms, fields, 1) == SharedWith(ms, fields, 0, 2);
    assert NotSharedBelow(ms, fields, 2) == NotSharedBelow(ms, fields, 1) + NotSharedWith(ms, fields, 1, 2);
    assert NotSharedBelow(ms, fields, 1) == NotSharedWith(ms, fields, 0, 2);
  }

  // ----- calculateDIT -----

  /**
    A class as the metric pass sees it: its name (absent for an anonymous
    class), the text of its `extends` expression, its syntax tree, its
    methods, its property names, for each constructor parameter whether it
    carries an accessibility modifier, and its source text.
   */
  datatype ClassDecl = ClassDecl(
    name: Option<string>,
    extendsName: Option<string>,
    node: Node,
    methods: seq<Node>,
    properties: seq<string>,
    constructorParamsScoped: seq<bool>,
    text: string)

  /** The first class of the project with the given name (`find`). */
  function FindClass(project: seq<ClassDecl>, name: string): (r: Option<ClassDecl>)
    ensures r.Some? ==> r.value in project && r.value.name == Some(name)
    ensures r.Some? ==> exists k ::
      && 0 <= k < |project|
      && project[k] == r.value
      && (forall j :: 0 <= j < k ==> project[j].name != Some(name))
    ensures r.None? ==> forall c :: c in project ==> c.name != Some(name)
  {
    if project == [] then None
    else if project[0].name == Some(name) then Some(project[0])
    else FindClass(project[1..], name)
  }

  /** The declaration `cls` extends, when it has an `extends` clause that resolves. */
  function BaseOf(project: seq<ClassDecl>, cls: ClassDecl): Option<ClassDecl>
  {
    if cls.extendsName.None? then None else FindClass(project, cls.extendsName.value)
  }

  /** Following `BaseOf` from `cls` resolves exactly `n` links and then stops. */
  predicate ChainLength(project: seq<ClassDecl>, cls: ClassDecl, n: nat)
    decreases n
  {
    if n == 0 then BaseOf(project, cls).None?
    else BaseOf(project, cls).Some? && ChainLength(project, BaseOf(project, cls).value, n - 1)
  }

  /** A chain has at most one length. */
  lemma {:induction false} ChainLengthUnique(project: seq<ClassDecl>, cls: ClassDecl, a: nat, b: nat)
    requires ChainLength(project, cls, a) && ChainLength(project, cls, b)
    ensures a == b
    decreases a
  {
    if a > 0 && b > 0 {
      ChainLengthUnique(project, BaseOf(project, cls).value, a - 1, b - 1);
    }
  }

  /**
    `calculateDIT(cls)`: follows `extends` links until a class has none or its
    base is not declared in the project. The loop has no visited set, so it
    ends only when the chain does; callers must supply a class whose chain
    ends.
   */
  method CalculateDit(project: seq<ClassDecl>, cls: ClassDecl) returns (level: nat)
    requires exists n: nat :: ChainLength(project, cls, n)
    ensures ChainLength(project, cls, level)
    ensures forall n :: ChainLength(project, cls, n) ==> n == level
  {
    ghost var total: nat :| ChainLength(project, cls, total);
    level := 0;
    var current := cls;
    while true
      invariant level <= total
      invariant ChainLength(project, current, total - level)
      invariant forall k: nat :: ChainLength(project, current, k) ==> ChainLength(project, cls, level + k)
      decreases total - level
    {
      if current.extendsName.None? {
        break;
      }
      var baseName := current.extendsName.value;
      var baseDeclaration := FindClass(project, baseName);
      if baseDeclaration.None? {
        break;
      }
      forall k: nat | ChainLength(project, baseDeclaration.value, k)
        ensures ChainLength(project, cls, level + 1 + k)
      {
        assert ChainLength(project, current, k + 1);
      }
      level := level + 1;
      current := baseDeclaration.value;
    }
    assert ChainLength(project, current, 0);
    forall n | ChainLength(project, cls, n)
      ensures n == level
    {
      ChainLengthUnique(project, cls, n, level);
    }
  }

  /** A class whose `extends` names itself (and resolves to itself) has no finite chain. */
  lemma SelfExtendingHasNoDepth(project: seq<ClassDecl>, cls: ClassDecl)
    requires BaseOf(project, cls) == Some(cls)
    ensures forall n :: !ChainLength(project, cls, n)
  {
    forall n | ChainLength(project, cls, n)
      ensures false
    {
      SelfChainImpossible(project, cls, n);
    }
  }

  lemma {:induction false} SelfChainImpossible(project: seq<ClassDecl>, cls: ClassDecl, n: nat)
    requires BaseOf(project, cls) == Some(cls)
    ensures !ChainLength(project, cls, n)
  {
    if n > 0 {
      SelfChainImpossible(project, cls, n - 1);
    }
  }

  /** A class without `extends`, or whose base is not declared in the project, has depth 0. */
  lemma UnresolvedBaseHasDepthZero(project: seq<ClassDecl>, cls: ClassDecl)
    requires cls.extendsName.None? || forall c :: c in project ==> c.name != cls.extendsName
    ensures ChainLength(project, cls, 0)
  {
  }

  // ----- countUniqueWords -----

  /** Length of the leading run of word characters. */
  function WordLength(s: string): (n: nat)
    ensures n <= |s|
    ensures forall j :: 0 <= j < n ==> IsWordChar(s[j])
    ensures n == |s| || !IsWordChar(s[n])
  {
    if s == [] || !IsWordChar(s[0]) then 0 else 1 + WordLength(s[1..])
  }

  /** The matches of `/\b\w+\b/g`: the maximal runs of word characters, in order. */
  function Words(s: string): (ws: seq<string>)
    ensures forall k :: 0 <= k < |ws| ==> ws[k] != [] && forall j :: 0 <= j < |ws[k]| ==> IsWordChar(ws[k][j])
    decreases |s|
  {
    if s == [] then []
    else if !IsWordChar(s[0]) then Words(s[1..])
    else
      var n := WordLength(s);
      [s[..n]] + Words(s[n..])
  }

  /** No character of `w` is a word character. */
  predicate NoWordChar(w: string)
  {
    forall j :: 0 <= j < |w| ==> !IsWordChar(w[j])
  }

  /** The non-word text around and between the words of `s`: one gap more than there are words. */
  function WordGaps(s: string): (gs: seq<string>)
    ensures |gs| == |Words(s)| + 1
    decreases |s|
  {
    if s == [] then [""]
    else if !IsWordChar(s[0]) then
      var g := WordGaps(s[1..]);
      [[s[0]] + g[0]] + g[1..]
    else [""] + WordGaps(s[WordLength(s)..])
  }

  lemma {:induction false} WordGapsSeparateWords(s: string)
    ensures s == Interleave(WordGaps(s), Words(s))
    ensures forall k :: 0 <= k < |WordGaps(s)| ==> NoWordChar(WordGaps(s)[k])
    ensures forall k :: 0 < k < |WordGaps(s)| - 1 ==> WordGaps(s)[k] != []
    decreases |s|
  {
    if s == [] {
    } else if !IsWordChar(s[0]) {
      var g := WordGaps(s[1..]);
      WordGapsSeparateWords(s[1..]);
      InterleavePrepend([s[0]], g, Words(s[1..]));
      assert [s[0]] + s[1..] == s;
      assert NoWordChar([s[0]] + g[0]);
    } else {
      var n := WordLength(s);
      var g := WordGaps(s[n..]);
      WordGapsSeparateWords(s[n..]);
      assert s[..n] + s[n..] == s;
      assert Interleave([""] + g, [s[..n]] + Words(s[n..])) == "" + s[..n] + Interleave(g, Words(s[n..]));
      if |g| > 1 {
        assert s[n..] != [] && !IsWordChar(s[n..][0]);
      }
    }
  }

  /**
    The matches of `\b\w+\b` are exactly the maximal runs of word characters,
    in order: `s` is its words interleaved with word-free gaps, every gap
    between two words being non-empty.
   */
  lemma WordsAreMaximalRuns(s: string)
    ensures exists gs ::
      && |gs| == |Words(s)| + 1
      && s == Interleave(gs, Words(s))
      && (forall k :: 0 <= k < |gs| ==> NoWordChar(gs[k]))
      && (forall k :: 0 < k < |gs| - 1 ==> gs[k] != [])
  {
    WordGapsSeparateWords(s);
  }

  /** `countUniqueWords(text)`: 0 when nothing matches, else the number of distinct matches. */
  function CountUniqueWords(text: string): (n: nat)
    ensures n <= |Words(text)|
  {
    var ws := Words(text);
    DistinctAtMostLength(ws);
    if ws == [] then 0 else |set w | w in ws|
  }

  /** No word is found exactly when the text has no word character. */
  lemma {:induction false} NoWordsIffNoWordChars(s: string)
    ensures Words(s) == [] <==> forall j :: 0 <= j < |s| ==> !IsWordChar(s[j])
    decreases |s|
  {
    if s != [] && !IsWordChar(s[0]) {
      NoWordsIffNoWordChars(s[1..]);
      assert forall j :: 1 <= j < |s| ==> s[1..][j - 1] == s[j];
    }
  }

  /** The distinct-word count is 0 exactly when the text has no word character, and at least 1 otherwise. */
  lemma UniqueWordsZeroIff(text: string)
    ensures CountUniqueWords(text) == 0 <==> forall j :: 0 <= j < |text| ==> !IsWordChar(text[j])
  {
    NoWordsIffNoWordChars(text);
    var ws := Words(text);
    if ws != [] {
      var distinct := set w | w in ws;
      assert ws[0] in distinct;
      assert distinct != {};
    }
  }

  // ----- The per-class record -----

  /** The per-class record the metric pass emits, without its file path and the library-counted fields. */
  datatype ClassMetric = ClassMetric(
    className: string, loc: nat, cbo: nat, wmc: nat, dit: nat, rfc: nat, lcom: nat,
    totalMethods: nat, totalFields: nat, variablesQty: nat, maxNestedBlocks: int, uniqueWordsQty: nat)

  /** `cls.getName() || "Unnamed"`. */
  function ClassName(cls: ClassDecl): string
  {
    if cls.name.Some? && cls.name.value != "" then cls.name.value else "Unnamed"
  }

  /** Sum of the complexities of `ms`. */
  function SumComplexity(ms: seq<Node>): nat
  {
    if ms == [] then 0 else SumComplexity(ms[..|ms| - 1]) + Complexity(ms[|ms| - 1])
  }

  /** Callee texts of the calls among `ns` whose callee is a bare identifier. */
  function CalledNames(ns: seq<Node>): seq<string>
  {
    if ns == [] then []
    else
      var last := ns[|ns| - 1];
      CalledNames(ns[..|ns| - 1])
      + (if last.kind.CallExpression? && last.children != [] && last.children[0].kind.Identifier?
         then [last.children[0].kind.text] else [])
  }

  /** Number of `true` entries. */
  function CountTrue(bs: seq<bool>): nat
  {
    if bs == [] then 0 else (if bs[0] then 1 else 0) + CountTrue(bs[1..])
  }

  /**
    One class's record. `fileText` is the full text of its source file.
    `totalFields` adds the property count to (property count + scoped
    constructor parameters), so properties are counted twice.
   */
  method MeasureClass(project: seq<ClassDecl>, cls: ClassDecl, fileText: string) returns (m: ClassMetric)
    requires exists n: nat :: ChainLength(project, cls, n)
    ensures m.className == ClassName(cls)
    ensures m.loc == CountIn(fileText, {'\n'}) + 1
    ensures m.cbo == |set x | x in IdentifierTexts(Descendants(cls.node)) && x != ClassName(cls)|
    ensures m.wmc == SumComplexity(cls.methods)
    ensures ChainLength(project, cls, m.dit)
    ensures m.rfc == |set x | x in CalledNames(Descendants(cls.node))| + |cls.methods|
    ensures m.lcom == Lcom(cls.methods, cls.properties)
    ensures m.totalMethods == |cls.methods|
    ensures m.totalFields == 2 * |cls.properties| + CountTrue(cls.constructorParamsScoped)
    ensures m.variablesQty == |cls.properties|
    ensures m.maxNestedBlocks == BlockDepth(cls.node) - 1
    ensures m.uniqueWordsQty == CountUniqueWords(cls.text)
  {
    var loc := |Split(fileText, '\n')|;
    var className := ClassName(cls);
    var calledMethods := set x | x in CalledNames(Descendants(cls.node));
    var cbo := set x | x in IdentifierTexts(Descendants(cls.node)) && x != className;
    var totalFields := |cls.properties| + CountTrue(cls.constructorParamsScoped);
    var depth := GetMaxNestedDepth(cls.node, 0);
    var maxNested := (depth as int) - 1;
    var wmc := 0;
    var i := 0;
    while i < |cls.methods|
      invariant 0 <= i <= |cls.methods|
      invariant wmc == SumComplexity(cls.methods[..i])
    {
      var c := GetCyclomaticComplexity(cls.methods[i]);
      assert cls.methods[..i + 1][..i] == cls.methods[..i];
      wmc := wmc + c;
      i := i + 1;
    }
    assert cls.methods[..i] == cls.methods;
    var dit := CalculateDit(project, cls);
    var lcom := CalculateLcom(cls.methods, cls.properties);
    m := ClassMetric(
      className := className,
      loc := loc,
      cbo := |cbo|,
      wmc := wmc,
      dit := dit,
      rfc := |calledMethods| + |cls.methods|,
      lcom := lcom,
      totalMethods := |cls.methods|,
      totalFields := |cls.properties| + totalFields,
      variablesQty := |cls.properties|,
      maxNestedBlocks := maxNested,
      uniqueWordsQty := CountUniqueWords(cls.text));
  }

  /**
    The class's nesting figure is -1 exactly when its subtree holds no
    `Block` at all, and never below -1.
   */
  lemma MaxNestedMinusOneIffNoBlock(cls: ClassDecl)
    ensures BlockDepth(cls.node) - 1 >= -1
    ensures BlockDepth(cls.node) - 1 == -1 <==>
      !cls.node.kind.Block? && forall d :: d in Descendants(cls.node) ==> !d.kind.Block?
  {
    NoBlockIffZeroDepth(cls.node);
  }

  /** The `wmc` of a class is at least its method count, since each method's complexity is at least 1. */
  lemma {:induction false} WmcAtLeastMethodCount(ms: seq<Node>)
    ensures SumComplexity(ms) >= |ms|
  {
    if ms != [] {
      WmcAtLeastMethodCount(ms[..|ms| - 1]);
    }
  }
}
