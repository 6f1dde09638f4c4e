/**
  The handful of Python regular expressions the metric extractor counts with,
  and `len(re.findall(pattern, text))`: a left-to-right scan that, after a
  match, resumes at the match's end (so matches never overlap) and otherwise
  moves on by one character. None of the patterns here matches the empty
  string.
 */
module PyRegex {
  import opened Wrappers
  import opened Text
  import opened PyStr

  /** `\w` on ASCII text. */
  predicate IsWordChar(c: char)
  {
    ('a' <= c <= 'z') || ('A' <= c <= 'Z') || ('0' <= c <= '9') || c == '_'
  }

  /** `\d` on ASCII text. */
  predicate IsDigit(c: char)
  {
    '0' <= c <= '9'
  }

  /** `\b`: a word character on exactly one side of position `i`. */
  predicate AtBoundary(s: string, i: nat)
    requires i <= |s|
  {
    (i > 0 && IsWordChar(s[i - 1])) != (i < |s| && IsWordChar(s[i]))
  }

  /** `s[i:].startswith(lit)`. */
  predicate HasAt(s: string, i: nat, lit: string)
  {
    i + |lit| <= |s| && s[i..i + |lit|] == lit
  }

  /** Length of the run of `\s` characters starting at `i`. */
  function SpaceRun(s: string, i: nat): (n: nat)
    requires i <= |s|
    ensures i + n <= |s|
    ensures forall j :: i <= j < i + n ==> IsSpace(s[j])
    ensures i + n == |s| || !IsSpace(s[i + n])
    decreases |s| - i
  {
    if i < |s| && IsSpace(s[i]) then 1 + SpaceRun(s, i + 1) else 0
  }

  /** Length of the run of `\d` characters starting at `i`. */
  function DigitRun(s: string, i: nat): (n: nat)
    requires i <= |s|
    ensures i + n <= |s|
    ensures forall j :: i <= j < i + n ==> IsDigit(s[j])
    ensures i + n == |s| || !IsDigit(s[i + n])
    decreases |s| - i
  {
    if i < |s| && IsDigit(s[i]) then 1 + DigitRun(s, i + 1) else 0
  }

  /** The array methods the loop counter recognises after a '.'. */
  const ArrayMethods: seq<string> := ["forEach", "map", "filter", "reduce", "some", "every"]

  /** The first of `names` found at position `i` (the regex alternation tries them in order). */
  function FirstNameAt(s: string, i: nat, names: seq<string>): (r: Option<string>)
    ensures r.Some? ==> r.value in names && HasAt(s, i, r.value)
    ensures r.None? ==> forall k :: 0 <= k < |names| ==> !HasAt(s, i, names[k])
  {
    if names == [] then None
    else if HasAt(s, i, names[0]) then Some(names[0])
    else FirstNameAt(s, i, names[1..])
  }

  datatype Pattern =
    | Keyword(word: string)                 // \bword\b
    | KeywordOpen(word: string, open: char) // \bword\s*\(   or   \bdo\s*\{
    | ArrayMethodCall                       // \.(forEach|map|filter|reduce|some|every)\s*\(
    | Literal(text: string)                 // a plain string such as == or >
    | AnyOf(chars: set<char>)               // ["']
    | WholeNumber                           // \b\d+\b
    | Assignment                            // [^=!<>]=[^=]

  /**
    Length of the match of `p` starting at position `i`, or 0 when `p` does
    not match there.
   */
  function MatchLength(p: Pattern, s: string, i: nat): (n: nat)
    requires i <= |s|
    ensures i + n <= |s|
  {
    match p
    case Keyword(w) =>
      if |w| > 0 && AtBoundary(s, i) && HasAt(s, i, w) && AtBoundary(s, i + |w|) then |w| else 0
    case KeywordOpen(w, open) =>
      if AtBoundary(s, i) && HasAt(s, i, w) then
        var j := i + |w| + SpaceRun(s, i + |w|);
        if j < |s| && s[j] == open && !IsSpace(open) then j + 1 - i else 0
      else 0
    case ArrayMethodCall =>
      if i < |s| && s[i] == '.' then
        match FirstNameAt(s, i + 1, ArrayMethods)
        case None => 0
        case Some(name) =>
          var j := i + 1 + |name| + SpaceRun(s, i + 1 + |name|);
          if j < |s| && s[j] == '(' then j + 1 - i else 0
      else 0
    case Literal(t) =>
      if |t| > 0 && HasAt(s, i, t) then |t| else 0
    case AnyOf(cs) =>
      if i < |s| && s[i] in cs then 1 else 0
    case WholeNumber =>
      if i < |s| && IsDigit(s[i]) && AtBoundary(s, i) && AtBoundary(s, i + DigitRun(s, i))
      then DigitRun(s, i) else 0
    case Assignment =>
      if i + 3 <= |s| && s[i] !in {'=', '!', '<', '>'} && s[i + 1] == '=' && s[i + 2] != '='
      then 3 else 0
  }

  /** The number of matches `findall` reports in `s[i..]`. */
  function CountFrom(p: Pattern, s: string, i: nat): nat
    requires i <= |s|
    decreases |s| - i
  {
    if i == |s| then 0
    else
      var m := MatchLength(p, s, i);
      if m == 0 then CountFrom(p, s, i + 1) else 1 + CountFrom(p, s, i + m)
  }

  /** `len(re.findall(p, s))`. */
  function FindAllCount(p: Pattern, s: string): nat
  {
    CountFrom(p, s, 0)
  }

  /** `findall` reports nothing exactly when the pattern matches at no position. */
  lemma {:induction false} CountZeroIff(p: Pattern, s: string, i: nat)
    requires i <= |s|
    ensures CountFrom(p, s, i) == 0 <==> forall j :: i <= j < |s| ==> MatchLength(p, s, j) == 0
    decreases |s| - i
  {
    if i < |s| && MatchLength(p, s, i) == 0 {
      CountZeroIff(p, s, i + 1);
    }
  }

  /**
    For a pattern that matches exactly the single characters of `cs`,
    `findall` counts the occurrences of those characters.
   */
  lemma {:induction false} CountSingleChars(p: Pattern, s: string, cs: set<char>, i: nat)
    requires i <= |s|
    requires forall j :: i <= j < |s| ==> MatchLength(p, s, j) == (if s[j] in cs then 1 else 0)
    ensures CountFrom(p, s, i) == CountIn(s[i..], cs)
    decreases |s| - i
  {
    if i < |s| {
      CountSingleChars(p, s, cs, i + 1);
      assert s[i..][1..] == s[i + 1..];
    }
  }

  /** `len(re.findall(c, s))` for a one-character literal is `s.count(c)`. */
  lemma CountLiteralChar(s: string, c: char)
    ensures FindAllCount(Literal([c]), s) == CountIn(s, {c})
  {
    forall j | 0 <= j < |s|
      ensures MatchLength(Literal([c]), s, j) == (if s[j] in {c} then 1 else 0)
    {
      if HasAt(s, j, [c]) { assert s[j..j + 1][0] == s[j]; }
    }
    CountSingleChars(Literal([c]), s, {c}, 0);
    assert s[0..] == s;
  }

  /** `len(re.findall(r'["\']', s))` is the number of quote characters. */
  lemma CountAnyOf(s: string, cs: set<char>)
    ensures FindAllCount(AnyOf(cs), s) == CountIn(s, cs)
  {
    CountSingleChars(AnyOf(cs), s, cs, 0);
    assert s[0..] == s;
  }
}
