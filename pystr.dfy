/**
  Python `str` operations the metric extractor and the file filter rely on:
  the whitespace test shared by `strip()`, `split()` and the regular
  expression class `\s`, stripping, prefix and substring tests, whitespace
  tokenisation and lower-casing.
 */
module PyStr {
  import opened Text

  /** Python's `str.isspace()` for one character (also what `\s` matches in a `str` pattern). */
  predicate IsSpace(c: char)
  {
    var n := c as int;
    (9 <= n <= 13) || (28 <= n <= 32) || n == 0x85 || n == 0xA0 || n == 0x1680
    || (0x2000 <= n <= 0x200A) || n == 0x2028 || n == 0x2029 || n == 0x202F
    || n == 0x205F || n == 0x3000
  }

  /** `s.lstrip()`: drops the leading whitespace and nothing else. */
  function LStrip(s: string): (r: string)
    ensures |r| <= |s| && r == s[|s| - |r|..]
    ensures forall j :: 0 <= j < |s| - |r| ==> IsSpace(s[j])
    ensures r == [] || !IsSpace(r[0])
  {
    if s != [] && IsSpace(s[0]) then LStrip(s[1..]) else s
  }

  /** `s.rstrip()`: drops the trailing whitespace and nothing else. */
  function RStrip(s: string): (r: string)
    ensures |r| <= |s| && r == s[..|r|]
    ensures forall j :: |r| <= j < |s| ==> IsSpace(s[j])
    ensures r == [] || !IsSpace(r[|r| - 1])
  {
    if s != [] && IsSpace(s[|s| - 1]) then RStrip(s[..|s| - 1]) else s
  }

  /** `s.strip()`. */
  function Strip(s: string): (r: string)
  {
    RStrip(LStrip(s))
  }

  /** A stripped string begins and ends with a non-space, and stripping it again changes nothing. */
  lemma StripIsStripped(s: string)
    ensures Strip(s) == [] || (!IsSpace(Strip(s)[0]) && !IsSpace(Strip(s)[|Strip(s)| - 1]))
    ensures LStrip(Strip(s)) == Strip(s)
    ensures RStrip(Strip(s)) == Strip(s)
    ensures Strip(Strip(s)) == Strip(s)
  {
    var l := LStrip(s);
    var r := RStrip(l);
    if r != [] {
      assert r[0] == l[0];
    }
  }

  /** `r` is a slice of `s` and everything cut off on either side is whitespace. */
  predicate TrimmedSlice(r: string, s: string)
  {
    exists i, j ::
      && 0 <= i <= j <= |s|
      && r == s[i..j]
      && (forall t :: 0 <= t < i ==> IsSpace(s[t]))
      && (forall t :: j <= t < |s| ==> IsSpace(s[t]))
  }

  /** `s.strip()` is `s` with whitespace cut off its ends, and it has none left at either end. */
  lemma StripTrimsSpace(s: string)
    ensures TrimmedSlice(Strip(s), s)
  {
    var l := LStrip(s);
    var r := RStrip(l);
    var i := |s| - |l|;
    var j := i + |r|;
    assert r == l[..|r|] && l == s[i..];
    assert r == s[i..j];
    assert forall t :: 0 <= t < i ==> IsSpace(s[t]);
    assert forall t :: j <= t < |s| ==> IsSpace(s[t]) by {
      forall t | j <= t < |s|
        ensures IsSpace(s[t])
      {
        assert s[t] == l[t - i];
      }
    }
    assert Strip(s) == r;
  }

  /** `s.startswith(prefix)`. */
  predicate StartsWith(s: string, prefix: string)
  {
    |prefix| <= |s| && s[..|prefix|] == prefix
  }

  /** `s.endswith(suffix)`. */
  predicate EndsWith(s: string, suffix: string)
  {
    |suffix| <= |s| && s[|s| - |suffix|..] == suffix
  }

  /** `needle in s` for two strings: a case-sensitive substring test. */
  predicate Contains(s: string, needle: string)
  {
    ContainsFrom(s, needle, 0)
  }

  /** `needle` occurs in `s` at some position `i` or later. */
  predicate ContainsFrom(s: string, needle: string, i: nat)
    decreases |s| - i
  {
    i + |needle| <= |s| && (s[i..i + |needle|] == needle || ContainsFrom(s, needle, i + 1))
  }

  /** Every character of a contained needle occurs in the text. */
  lemma {:induction false} ContainedCharsOccur(s: string, needle: string, i: nat, k: nat)
    requires ContainsFrom(s, needle, i) && k < |needle|
    ensures needle[k] in s
    decreases |s| - i
  {
    if s[i..i + |needle|] == needle {
      assert s[i + k] == needle[k];
    } else {
      ContainedCharsOccur(s, needle, i + 1, k);
    }
  }

  /** A whitespace-free, non-empty piece of text, as `str.split()` returns them. */
  predicate IsToken(t: string)
  {
    t != [] && forall j :: 0 <= j < |t| ==> !IsSpace(t[j])
  }

  /** Length of the leading run of non-space characters. */
  function TokenLength(s: string): (n: nat)
    ensures n <= |s|
    ensures forall j :: 0 <= j < n ==> !IsSpace(s[j])
    ensures n == |s| || IsSpace(s[n])
  {
    if s == [] || IsSpace(s[0]) then 0 else 1 + TokenLength(s[1..])
  }

  /** `s.split()` with no separator: the maximal runs of non-space characters. */
  function Tokens(s: string): (ts: seq<string>)
    ensures forall k :: 0 <= k < |ts| ==> IsToken(ts[k])
    decreases |s|
  {
    if s == [] then []
    else if IsSpace(s[0]) then Tokens(s[1..])
    else
      var n := TokenLength(s);
      [s[..n]] + Tokens(s[n..])
  }

  /** Every non-space character lies in some token: a text without tokens is all whitespace. */
  lemma {:induction false} NoTokensIffBlank(s: string)
    ensures Tokens(s) == [] <==> forall j :: 0 <= j < |s| ==> IsSpace(s[j])
    decreases |s|
  {
    if s != [] && IsSpace(s[0]) {
      NoTokensIffBlank(s[1..]);
      assert forall j :: 1 <= j < |s| ==> s[1..][j - 1] == s[j];
    }
  }

  /** Every character of `w` is whitespace. */
  predicate AllSpace(w: string)
  {
    forall j :: 0 <= j < |w| ==> IsSpace(w[j])
  }

  /** The whitespace around and between the tokens of `s`: one gap more than there are tokens. */
  function Gaps(s: string): (gs: seq<string>)
    ensures |gs| == |Tokens(s)| + 1
    decreases |s|
  {
    if s == [] then [""]
    else if IsSpace(s[0]) then
      var g := Gaps(s[1..]);
      [[s[0]] + g[0]] + g[1..]
    else [""] + Gaps(s[TokenLength(s)..])
  }

  lemma {:induction false} GapsSeparateTokens(s: string)
    ensures s == Interleave(Gaps(s), Tokens(s))
    ensures forall k :: 0 <= k < |Gaps(s)| ==> AllSpace(Gaps(s)[k])
    ensures forall k :: 0 < k < |Gaps(s)| - 1 ==> Gaps(s)[k] != []
    decreases |s|
  {
    if s == [] {
    } else if IsSpace(s[0]) {
      var g := Gaps(s[1..]);
      GapsSeparateTokens(s[1..]);
      InterleavePrepend([s[0]], g, Tokens(s[1..]));
      assert [s[0]] + s[1..] == s;
      assert AllSpace([s[0]] + g[0]);
    } else {
      var n := TokenLength(s);
      var g := Gaps(s[n..]);
      GapsSeparateTokens(s[n..]);
      assert s[..n] + s[n..] == s;
      assert Interleave([""] + g, [s[..n]] + Tokens(s[n..])) == "" + s[..n] + Interleave(g, Tokens(s[n..]));
      if |g| > 1 {
        assert s[n..] != [] && IsSpace(s[n..][0]);
      }
    }
  }

  /**
    `s.split()` returns exactly the maximal runs of non-space characters, in
    order: `s` is its tokens interleaved with whitespace gaps, every gap
    between two tokens being non-empty.
   */
  lemma TokensAreMaximalRuns(s: string)
    ensures exists gs ::
      && |gs| == |Tokens(s)| + 1
      && s == Interleave(gs, Tokens(s))
      && (forall k :: 0 <= k < |gs| ==> AllSpace(gs[k]))
      && (forall k :: 0 < k < |gs| - 1 ==> gs[k] != [])
  {
    GapsSeparateTokens(s);
  }

  function LowerChar(c: char): char
  {
    if 'A' <= c <= 'Z' then (c as int - 'A' as int + 'a' as int) as char else c
  }

  /** `s.lower()` on the ASCII letters. */
  function Lower(s: string): (r: string)
    ensures |r| == |s|
    ensures forall j :: 0 <= j < |r| ==> !('A' <= r[j] <= 'Z')
    ensures forall j :: 0 <= j < |s| && 'A' <= s[j] <= 'Z' ==> r[j] as int == s[j] as int + 32
    ensures forall j :: 0 <= j < |s| && !('A' <= s[j] <= 'Z') ==> r[j] == s[j]
  {
    seq(|s|, j requires 0 <= j < |s| => LowerChar(s[j]))
  }

  /** Lower-casing twice is lower-casing once. */
  lemma LowerIdempotent(s: string)
    ensures Lower(Lower(s)) == Lower(s)
  {
  }
}
