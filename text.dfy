/** Small option type shared by the modules below. */
module Wrappers {
  datatype Option<+T> = None | Some(value: T)
}

/**
  Character-level helpers whose semantics Python and JavaScript agree on:
  counting characters, splitting on one separator character, joining, and
  rendering an integer in decimal.
 */
module Text {

  /** Number of positions of `s` holding a character of `cs`. */
  function CountIn(s: string, cs: set<char>): (n: nat)
    ensures n <= |s|
  {
    if s == [] then 0 else (if s[0] in cs then 1 else 0) + CountIn(s[1..], cs)
  }

  lemma {:induction false} CountInAppend(a: string, b: string, cs: set<char>)
    ensures CountIn(a + b, cs) == CountIn(a, cs) + CountIn(b, cs)
  {
    if a == [] {
      assert a + b == b;
    } else {
      assert (a + b)[1..] == a[1..] + b;
      CountInAppend(a[1..], b, cs);
    }
  }

  /**
    The pieces of `s[start..]` when split on `sep`, given that the piece being
    collected starts at `start` and the scan has reached `i`.
   */
  function SplitFrom(s: string, sep: char, start: nat, i: nat): seq<string>
    requires start <= i <= |s|
    decreases |s| - i
  {
    if i == |s| then [s[start..]]
    else if s[i] == sep then [s[start..i]] + SplitFrom(s, sep, i + 1, i + 1)
    else SplitFrom(s, sep, start, i + 1)
  }

  lemma {:induction false} SplitFromShape(s: string, sep: char, start: nat, i: nat)
    requires start <= i <= |s|
    requires forall j :: start <= j < i ==> s[j] != sep
    ensures |SplitFrom(s, sep, start, i)| == CountIn(s[i..], {sep}) + 1
    ensures forall k :: 0 <= k < |SplitFrom(s, sep, start, i)| ==> sep !in SplitFrom(s, sep, start, i)[k]
    decreases |s| - i
  {
    if i < |s| {
      assert s[i..][1..] == s[i + 1..];
      if s[i] == sep {
        SplitFromShape(s, sep, i + 1, i + 1);
      } else {
        SplitFromShape(s, sep, start, i + 1);
      }
    }
  }

  /** Python's `s.split(sep)` / JavaScript's `s.split(sep)` for a one-character separator. */
  function Split(s: string, sep: char): (parts: seq<string>)
    ensures |parts| == CountIn(s, {sep}) + 1
    ensures forall k :: 0 <= k < |parts| ==> sep !in parts[k]
  {
    SplitFromShape(s, sep, 0, 0);
    assert s[0..] == s;
    SplitFrom(s, sep, 0, 0)
  }

  /** Python's `sep.join(parts)`. */
  function Join(parts: seq<string>, sep: string): (r: string)
    ensures |parts| == 1 ==> r == parts[0]
  {
    if parts == [] then ""
    else if |parts| == 1 then parts[0]
    else parts[0] + sep + Join(parts[1..], sep)
  }

  lemma {:induction false} SplitFromJoin(s: string, sep: char, start: nat, i: nat)
    requires start <= i <= |s|
    requires forall j :: start <= j < i ==> s[j] != sep
    ensures Join(SplitFrom(s, sep, start, i), [sep]) == s[start..]
    decreases |s| - i
  {
    if i < |s| {
      if s[i] == sep {
        var rest := SplitFrom(s, sep, i + 1, i + 1);
        SplitFromJoin(s, sep, i + 1, i + 1);
        var parts := [s[start..i]] + rest;
        assert parts[1..] == rest;
        assert Join(parts, [sep]) == s[start..i] + [sep] + s[i + 1..];
        assert s[start..] == s[start..i] + [sep] + s[i + 1..];
      } else {
        SplitFromJoin(s, sep, start, i + 1);
      }
    }
  }

  /** Splitting and re-joining with the same separator gives the text back. */
  lemma SplitJoin(s: string, sep: char)
    ensures Join(Split(s, sep), [sep]) == s
  {
    SplitFromJoin(s, sep, 0, 0);
    assert s[0..] == s;
  }

  /** Number of distinct elements of `xs`: never more than its length. */
  lemma {:induction false} DistinctAtMostLength<T>(xs: seq<T>)
    ensures |set x | x in xs| <= |xs|
  {
    if xs != [] {
      DistinctAtMostLength(xs[1..]);
      assert (set x | x in xs) == {xs[0]} + (set x | x in xs[1..]);
    }
  }

  /** `gs[0] + ts[0] + gs[1] + ... + ts[n - 1] + gs[n]`. */
  function Interleave(gs: seq<string>, ts: seq<string>): string
    requires |gs| == |ts| + 1
  {
    if ts == [] then gs[0] else gs[0] + ts[0] + Interleave(gs[1..], ts[1..])
  }

  /** Extending the first gap extends the text at its front. */
  lemma InterleavePrepend(w: string, gs: seq<string>, ts: seq<string>)
    requires |gs| == |ts| + 1
    ensures Interleave([w + gs[0]] + gs[1..], ts) == w + Interleave(gs, ts)
  {
    var hs := [w + gs[0]] + gs[1..];
    if ts != [] {
      assert hs[1..] == gs[1..];
    }
  }

  function DigitChar(d: nat): (c: char)
    requires d < 10
    ensures '0' <= c <= '9'
  {
    "0123456789"[d]
  }

  /** Decimal rendering of a natural number, as Python's `f"{n}"` writes it. */
  function NatToString(n: nat): (s: string)
    ensures |s| >= 1
    ensures forall k :: 0 <= k < |s| ==> '0' <= s[k] <= '9'
    ensures |s| > 1 ==> s[0] != '0'
  {
    if n < 10 then [DigitChar(n)] else NatToString(n / 10) + [DigitChar(n % 10)]
  }

  /** Decimal rendering of an integer, with a leading '-' for negatives. */
  function IntToString(i: int): (s: string)
    ensures |s| >= 1
    ensures (s[0] == '-') <==> i < 0
  {
    if i < 0 then "-" + NatToString(-i) else NatToString(i)
  }

  /** Reads a string of decimal digits back as a number. */
  function ParseDigits(s: string): nat
    requires forall k :: 0 <= k < |s| ==> '0' <= s[k] <= '9'
  {
    if s == [] then 0
    else ParseDigits(s[..|s| - 1]) * 10 + ((s[|s| - 1] as int) - ('0' as int))
  }

  /** The decimal rendering is read back as the number it renders. */
  lemma {:induction false} NatToStringRoundTrip(n: nat)
    ensures ParseDigits(NatToString(n)) == n
  {
    if n >= 10 {
      NatToStringRoundTrip(n / 10);
      DigitValue(n % 10);
      var s := NatToString(n);
      assert s[..|s| - 1] == NatToString(n / 10);
    } else {
      DigitValue(n);
      assert NatToString(n)[..0] == [];
    }
  }

  /** A digit character reads back as its digit. */
  lemma DigitValue(d: nat)
    requires d < 10
    ensures (DigitChar(d) as int) - ('0' as int) == d
  {
  }

  /** Distinct numbers render to distinct strings. */
  lemma NatToStringInjective(a: nat, b: nat)
    requires NatToString(a) == NatToString(b)
    ensures a == b
  {
    NatToStringRoundTrip(a);
    NatToStringRoundTrip(b);
  }
}
