/**
 Character classes and string operations that the bot relies on: Python's
 whitespace test (used by both `\s` in a `str` regex and `str.strip()`), the
 ASCII digits of `\d`, greedy character runs, first occurrence, `str.strip`,
 `str.join`, `str.split` with a one-character separator and substring `in`.
 */
module Text {
  import opened Wrappers

  /** An ASCII decimal digit (`\d` restricted to ASCII). */
  predicate IsDigit(c: char) {
    '0' <= c <= '9'
  }

  /** Python's `str.isspace()` for one character: the full list of code points
      that the `\s` class of a `str` pattern and `str.strip()` both treat as
      whitespace. */
  predicate IsSpace(c: char) {
    var n := c as int;
    || 0x09 <= n <= 0x0D
    || 0x1C <= n <= 0x20
    || n == 0x85 || n == 0xA0 || n == 0x1680
    || 0x2000 <= n <= 0x200A
    || n == 0x2028 || n == 0x2029 || n == 0x202F || n == 0x205F || n == 0x3000
  }

  predicate AllDigits(s: string) {
    forall i | 0 <= i < |s| :: IsDigit(s[i])
  }

  predicate AllSpace(s: string) {
    forall i | 0 <= i < |s| :: IsSpace(s[i])
  }

  /** The end of the longest run of characters satisfying `p` that starts at
      `i`: what a greedy `[...]*` consumes. */
  function Span(s: string, i: nat, p: char -> bool): (r: nat)
    requires i <= |s|
    ensures i <= r <= |s|
    ensures forall j | i <= j < r :: p(s[j])
    ensures r == |s| || !p(s[r])
    decreases |s| - i
  {
    if i < |s| && p(s[i]) then Span(s, i + 1, p) else i
  }

  /** The first position at or after `i` that holds `c`. */
  function IndexOf(s: string, c: char, i: nat): (r: Option<nat>)
    requires i <= |s|
    ensures r.Some? ==> i <= r.value < |s| && s[r.value] == c && c !in s[i..r.value]
    ensures r.None? ==> c !in s[i..]
    decreases |s| - i
  {
    if i == |s| then None
    else if s[i] == c then Some(i)
    else
      var r := IndexOf(s, c, i + 1);
      assert s[i..] == [s[i]] + s[i + 1..];
      assert r.Some? ==> s[i..r.value] == [s[i]] + s[i + 1..r.value];
      r
  }

  /** Python's `str.strip()` with no argument: the whitespace at both ends
      removed. */
  function Strip(s: string): (r: string)
    ensures |r| <= |s|
    decreases |s|
  {
    if s != [] && IsSpace(s[0]) then Strip(s[1..])
    else if s != [] && IsSpace(s[|s| - 1]) then Strip(s[..|s| - 1])
    else s
  }

  /** The stripped text is the slice of `s` that starts after the leading
      whitespace, with only whitespace around it (that it neither starts nor
      ends with whitespace is `StripEnds`). */
  lemma {:induction false} StripShape(s: string) returns (i: nat)
    ensures i + |Strip(s)| <= |s| && Strip(s) == s[i..i + |Strip(s)|]
    ensures AllSpace(s[..i]) && AllSpace(s[i + |Strip(s)|..])
    decreases |s|
  {
    if s != [] && IsSpace(s[0]) {
      var j := StripShape(s[1..]);
      assert Strip(s) == Strip(s[1..]);
      i := j + 1;
      ShapeAfterSpace(s, Strip(s), j);
    } else if s != [] && IsSpace(s[|s| - 1]) {
      i := StripShape(s[..|s| - 1]);
      assert Strip(s) == Strip(s[..|s| - 1]);
      ShapeBeforeSpace(s, Strip(s), i);
    } else {
      i := 0;
      assert Strip(s) == s;
      assert s[0..|s|] == s;
    }
  }

  /** The stripped text neither starts nor ends with whitespace. */
  lemma {:induction false} StripEnds(s: string)
    ensures Strip(s) == [] || (!IsSpace(Strip(s)[0]) && !IsSpace(Strip(s)[|Strip(s)| - 1]))
    decreases |s|
  {
    if s != [] && IsSpace(s[0]) {
      StripEnds(s[1..]);
    } else if s != [] && IsSpace(s[|s| - 1]) {
      StripEnds(s[..|s| - 1]);
    }
  }

  /** A slice of `s[1..]` framed by whitespace, when `s` starts with
      whitespace, is framed by whitespace in `s`. */
  lemma ShapeAfterSpace(s: string, r: string, j: nat)
    requires s != [] && IsSpace(s[0])
    requires j + |r| <= |s| - 1 && r == s[1..][j..j + |r|]
    requires AllSpace(s[1..][..j]) && AllSpace(s[1..][j + |r|..])
    ensures j + 1 + |r| <= |s| && r == s[j + 1..j + 1 + |r|]
    ensures AllSpace(s[..j + 1]) && AllSpace(s[j + 1 + |r|..])
  {
    var i := j + 1;
    assert s[1..][j..j + |r|] == s[i..i + |r|];
    assert s[1..][j + |r|..] == s[i + |r|..];
    assert s[..i] == [s[0]] + s[1..][..j];
    SpaceCons(s[0], s[1..][..j]);
  }

  /** A slice of `s` minus its last character framed by whitespace, when
      that character is whitespace, is framed by whitespace in `s`. */
  lemma ShapeBeforeSpace(s: string, r: string, i: nat)
    requires s != [] && IsSpace(s[|s| - 1])
    requires i + |r| <= |s| - 1 && r == s[..|s| - 1][i..i + |r|]
    requires AllSpace(s[..|s| - 1][..i]) && AllSpace(s[..|s| - 1][i + |r|..])
    ensures i + |r| <= |s| && r == s[i..i + |r|]
    ensures AllSpace(s[..i]) && AllSpace(s[i + |r|..])
  {
    var t := s[..|s| - 1];
    assert t[i..i + |r|] == s[i..i + |r|];
    assert t[..i] == s[..i];
    assert s[i + |r|..] == t[i + |r|..] + [s[|s| - 1]];
    SpaceSnoc(t[i + |r|..], s[|s| - 1]);
  }

  lemma SpaceCons(c: char, t: string)
    requires IsSpace(c) && AllSpace(t)
    ensures AllSpace([c] + t)
  {
    forall m | 0 <= m < |t| + 1 ensures IsSpace(([c] + t)[m]) {
      if m > 0 {
        assert ([c] + t)[m] == t[m - 1];
      }
    }
  }

  lemma SpaceSnoc(t: string, c: char)
    requires AllSpace(t) && IsSpace(c)
    ensures AllSpace(t + [c])
  {
    forall m | 0 <= m < |t| + 1 ensures IsSpace((t + [c])[m]) {
      if m < |t| {
        assert (t + [c])[m] == t[m];
      }
    }
  }

  /** Text with no whitespace at either end is left as it is. */
  lemma StripTrimmed(s: string)
    requires s == [] || (!IsSpace(s[0]) && !IsSpace(s[|s| - 1]))
    ensures Strip(s) == s
  {
  }

  /** Stripping ignores whitespace put in front of the text. */
  lemma {:induction false} StripSpacePrefix(w: string, s: string)
    requires AllSpace(w)
    ensures Strip(w + s) == Strip(s)
    decreases |w|
  {
    if w != [] {
      assert (w + s)[0] == w[0];
      assert (w + s)[1..] == w[1..] + s;
      StripSpacePrefix(w[1..], s);
    } else {
      assert w + s == s;
    }
  }

  /** A character that does not occur in the text does not occur in the
      stripped text. */
  lemma StripKeeps(s: string, c: char)
    requires c !in s
    ensures c !in Strip(s)
  {
    var i := StripShape(s);
    assert Strip(s) == s[i..i + |Strip(s)|];
  }

  /** Python's `sep.join(parts)`. */
  function Join(parts: seq<string>, sep: string): (r: string)
    ensures |parts| == 0 ==> r == ""
    ensures |parts| > 0 ==> parts[0] <= r
  {
    if |parts| == 0 then ""
    else if |parts| == 1 then parts[0]
    else parts[0] + sep + Join(parts[1..], sep)
  }

  /** Python's `s.split(sep)` for a one-character separator. */
  function Split(s: string, sep: char): (r: seq<string>)
    ensures |r| >= 1
    decreases |s|
  {
    match IndexOf(s, sep, 0)
    case None => [s]
    case Some(i) => [s[..i]] + Split(s[i + 1..], sep)
  }

  /** Joining with a one-character separator that no part contains loses
      nothing: splitting the joined text gives the parts back. */
  lemma {:induction false} SplitJoin(parts: seq<string>, sep: char)
    requires |parts| >= 1
    requires forall k | 0 <= k < |parts| :: sep !in parts[k]
    ensures Split(Join(parts, [sep]), sep) == parts
  {
    var s := Join(parts, [sep]);
    if |parts| == 1 {
      assert s[0..] == parts[0];
    } else {
      var n := |parts[0]|;
      assert s == parts[0] + [sep] + Join(parts[1..], [sep]);
      assert s[n] == sep;
      assert s[0..n] == parts[0];
      FirstOccurrence(s, sep, 0, n);
      assert s[..n] == parts[0];
      assert s[n + 1..] == Join(parts[1..], [sep]);
      SplitJoin(parts[1..], sep);
    }
  }

  lemma SpaceRun(s: string, i: nat, j: nat)
    requires i <= j <= |s| && AllSpace(s[i..j])
    ensures forall m | i <= m < j :: IsSpace(s[m])
  {
    forall m | i <= m < j ensures IsSpace(s[m]) {
      assert s[m] == s[i..j][m - i];
    }
  }

  /** A run that stops at `m` is the run `Span` finds. */
  lemma SpanStops(s: string, i: nat, m: nat, p: char -> bool)
    requires i <= m <= |s|
    requires forall j | i <= j < m :: p(s[j])
    requires m == |s| || !p(s[m])
    ensures Span(s, i, p) == m
  {
  }

  /** `IndexOf` finds the first occurrence. */
  lemma FirstOccurrence(s: string, c: char, i: nat, k: nat)
    requires i <= k < |s| && s[k] == c && c !in s[i..k]
    ensures IndexOf(s, c, i) == Some(k)
  {
  }

  /** Python's `k in t` for two strings: `k` is a substring of `t`. */
  predicate Occurs(k: string, t: string)
    decreases |t|
  {
    k <= t || (t != [] && Occurs(k, t[1..]))
  }

  lemma {:induction false} OccursInside(a: string, k: string, b: string)
    ensures Occurs(k, a + k + b)
    decreases |a|
  {
    if a == [] {
      assert a + k + b == k + b;
      assert k <= k + b;
    } else {
      assert (a + k + b)[1..] == a[1..] + k + b;
      OccursInside(a[1..], k, b);
    }
  }

  /** Every part shows up in the joined text. */
  lemma {:induction false} JoinContainsParts(parts: seq<string>, sep: string, k: nat)
    requires k < |parts|
    ensures Occurs(parts[k], Join(parts, sep))
    decreases |parts|
  {
    if |parts| == 1 {
      OccursInside([], parts[0], []);
      assert [] + parts[0] + [] == parts[0];
    } else if k == 0 {
      OccursInside([], parts[0], sep + Join(parts[1..], sep));
      assert [] + parts[0] + (sep + Join(parts[1..], sep)) == Join(parts, sep);
    } else {
      JoinContainsParts(parts[1..], sep, k - 1);
      OccursAfter(parts[0] + sep, parts[k], Join(parts[1..], sep));
      assert (parts[0] + sep) + Join(parts[1..], sep) == Join(parts, sep);
    }
  }

  lemma {:induction false} OccursAfter(a: string, k: string, t: string)
    requires Occurs(k, t)
    ensures Occurs(k, a + t)
    decreases |a|
  {
    if a != [] {
      assert (a + t)[1..] == a[1..] + t;
      OccursAfter(a[1..], k, t);
    } else {
      assert a + t == t;
    }
  }

  lemma {:induction false} OccursBefore(t: string, k: string, b: string)
    requires Occurs(k, t)
    ensures Occurs(k, t + b)
    decreases |t|
  {
    if k <= t {
      assert (t + b)[..|k|] == t[..|k|];
    } else {
      assert (t + b)[1..] == t[1..] + b;
      OccursBefore(t[1..], k, b);
    }
  }

  /** The value of a string of ASCII digits, most significant first. */
  function DigitsValue(s: string): nat
    requires AllDigits(s)
  {
    if s == [] then 0
    else DigitsValue(s[..|s| - 1]) * 10 + (s[|s| - 1] as int - '0' as int)
  }

  function Pow10(n: nat): (r: nat)
    ensures r >= 1
  {
    if n == 0 then 1 else 10 * Pow10(n - 1)
  }
}
