/**
 * Java string behaviour the fault localiser relies on: `String.compareTo`,
 * `startsWith`, `trim`, decimal rendering of an `int`, and `Integer.parseInt`
 * on a run of digits.
 */
module Strings {
  import opened Wrappers

  /** Largest value of a Java `int`. */
  const MaxJavaInt: int := 0x7fff_ffff

  // ---------------------------------------------------------------------------
  // Ordering
  // ---------------------------------------------------------------------------

  /** `a.compareTo(b) < 0` for strings without supplementary characters: character-wise lexicographic order, a proper prefix first. */
  predicate LexLess(a: string, b: string)
    decreases |a|
  {
    if |a| == 0 then |b| > 0
    else if |b| == 0 then false
    else if a[0] != b[0] then a[0] < b[0]
    else LexLess(a[1..], b[1..])
  }

  lemma {:induction false} LexIrreflexive(a: string)
    ensures !LexLess(a, a)
    decreases |a|
  {
    if |a| > 0 {
      LexIrreflexive(a[1..]);
    }
  }

  lemma {:induction false} LexTransitive(a: string, b: string, c: string)
    requires LexLess(a, b) && LexLess(b, c)
    ensures LexLess(a, c)
    decreases |a|
  {
    if |a| > 0 && a[0] == b[0] && b[0] == c[0] {
      LexTransitive(a[1..], b[1..], c[1..]);
    }
  }

  lemma {:induction false} LexConnected(a: string, b: string)
    requires a != b
    ensures LexLess(a, b) || LexLess(b, a)
    decreases |a|
  {
    if |a| > 0 && |b| > 0 && a[0] == b[0] {
      assert a == [a[0]] + a[1..] && b == [b[0]] + b[1..];
      LexConnected(a[1..], b[1..]);
    }
  }

  /** `s.startsWith(prefix)`. */
  predicate StartsWith(s: string, prefix: string) {
    |prefix| <= |s| && s[..|prefix|] == prefix
  }

  // ---------------------------------------------------------------------------
  // Scanning
  // ---------------------------------------------------------------------------

  /** Length of the longest prefix of `s` whose characters all satisfy `p`. */
  function Span(s: string, p: char -> bool): (n: nat)
    ensures n <= |s|
    ensures forall i :: 0 <= i < n ==> p(s[i])
    ensures n == |s| || !p(s[n])
    decreases |s|
  {
    if |s| == 0 || !p(s[0]) then 0 else 1 + Span(s[1..], p)
  }

  /** A span stops exactly at the end of a matching prefix followed by a non-matching character. */
  lemma SpanOfConcat(a: string, b: string, p: char -> bool)
    requires forall i :: 0 <= i < |a| ==> p(a[i])
    requires |b| == 0 || !p(b[0])
    ensures Span(a + b, p) == |a|
  {
    assert forall i :: 0 <= i < |a| ==> (a + b)[i] == a[i];
    if |b| > 0 {
      assert (a + b)[|a|] == b[0];
    }
  }

  // ---------------------------------------------------------------------------
  // String.trim
  // ---------------------------------------------------------------------------

  /** The characters `String.trim` removes: U+0000 through U+0020. */
  predicate Blank(c: char) {
    c <= ' '
  }

  predicate AllBlank(s: string) {
    forall i :: 0 <= i < |s| ==> Blank(s[i])
  }

  /** Length of `s` without its trailing run of blanks. */
  function TrimEnd(s: string): (n: nat)
    ensures n <= |s|
    ensures forall i :: n <= i < |s| ==> Blank(s[i])
    ensures n == 0 || !Blank(s[n - 1])
    decreases |s|
  {
    if |s| == 0 || !Blank(s[|s| - 1]) then |s| else TrimEnd(s[..|s| - 1])
  }

  /** `s.trim()`: `s` without its leading and trailing blanks. */
  function Trim(s: string): (r: string)
    ensures |r| <= |s|
    ensures |r| > 0 ==> !Blank(r[0]) && !Blank(r[|r| - 1])
  {
    var k := Span(s, Blank);
    var e := TrimEnd(s);
    if k < e then s[k..e] else []
  }

  /** What `Trim` removes is blank on both sides. */
  lemma TrimSplit(s: string)
    ensures exists front, back :: AllBlank(front) && AllBlank(back) && s == front + Trim(s) + back
  {
    var k := Span(s, Blank);
    var e := TrimEnd(s);
    if k < e {
      var front, back := s[..k], s[e..];
      assert AllBlank(front) && AllBlank(back);
      assert s == front + Trim(s) + back;
    } else {
      forall i | 0 <= i < |s|
        ensures Blank(s[i])
      {
        // Every position lies in the leading blanks or in the trailing ones.
        assert i < k || e <= i;
      }
      assert AllBlank([]);
      assert s == s + Trim(s) + [];
    }
  }

  /** Trimming a padded word recovers the word: the converse of `Trim`'s contract. */
  lemma TrimPadded(front: string, w: string, back: string)
    requires AllBlank(front) && AllBlank(back)
    requires |w| > 0 ==> !Blank(w[0]) && !Blank(w[|w| - 1])
    ensures Trim(front + w + back) == w
  {
    var s := front + w + back;
    if |w| > 0 {
      SpanOfConcat(front, w + back, Blank);
      assert s == front + (w + back);
      TrimEndOfConcat(front + w, back);
    } else {
      assert s == front + back;
      assert AllBlank(s) by {
        forall i | 0 <= i < |s|
          ensures Blank(s[i])
        {
          if i < |front| { assert s[i] == front[i]; } else { assert s[i] == back[i - |front|]; }
        }
      }
      assert Span(s, Blank) == |s|;
    }
  }

  lemma {:induction false} TrimEndOfConcat(a: string, b: string)
    requires |a| > 0 && !Blank(a[|a| - 1]) && AllBlank(b)
    ensures TrimEnd(a + b) == |a|
    decreases |b|
  {
    if |b| > 0 {
      assert (a + b)[..|a + b| - 1] == a + b[..|b| - 1];
      TrimEndOfConcat(a, b[..|b| - 1]);
    } else {
      assert a + b == a;
    }
  }

  // ---------------------------------------------------------------------------
  // Decimal numerals
  // ---------------------------------------------------------------------------

  predicate IsDigit(c: char) {
    '0' <= c <= '9'
  }

  predicate AllDigits(s: string) {
    forall i :: 0 <= i < |s| ==> IsDigit(s[i])
  }

  function DigitChar(d: nat): (c: char)
    requires d < 10
    ensures IsDigit(c)
  {
    ('0' as int + d) as char
  }

  function DigitValue(c: char): nat
    requires IsDigit(c)
  {
    c as int - '0' as int
  }

  /** Decimal rendering of a natural number, without leading zeros. */
  function NatToString(n: nat): (s: string)
    ensures |s| > 0 && AllDigits(s)
    decreases n
  {
    if n < 10 then [DigitChar(n)] else NatToString(n / 10) + [DigitChar(n % 10)]
  }

  /** Java's `Integer.toString` / string concatenation of an `int`. */
  function IntToString(n: int): (s: string)
    ensures |s| > 0
  {
    if n < 0 then "-" + NatToString(-n) else NatToString(n)
  }

  /** Value of a string of decimal digits (empty reads as 0). */
  function DigitsValue(s: string): nat
    requires AllDigits(s)
    decreases |s|
  {
    if |s| == 0 then 0 else DigitsValue(s[..|s| - 1]) * 10 + DigitValue(s[|s| - 1])
  }

  lemma {:induction false} NatToStringRoundTrip(n: nat)
    ensures DigitsValue(NatToString(n)) == n
    decreases n
  {
    if n >= 10 {
      var s := NatToString(n);
      assert s[..|s| - 1] == NatToString(n / 10);
      NatToStringRoundTrip(n / 10);
    }
  }

  /**
   * `Integer.parseInt` on a non-empty run of digits: the value, or `None` where Java
   * throws `NumberFormatException` because the value does not fit in an `int`.
   */
  function ParseJavaInt(s: string): (r: Option<int>)
    requires |s| > 0 && AllDigits(s)
    ensures r.Some? <==> DigitsValue(s) <= MaxJavaInt
    ensures r.Some? ==> r.value == DigitsValue(s)
  {
    var v := DigitsValue(s);
    if v <= MaxJavaInt then Some(v) else None
  }

  /** Reads an optionally negative decimal numeral at the front of `s`; returns it and the rest. */
  function ParseIntPrefix(s: string): Option<(int, string)> {
    if |s| > 0 && s[0] == '-' then
      var t := s[1..];
      var n := Span(t, IsDigit);
      var v: int := if n == 0 then 0 else DigitsValue(t[..n]);
      if n == 0 then None else Some((-v, t[n..]))
    else
      var n := Span(s, IsDigit);
      if n == 0 then None else Some((DigitsValue(s[..n]), s[n..]))
  }

  /** A run of digits followed by a non-digit splits back into the run and the rest. */
  lemma DigitsThenRest(digits: string, rest: string)
    requires |digits| > 0 && AllDigits(digits)
    requires |rest| == 0 || !IsDigit(rest[0])
    ensures var s := digits + rest;
      && Span(s, IsDigit) == |digits|
      && s[..|digits|] == digits
      && s[|digits|..] == rest
  {
    SpanOfConcat(digits, rest, IsDigit);
  }

  /** Rendering an `int` and reading it back recovers the number and the text after it. */
  lemma IntToStringRoundTrip(n: int, rest: string)
    requires |rest| == 0 || !IsDigit(rest[0])
    ensures ParseIntPrefix(IntToString(n) + rest) == Some((n, rest))
  {
    var m: nat := if n < 0 then -n else n;
    var digits := NatToString(m);
    NatToStringRoundTrip(m);
    DigitsThenRest(digits, rest);
    var s := IntToString(n) + rest;
    if n < 0 {
      assert s == "-" + (digits + rest);
      assert s[1..] == digits + rest;
    } else {
      assert s == digits + rest;
      assert IsDigit(s[0]);
    }
  }

  /** Distinct numbers render as distinct strings. */
  lemma IntToStringInjective(a: int, b: int)
    requires IntToString(a) == IntToString(b)
    ensures a == b
  {
    IntToStringRoundTrip(a, "");
    IntToStringRoundTrip(b, "");
    assert IntToString(a) + "" == IntToString(a);
    assert IntToString(b) + "" == IntToString(b);
  }
}
