/** String operations the scripts rely on: decimal formatting of integers
    (Python's `str`/`f"{i:02d}"`), `join`, Python's `lower()` and `in` on
    strings, and JavaScript's `trim()`. `Split` is not one of them: it only
    serves proofs that read a joined string back into its pieces.
    Characters are treated as ASCII: lower-casing maps only 'A'..'Z' and
    whitespace is space, tab, line feed, vertical tab, form feed and
    carriage return. */
module Text {

  predicate IsDigit(c: char) { '0' <= c <= '9' }

  predicate AllDigits(s: string) { forall i :: 0 <= i < |s| ==> IsDigit(s[i]) }

  function DigitValue(c: char): nat
    requires IsDigit(c)
  {
    c as int - '0' as int
  }

  function DigitChar(d: nat): (c: char)
    requires d < 10
    ensures IsDigit(c) && DigitValue(c) == d
  {
    ('0' as int + d) as char
  }

  /** Decimal digits of `n`, most significant first, with no leading zero. */
  function NatToString(n: nat): (s: string)
    ensures |s| >= 1 && AllDigits(s)
    ensures (s[0] == '0') <==> n == 0
    decreases n
  {
    if n < 10 then [DigitChar(n)] else NatToString(n / 10) + [DigitChar(n % 10)]
  }

  /** Python's `str` of an integer: a minus sign for negative values. */
  function IntToString(n: int): (s: string)
    ensures |s| >= 1 && (s[0] == '-' <==> n < 0)
    ensures n >= 0 ==> s == NatToString(n)
  {
    if n < 0 then "-" + NatToString(-n) else NatToString(n)
  }

  /** Python's `f"{n:02d}"`: at least two digits, padded with a leading zero. */
  function Pad2(n: nat): (s: string)
    ensures |s| >= 2 && AllDigits(s)
  {
    if n < 10 then ['0', DigitChar(n)] else NatToString(n)
  }

  /** The value of a string of decimal digits. */
  function ParseNat(s: string): nat
    requires AllDigits(s)
  {
    if s == [] then 0 else ParseNat(s[..|s| - 1]) * 10 + DigitValue(s[|s| - 1])
  }

  /** Reading back the decimal representation gives the number. */
  lemma {:induction false} ParseNatToString(n: nat)
    ensures ParseNat(NatToString(n)) == n
  {
    if n >= 10 {
      var s := NatToString(n);
      assert s[..|s| - 1] == NatToString(n / 10);
      ParseNatToString(n / 10);
    }
  }

  /** The zero-padded form reads back as the number. */
  lemma Pad2Value(n: nat)
    ensures ParseNat(Pad2(n)) == n
  {
    if n < 10 {
      var s := Pad2(n);
      assert s[..1] == "0";
      assert ParseNat(s[..1]) == ParseNat([]) * 10 + DigitValue('0');
    } else {
      ParseNatToString(n);
    }
  }

  /** Distinct numbers have distinct zero-padded forms. */
  lemma Pad2Injective(a: nat, b: nat)
    requires Pad2(a) == Pad2(b)
    ensures a == b
  {
    Pad2Value(a);
    Pad2Value(b);
  }

  /** The elements of `xs` with `sep` between neighbours (Python's
      `sep.join(xs)`, JavaScript's `xs.join(sep)`). */
  function Join(sep: string, xs: seq<string>): string
  {
    if |xs| == 0 then "" else if |xs| == 1 then xs[0] else xs[0] + sep + Join(sep, xs[1..])
  }

  /** The maximal pieces of `s` between occurrences of `d` (the empty
      string gives [""]), as Python's `s.split(d)` would give them. No source
      calls it: it reads a generated filter graph back into its pieces. */
  function Split(s: string, d: char): (r: seq<string>)
    ensures |r| >= 1
  {
    if s == [] then [""]
    else
      var rest := Split(s[1..], d);
      if s[0] == d then [""] + rest else [[s[0]] + rest[0]] + rest[1..]
  }

  lemma {:induction false} SplitFree(x: string, d: char)
    requires d !in x
    ensures Split(x, d) == [x]
  {
    if x != [] {
      assert d !in x[1..] by { assert forall i :: 0 <= i < |x[1..]| ==> x[1..][i] == x[i + 1]; }
      SplitFree(x[1..], d);
      assert [x[0]] + x[1..] == x;
    }
  }

  lemma {:induction false} SplitAfterPiece(x: string, d: char, rest: string)
    requires d !in x
    ensures Split(x + [d] + rest, d) == [x] + Split(rest, d)
  {
    var s := x + [d] + rest;
    if x == [] {
      assert s[0] == d && s[1..] == rest;
    } else {
      assert s[0] == x[0];
      assert s[1..] == x[1..] + [d] + rest;
      assert d !in x[1..] by { assert forall i :: 0 <= i < |x[1..]| ==> x[1..][i] == x[i + 1]; }
      SplitAfterPiece(x[1..], d, rest);
      assert [x[0]] + x[1..] == x;
    }
  }

  /** Splitting a joined list followed by a separator and more text gives
      the pieces followed by the pieces of the rest. */
  lemma {:induction false} SplitJoinThen(xs: seq<string>, d: char, rest: string)
    requires |xs| >= 1
    requires forall i :: 0 <= i < |xs| ==> d !in xs[i]
    ensures Split(Join([d], xs) + [d] + rest, d) == xs + Split(rest, d)
  {
    if |xs| == 1 {
      SplitAfterPiece(xs[0], d, rest);
    } else {
      var j := Join([d], xs[1..]);
      var tail := j + [d] + rest;
      assert Join([d], xs) == xs[0] + [d] + j;
      assert Join([d], xs) + [d] + rest == xs[0] + [d] + tail by {
        assert xs[0] + [d] + j + [d] + rest == xs[0] + [d] + (j + [d] + rest);
      }
      SplitAfterPiece(xs[0], d, tail);
      assert forall i :: 0 <= i < |xs[1..]| ==> d !in xs[1..][i] by {
        assert forall i :: 0 <= i < |xs[1..]| ==> xs[1..][i] == xs[i + 1];
      }
      SplitJoinThen(xs[1..], d, rest);
      ConsAppend(xs, Split(rest, d));
    }
  }

  lemma ConsAppend<T>(xs: seq<T>, ys: seq<T>)
    requires |xs| >= 1
    ensures [xs[0]] + (xs[1..] + ys) == xs + ys
  {
    assert [xs[0]] + xs[1..] == xs;
  }

  /** A decimal representation holds only digits. */
  lemma NoNonDigitIn(c: char, n: nat)
    requires !IsDigit(c)
    ensures c !in NatToString(n)
  {
  }

  function LowerChar(c: char): char
  {
    if 'A' <= c <= 'Z' then (c as int + 32) as char else c
  }

  /** Python's `s.lower()`, restricted to ASCII letters. */
  function Lower(s: string): string
  {
    seq(|s|, i requires 0 <= i < |s| => LowerChar(s[i]))
  }

  /** Python's `s[:n]`. */
  function Take(s: string, n: nat): string
  {
    if |s| <= n then s else s[..n]
  }

  predicate IsPrefix(p: string, s: string)
  {
    |p| <= |s| && s[..|p|] == p
  }

  /** Python's `p in s` on strings. */
  predicate Contains(s: string, p: string)
    decreases |s|
  {
    IsPrefix(p, s) || (|s| > 0 && Contains(s[1..], p))
  }

  /** `p` occurs in `s` starting at position `k`. */
  predicate OccursAt(s: string, p: string, k: int)
  {
    0 <= k <= |s| - |p| && s[k..k + |p|] == p
  }

  /** `Contains` holds exactly when `p` occurs at some position of `s`. */
  lemma {:induction false} ContainsIff(s: string, p: string)
    ensures Contains(s, p) <==> exists k :: OccursAt(s, p, k)
    decreases |s|
  {
    if IsPrefix(p, s) {
      assert OccursAt(s, p, 0);
    } else if |s| > 0 {
      ContainsIff(s[1..], p);
      if Contains(s[1..], p) {
        var k :| OccursAt(s[1..], p, k);
        assert s[k + 1..k + 1 + |p|] == s[1..][k..k + |p|];
        assert OccursAt(s, p, k + 1);
      }
      if k :| OccursAt(s, p, k) {
        assert k != 0;
        assert s[1..][k - 1..k - 1 + |p|] == s[k..k + |p|];
        assert OccursAt(s[1..], p, k - 1);
      }
    }
  }

  predicate IsSpace(c: char) { c == ' ' || '\t' <= c <= '\r' }

  predicate AllSpace(s: string) { forall i :: 0 <= i < |s| ==> IsSpace(s[i]) }

  /** The index of the first non-whitespace character at or after `i`
      (`|s|` when there is none). */
  function SkipSpace(s: string, i: nat): (k: nat)
    requires i <= |s|
    ensures i <= k <= |s| && (k == |s| || !IsSpace(s[k]))
    ensures forall m :: i <= m < k ==> IsSpace(s[m])
    decreases |s| - i
  {
    if i < |s| && IsSpace(s[i]) then SkipSpace(s, i + 1) else i
  }

  /** The index just after the last non-whitespace character before `j`,
      but not below `i` (`i` when there is none). */
  function BackSpace(s: string, i: nat, j: nat): (k: nat)
    requires i <= j <= |s|
    ensures i <= k <= j && (k == i || !IsSpace(s[k - 1]))
    ensures forall m :: k <= m < j ==> IsSpace(s[m])
    decreases j - i
  {
    if i < j && IsSpace(s[j - 1]) then BackSpace(s, i, j - 1) else j
  }

  /** Where the trimmed text starts and ends in `s`. */
  function TrimBounds(s: string): (b: (nat, nat))
    ensures b.0 <= b.1 <= |s|
  {
    var a := SkipSpace(s, 0);
    (a, BackSpace(s, a, |s|))
  }

  /** JavaScript's `s.trim()`: the result is `s` without a blank prefix and
      a blank suffix, and neither of its ends is whitespace. */
  function Trim(s: string): (r: string)
    ensures r == s[TrimBounds(s).0..TrimBounds(s).1]
    ensures forall m :: 0 <= m < TrimBounds(s).0 ==> IsSpace(s[m])
    ensures forall m :: TrimBounds(s).1 <= m < |s| ==> IsSpace(s[m])
    ensures r == [] || (!IsSpace(r[0]) && !IsSpace(r[|r| - 1]))
  {
    var b := TrimBounds(s);
    assert b.0 < b.1 ==> !IsSpace(s[b.0]);
    s[b.0..b.1]
  }

  /** The trimmed string is empty exactly when `s` is all whitespace. */
  lemma TrimEmptyIff(s: string)
    ensures Trim(s) == [] <==> AllSpace(s)
  {
    var b := TrimBounds(s);
    if b.0 < |s| {
      assert !IsSpace(s[b.0]);
      assert b.0 < b.1;
      assert |Trim(s)| > 0;
    }
  }

  /** A string with no whitespace at either end is left as it is. */
  lemma TrimTrimmed(s: string)
    requires s == [] || (!IsSpace(s[0]) && !IsSpace(s[|s| - 1]))
    ensures Trim(s) == s
  {
    if s != [] {
      assert SkipSpace(s, 0) == 0;
      assert BackSpace(s, 0, |s|) == |s|;
      assert s[0..|s|] == s;
    }
  }
}
