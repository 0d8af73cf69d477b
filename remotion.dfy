/** The two primitives of the Remotion framework that the compositions rely
    on, written down as specification functions (Remotion itself is not part
    of this model):

    - `interpolate(x, inputRange, outputRange, {extrapolateLeft: 'clamp',
      extrapolateRight: 'clamp'})` with the identity easing: it rejects ranges
      of different lengths, of fewer than two points, or an input range that is
      not strictly increasing; otherwise it picks the segment of the input
      range that `x` falls into (the first segment whose right end is at or
      after `x`, the last one for larger `x`), clamps `x` into it and maps it
      linearly onto the matching output segment.
    - `<Sequence from durationInFrames>`: its children are rendered on the
      frames `from <= frame < from + durationInFrames` and see the frame
      `frame - from`. */
module Remotion {
  import opened Wrappers

  /** The errors `interpolate` throws for malformed ranges. */
  datatype InterpolateError = RangeLengthMismatch | RangeTooShort | RangeNotStrictlyIncreasing

  predicate StrictlyIncreasing(r: seq<real>)
  {
    forall i :: 1 <= i < |r| ==> r[i - 1] < r[i]
  }

  predicate ValidRanges(input: seq<real>, output: seq<real>)
  {
    |input| == |output| && |input| >= 2 && StrictlyIncreasing(input)
  }

  /** Strict increase between neighbours is strict increase between any two points. */
  lemma {:induction false} IncreasingBetween(r: seq<real>, i: nat, j: nat)
    requires StrictlyIncreasing(r) && i < j < |r|
    ensures r[i] < r[j]
    decreases j - i
  {
    if i + 1 < j {
      IncreasingBetween(r, i, j - 1);
    }
  }

  /** The segment search of `interpolate`: starting from point `i`, the first
      `i` below the last point with `r[i] >= x`, minus one. */
  function FindRange(x: real, r: seq<real>, i: nat): (k: nat)
    requires 1 <= i <= |r| - 1
    ensures i - 1 <= k <= |r| - 2
    ensures k == |r| - 2 || x <= r[k + 1]
    ensures forall j :: i <= j <= k ==> r[j] < x
    decreases |r| - i
  {
    if i >= |r| - 1 || r[i] >= x then i - 1 else FindRange(x, r, i + 1)
  }

  /** One segment of the interpolation: `x` clamped into `[lo, hi]`, then
      mapped linearly onto `[outLo, outHi]`. */
  function Lerp(x: real, lo: real, hi: real, outLo: real, outHi: real): real
    requires lo < hi
  {
    var c := if x < lo then lo else if x > hi then hi else x;
    if outLo == outHi then outLo else (c - lo) / (hi - lo) * (outHi - outLo) + outLo
  }

  /** Remotion's `interpolate` with both ends clamped. */
  function Interpolate(x: real, input: seq<real>, output: seq<real>): (r: Result<real, InterpolateError>)
    ensures r.Ok? <==> ValidRanges(input, output)
  {
    if |input| != |output| then Err(RangeLengthMismatch)
    else if |input| < 2 then Err(RangeTooShort)
    else if !StrictlyIncreasing(input) then Err(RangeNotStrictlyIncreasing)
    else
      var k := FindRange(x, input, 1);
      Ok(Lerp(x, input[k], input[k + 1], output[k], output[k + 1]))
  }

  /** At or before the first input point the result saturates at the first output. */
  lemma InterpolateClampLeft(x: real, input: seq<real>, output: seq<real>)
    requires ValidRanges(input, output) && x <= input[0]
    ensures Interpolate(x, input, output) == Ok(output[0])
  {
    assert input[0] < input[1];
    assert FindRange(x, input, 1) == 0;
    LerpAtLow(x, input[0], input[1], output[0], output[1]);
  }

  /** At or after the last input point the result saturates at the last output. */
  lemma InterpolateClampRight(x: real, input: seq<real>, output: seq<real>)
    requires ValidRanges(input, output) && x >= input[|input| - 1]
    ensures Interpolate(x, input, output) == Ok(output[|output| - 1])
  {
    var n := |input|;
    var k := FindRange(x, input, 1);
    if k < n - 2 {
      IncreasingBetween(input, k + 1, n - 1);
    }
    assert k == n - 2;
    LerpAtHigh(x, input[n - 2], input[n - 1], output[n - 2], output[n - 1]);
  }

  /** Inside its segment `Lerp` is the straight line through both ends. */
  lemma LerpInside(x: real, lo: real, hi: real, outLo: real, outHi: real)
    requires lo <= x <= hi && lo < hi
    ensures Lerp(x, lo, hi, outLo, outHi) == outLo + (x - lo) / (hi - lo) * (outHi - outLo)
  {
  }

  /** `Lerp` saturates at the left output at and before the left end. */
  lemma LerpAtLow(x: real, lo: real, hi: real, outLo: real, outHi: real)
    requires x <= lo < hi
    ensures Lerp(x, lo, hi, outLo, outHi) == outLo
  {
    assert (lo - lo) / (hi - lo) == 0.0;
  }

  /** `Lerp` saturates at the right output at and after the right end. */
  lemma LerpAtHigh(x: real, lo: real, hi: real, outLo: real, outHi: real)
    requires lo < hi <= x
    ensures Lerp(x, lo, hi, outLo, outHi) == outHi
  {
    var w := hi - lo;
    assert w / w == 1.0 by { assert 1.0 * w == w; }
  }

  /** The segment search lands on segment `k` when `x` lies inside it,
      or on the segment before when `x` is its shared left end. */
  lemma FindRangeSegment(x: real, r: seq<real>, k: nat)
    requires StrictlyIncreasing(r) && |r| >= 2 && k < |r| - 1
    requires r[k] <= x <= r[k + 1]
    ensures var f := FindRange(x, r, 1); f == k || (f + 1 == k && x == r[k])
  {
    var f := FindRange(x, r, 1);
    assert !(r[k + 1] < x);
    if f < k {
      IncreasingAll(r);
      assert x <= r[f + 1];
    }
  }

  /** Inside segment `k` the result is the straight line through
      `(input[k], output[k])` and `(input[k+1], output[k+1])`. */
  lemma InterpolateOnSegment(x: real, input: seq<real>, output: seq<real>, k: nat)
    requires ValidRanges(input, output) && k < |input| - 1
    requires input[k] <= x <= input[k + 1]
    ensures Interpolate(x, input, output)
         == Ok(output[k] + (x - input[k]) / (input[k + 1] - input[k]) * (output[k + 1] - output[k]))
  {
    FindRangeSegment(x, input, k);
    var f := FindRange(x, input, 1);
    var line := output[k] + (x - input[k]) / (input[k + 1] - input[k]) * (output[k + 1] - output[k]);
    assert Interpolate(x, input, output) == Ok(Lerp(x, input[f], input[f + 1], output[f], output[f + 1]));
    if f == k {
      LerpInside(x, input[k], input[k + 1], output[k], output[k + 1]);
      assert Lerp(x, input[f], input[f + 1], output[f], output[f + 1]) == line;
    } else {
      // x is then the left end of segment k, which is the right end of segment f
      assert f + 1 == k;
      LerpAtHigh(x, input[f], input[f + 1], output[f], output[f + 1]);
      LineAtLeftEnd(x, input[k], input[k + 1], output[k], output[k + 1]);
    }
  }

  /** The straight line of a segment passes through its left end. */
  lemma LineAtLeftEnd(x: real, lo: real, hi: real, outLo: real, outHi: real)
    requires x == lo < hi
    ensures outLo + (x - lo) / (hi - lo) * (outHi - outLo) == outLo
  {
    assert (x - lo) / (hi - lo) == 0.0;
  }

  /** Strict increase between neighbours, for every pair of points. */
  lemma IncreasingAll(r: seq<real>)
    requires StrictlyIncreasing(r)
    ensures forall i, j :: 0 <= i < j < |r| ==> r[i] < r[j]
  {
    forall i, j | 0 <= i < j < |r|
      ensures r[i] < r[j]
    {
      IncreasingBetween(r, i, j);
    }
  }

  /** A `<Sequence from durationInFrames>` renders its children at `frame`. */
  predicate SequenceShows(from: int, durationInFrames: int, frame: int)
  {
    from <= frame < from + durationInFrames
  }

  /** The frame a `<Sequence from>` hands to its children. */
  function SequenceLocalFrame(from: int, frame: int): int
  {
    frame - from
  }
}
