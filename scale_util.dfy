/** The pure animation arithmetic of the stage (class ScaleUtil). */
module ScaleUtil {
  import opened Config

  function Max(x: real, y: real): real { if x >= y then x else y }
  function Min(x: real, y: real): real { if x <= y then x else y }
  function Abs(x: real): real { if x >= 0.0 then x else -x }

  /** Clamps x into the unit interval. */
  function Clamp01(x: real): real { Max(0.0, Min(1.0, x)) }

  /** How far `scale` has run past the start `i/n` of segment `i`, never below 0. */
  function MaxScale(scale: real, i: int, n: int): (r: real)
    requires n > 0
    ensures r >= 0.0
    ensures r >= scale - i as real / n as real
    ensures r == 0.0 || r == scale - i as real / n as real
  {
    Max(0.0, scale - i as real / n as real)
  }

  /** Progress, in [0, 1], of segment `i` when `scale` is spread over `n`
      equal segments. */
  function DivideScale(scale: real, i: int, n: int): (r: real)
    requires n > 0
    ensures 0.0 <= r <= 1.0
  {
    Min(1.0 / n as real, MaxScale(scale, i, n)) * n as real
  }

  /** The ramp that DivideScale is meant to be: 0 up to `i/n`, linear on
      `[i/n, (i+1)/n]`, 1 from `(i+1)/n` on. */
  function Ramp(scale: real, i: int, n: int): real
    requires n > 0
  {
    if scale <= i as real / n as real then 0.0
    else if scale >= (i + 1) as real / n as real then 1.0
    else n as real * scale - i as real
  }

  /** Which half-cycle `scale` is in: the floor of `scale / ScDiv`. */
  function ScaleFactor(scale: real): (k: int)
    ensures k as real * ScDiv <= scale < (k + 1) as real * ScDiv
  {
    (scale / ScDiv).Floor
  }

  /** Speed multiplier: blends `1/a` and `1/b` by the half-cycle indicator.
      The contract covers half-cycles 0 and 1 only, the ones a reachable
      State passes to it (its scale stays in [0, 1]); for other half-cycles
      the blend extrapolates linearly in the indicator. */
  function MirrorValue(scale: real, a: real, b: real): (r: real)
    requires a != 0.0 && b != 0.0
    ensures ScaleFactor(scale) == 0 ==> r == 1.0 / a
    ensures ScaleFactor(scale) == 1 ==> r == 1.0 / b
  {
    var k := ScaleFactor(scale) as real;
    (1.0 - k) / a + k / b
  }

  /** The per-tick change of a scale moving in direction `dir`. */
  function UpdateValue(scale: real, dir: real, a: real, b: real): (r: real)
    requires a != 0.0 && b != 0.0
    ensures dir == 0.0 ==> r == 0.0
    ensures 0.0 <= scale < ScDiv ==> r == dir * ScGap / a
    ensures ScDiv <= scale < 2.0 * ScDiv ==> r == dir * ScGap / b
  {
    MirrorValue(scale, a, b) * dir * ScGap
  }

  /** Linear interpolation from `s` (at `sc == 0`) to `d` (at `sc == 1`). */
  function UpdateToD(s: real, d: real, sc: real): (r: real)
    ensures sc == 0.0 ==> r == s
    ensures sc == 1.0 ==> r == d
  {
    s + (d - s) * sc
  }

  /** For a fraction in [0, 1] the interpolated point lies between the ends. */
  lemma UpdateToDBetween(s: real, d: real, sc: real)
    requires 0.0 <= sc <= 1.0
    ensures Min(s, d) <= UpdateToD(s, d, sc) <= Max(s, d)
  {
    if s <= d {
      ScaledFraction(d - s, sc);
    } else {
      ScaledFraction(s - d, sc);
      assert (d - s) * sc == -((s - d) * sc);
    }
  }

  /** A non-negative length scaled by a fraction in [0, 1] stays within it. */
  lemma ScaledFraction(x: real, t: real)
    requires x >= 0.0 && 0.0 <= t <= 1.0
    ensures 0.0 <= x * t <= x
  {
    assert x * (1.0 - t) >= 0.0;
  }

  /** DivideScale, scaled back by `n`, is the clamp of `n*scale - i`. */
  lemma DivideScaleIsClamp(scale: real, i: int, n: int)
    requires n > 0
    ensures DivideScale(scale, i, n) == Clamp01(n as real * scale - i as real)
  {
    var nr, ir := n as real, i as real;
    assert (scale - ir / nr) * nr == nr * scale - ir;
    assert (1.0 / nr) * nr == 1.0;
  }

  /** DivideScale agrees with the piecewise ramp on every input. */
  lemma DivideScaleIsRamp(scale: real, i: int, n: int)
    requires n > 0
    ensures DivideScale(scale, i, n) == Ramp(scale, i, n)
  {
    DivideScaleIsClamp(scale, i, n);
    var nr, ir := n as real, i as real;
    if scale <= ir / nr {
      assert nr * scale <= ir;
    } else if scale >= (i + 1) as real / nr {
      assert nr * scale >= ir + 1.0;
    }
  }

  /** DivideScale never decreases as the scale grows. */
  lemma DivideScaleMonotone(s1: real, s2: real, i: int, n: int)
    requires n > 0 && s1 <= s2
    ensures DivideScale(s1, i, n) <= DivideScale(s2, i, n)
  {
    DivideScaleIsClamp(s1, i, n);
    DivideScaleIsClamp(s2, i, n);
    NonNegativeProduct(n as real, s2 - s1);
    ClampMonotone(n as real * s1 - i as real, n as real * s2 - i as real);
  }

  lemma NonNegativeProduct(x: real, y: real)
    requires x >= 0.0 && y >= 0.0
    ensures x * y >= 0.0
  {
  }

  lemma ClampMonotone(x: real, y: real)
    requires x <= y
    ensures Clamp01(x) <= Clamp01(y)
  {
  }

  /** Segments fill one after another: segment `i + 1` has started only once
      segment `i` is full, and it never runs ahead of segment `i`. */
  lemma DivideScaleSequential(scale: real, i: int, n: int)
    requires n > 0
    ensures DivideScale(scale, i + 1, n) <= DivideScale(scale, i, n)
    ensures DivideScale(scale, i + 1, n) > 0.0 ==> DivideScale(scale, i, n) == 1.0
  {
    DivideScaleIsClamp(scale, i, n);
    DivideScaleIsClamp(scale, i + 1, n);
  }

  /** Total progress of the first `m` of `n` segments. */
  function SegmentSum(scale: real, m: nat, n: int): real
    requires n > 0
  {
    if m == 0 then 0.0 else SegmentSum(scale, m - 1, n) + DivideScale(scale, m - 1, n)
  }

  /** For a non-negative scale the first `m` segments together hold
      `min(n*scale, m)`: the scale is spread over the segments in order. */
  lemma {:induction false} SegmentSumSpread(scale: real, m: nat, n: int)
    requires n > 0 && scale >= 0.0
    ensures SegmentSum(scale, m, n) == Min(n as real * scale, m as real)
  {
    if m > 0 {
      SegmentSumSpread(scale, m - 1, n);
      DivideScaleIsClamp(scale, m - 1, n);
    }
  }

  /** Over all `n` segments, a scale in [0, 1] is spread out exactly:
      the segment progresses add up to `n * scale`. */
  lemma SegmentSumWhole(scale: real, n: int)
    requires n > 0 && 0.0 <= scale <= 1.0
    ensures SegmentSum(scale, n, n) == n as real * scale
  {
    SegmentSumSpread(scale, n, n);
    assert n as real * scale <= n as real;
  }

  /** Interpolation can be undone: the fraction is recovered from the point
      whenever the two ends differ. */
  lemma UpdateToDInverse(s: real, d: real, sc: real)
    requires s != d
    ensures (UpdateToD(s, d, sc) - s) / (d - s) == sc
  {
  }
}
