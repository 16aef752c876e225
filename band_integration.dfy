/** Integrating binned emissivity over an energy band: the tolerance test
    that admits a band, the bin widths clipped to the band, and the
    weighted sum over the selected bins. The partner of the weighted sum is
    `ExactIntegral`, the integral over the band of the step function that
    takes each bin's value on that bin. */
module BandIntegration {
  import opened EnergyBins

  /** Relative tolerance of the bounds test. */
  const Tolerance: real := 0.001

  /** The band scaled from the observer frame to the rest frame. */
  function RestFrame(e: real, redshift: real): (r: real)
    ensures redshift == 0.0 ==> r == e
    ensures 0.0 < e && -1.0 < redshift ==> 0.0 < r
    ensures 0.0 <= e && 0.0 <= redshift ==> e <= r
  {
    var scale := 1.0 + redshift;
    assert 0.0 < e && 0.0 < scale ==> 0.0 < e * scale;
    e * scale
  }

  /** `num / den < bound` as IEEE-754 evaluates it for a finite `bound`:
      a zero denominator gives -inf, +inf or nan by the sign of `num`. */
  predicate QuotientBelow(num: real, den: real, bound: real)
    ensures den < 0.0 ==> (QuotientBelow(num, den, bound) <==> num > bound * den)
  {
    if den == 0.0 then num < 0.0 else num / den < bound
  }

  /** `num / den > bound`, with the same treatment of a zero denominator. */
  predicate QuotientAbove(num: real, den: real, bound: real)
    ensures den < 0.0 ==> (QuotientAbove(num, den, bound) <==> num < bound * den)
  {
    if den == 0.0 then num > 0.0 else num / den > bound
  }

  /** The rejection test for a rest-frame band against the edges `e`. A
      band starting at zero energy divides by zero: the lower quotient is
      -inf when the first edge is positive, and nan (never below) when it
      is zero; likewise +inf or nan for a band ending at zero. */
  predicate OutOfBounds(e: seq<real>, eMin: real, eMax: real)
    requires |e| >= 1
    ensures eMin == 0.0 && 0.0 < e[0] ==> OutOfBounds(e, eMin, eMax)
    ensures eMax == 0.0 && e[|e| - 1] < 0.0 ==> OutOfBounds(e, eMin, eMax)
    ensures eMin == 0.0 && eMax == 0.0 ==> (OutOfBounds(e, eMin, eMax) <==> 0.0 < e[0] || e[|e| - 1] < 0.0)
  {
    QuotientBelow(eMin - e[0], eMin, -Tolerance) || QuotientAbove(eMax - e[|e| - 1], eMax, Tolerance)
  }

  lemma QuotientScaled(num: real, den: real, bound: real)
    requires den > 0.0
    ensures QuotientBelow(num, den, bound) <==> num < bound * den
    ensures QuotientAbove(num, den, bound) <==> num > bound * den
  {
    var q := num / den;
    assert q * den == num;
    if q < bound {
      assert q * den < bound * den;
    } else {
      assert q * den >= bound * den;
    }
    if q > bound {
      assert q * den > bound * den;
    } else {
      assert q * den <= bound * den;
    }
  }

  /** A band of non-negative energies inside the edges is never rejected. */
  lemma InsideBandAccepted(e: seq<real>, eMin: real, eMax: real)
    requires |e| >= 1
    requires 0.0 <= eMin && 0.0 <= eMax
    requires e[0] <= eMin && eMax <= e[|e| - 1]
    ensures !OutOfBounds(e, eMin, eMax)
  {
    if eMin > 0.0 {
      QuotientScaled(eMin - e[0], eMin, -Tolerance);
    }
    if eMax > 0.0 {
      QuotientScaled(eMax - e[|e| - 1], eMax, Tolerance);
    }
  }

  /** For positive energies the test rejects exactly the bands whose lower
      end lies more than the tolerance below the first edge, or whose upper
      end lies more than the tolerance above the last edge. */
  lemma OutOfBoundsExactly(e: seq<real>, eMin: real, eMax: real)
    requires |e| >= 1
    requires 0.0 < eMin && 0.0 < eMax
    ensures OutOfBounds(e, eMin, eMax) <==>
      (1.0 + Tolerance) * eMin < e[0] || e[|e| - 1] < (1.0 - Tolerance) * eMax
  {
    QuotientScaled(eMin - e[0], eMin, -Tolerance);
    QuotientScaled(eMax - e[|e| - 1], eMax, Tolerance);
  }

  /** The length of the intersection of the bin `[lo, hi]` and the band `[a, b]`. */
  function Overlap(lo: real, hi: real, a: real, b: real): (r: real)
    ensures r >= 0.0
    ensures lo <= hi ==> r <= hi - lo
    ensures a <= b ==> r <= b - a
    ensures hi <= a || b <= lo ==> r == 0.0
  {
    var l := if lo < a then a else lo;
    var h := if hi < b then hi else b;
    if l < h then h - l else 0.0
  }

  /** A band inside the bin overlaps it along its whole width. */
  lemma OverlapInside(lo: real, hi: real, a: real, b: real)
    requires lo <= a <= b <= hi
    ensures Overlap(lo, hi, a, b) == b - a
  {
  }

  /** The copied widths of bins `[lo, hi)` with the first shrunk by the part
      of its bin below `eMin` and the last by the part above `eMax`. */
  function ClippedWidths(e: seq<real>, widths: seq<real>, lo: nat, hi: nat, eMin: real, eMax: real)
    : (w: seq<real>)
    requires lo < hi < |e| && |widths| + 1 == |e|
    ensures |w| == hi - lo
  {
    var run := widths[lo..hi];
    var first := run[0 := run[0] - (eMin - e[lo])];
    first[|first| - 1 := first[|first| - 1] - (e[hi] - eMax)]
  }

  /** Clipping changes only the first and the last copied width: every
      interior width is the bin's full width. */
  lemma InteriorWidthsUnclipped(e: seq<real>, widths: seq<real>, lo: nat, hi: nat, eMin: real, eMax: real)
    requires lo < hi < |e| && |widths| + 1 == |e|
    ensures var w := ClippedWidths(e, widths, lo, hi, eMin, eMax);
      forall j {:trigger w[j]} :: 0 < j < |w| - 1 ==> w[j] == widths[lo + j]
  {
  }

  /** The clipped widths telescope to the width of the band, for any
      non-empty run of bins, also when both ends fall in one bin. */
  lemma ClippedWidthsSum(e: seq<real>, widths: seq<real>, lo: nat, hi: nat, eMin: real, eMax: real)
    requires lo < hi < |e| && IsDiff(widths, e)
    ensures Sum(ClippedWidths(e, widths, lo, hi, eMin, eMax)) == eMax - eMin
  {
    var run := widths[lo..hi];
    var first := run[0 := run[0] - (eMin - e[lo])];
    SumDiffSlice(widths, e, lo, hi);
    SumUpdate(run, 0, run[0] - (eMin - e[lo]));
    SumUpdate(first, |first| - 1, first[|first| - 1] - (e[hi] - eMax));
  }

  /** One clipped width of a run whose first bin holds `eMin` and whose
      last bin holds `eMax` is the overlap of its bin with the band. */
  lemma ClippedWidthIsOverlap(e: seq<real>, widths: seq<real>, lo: nat, hi: nat, eMin: real, eMax: real, j: nat)
    requires lo < hi < |e| && IsDiff(widths, e) && j < hi - lo
    requires eMin < eMax && e[lo] <= eMin < e[lo + 1] && e[hi - 1] <= eMax <= e[hi]
    requires e[lo + j] < e[lo + j + 1]
    requires 0 < j ==> eMin < e[lo + j]
    requires j < hi - lo - 1 ==> e[lo + j + 1] <= eMax
    ensures var w := ClippedWidths(e, widths, lo, hi, eMin, eMax);
      w[j] == Overlap(e[lo + j], e[lo + j + 1], eMin, eMax) && 0.0 <= w[j] <= widths[lo + j]
  {
    var w := ClippedWidths(e, widths, lo, hi, eMin, eMax);
    var below := if j == 0 then eMin - e[lo] else 0.0;
    var above := if j == hi - lo - 1 then e[hi] - eMax else 0.0;
    assert w[j] == widths[lo + j] - below - above;
    assert widths[lo + j] == e[lo + j + 1] - e[lo + j];
  }

  /** Inside the edges, each clipped width is exactly the length of the part
      of its bin that lies in the band: between zero and the full width. */
  lemma ClippedWidthsAreOverlaps(e: seq<real>, widths: seq<real>, eMin: real, eMax: real)
    requires |e| >= 1 && StrictlyIncreasing(e) && IsDiff(widths, e)
    requires e[0] <= eMin < eMax <= e[|e| - 1]
    ensures BinIndices(e, eMin, eMax).0 < BinIndices(e, eMin, eMax).1
    ensures var lo, hi := BinIndices(e, eMin, eMax).0, BinIndices(e, eMin, eMax).1;
      var w := ClippedWidths(e, widths, lo, hi, eMin, eMax);
      forall j {:trigger w[j]} :: 0 <= j < |w| ==>
        && w[j] == Overlap(e[lo + j], e[lo + j + 1], eMin, eMax)
        && 0.0 <= w[j] <= widths[lo + j]
  {
    BandBracketed(e, eMin, eMax);
    var lo, hi := BinIndices(e, eMin, eMax).0, BinIndices(e, eMin, eMax).1;
    RunWidthsAreOverlaps(e, widths, lo, hi, eMin, eMax);
  }

  /** The same, for any run whose first bin holds `eMin` and whose last bin
      holds `eMax`. */
  lemma RunWidthsAreOverlaps(e: seq<real>, widths: seq<real>, lo: nat, hi: nat, eMin: real, eMax: real)
    requires lo < hi < |e| && StrictlyIncreasing(e) && IsDiff(widths, e)
    requires eMin < eMax && e[lo] <= eMin < e[lo + 1] && e[hi - 1] <= eMax <= e[hi]
    ensures var w := ClippedWidths(e, widths, lo, hi, eMin, eMax);
      forall j {:trigger w[j]} :: 0 <= j < |w| ==>
        && w[j] == Overlap(e[lo + j], e[lo + j + 1], eMin, eMax)
        && 0.0 <= w[j] <= widths[lo + j]
  {
    var w := ClippedWidths(e, widths, lo, hi, eMin, eMax);
    forall j | 0 <= j < |w|
      ensures w[j] == Overlap(e[lo + j], e[lo + j + 1], eMin, eMax) && 0.0 <= w[j] <= widths[lo + j]
    {
      assert e[lo + j] < e[lo + j + 1];
      if 0 < j {
        assert e[lo + 1] <= e[lo + j];
      }
      if j < |w| - 1 {
        assert e[lo + j + 1] <= e[hi - 1];
      }
      ClippedWidthIsOverlap(e, widths, lo, hi, eMin, eMax, j);
    }
  }

  /** The weighted sum `sum(v * w)` over paired entries. */
  function Dot(v: seq<real>, w: seq<real>): (r: real)
    requires |v| == |w|
  {
    if |v| == 0 then 0.0 else Dot(v[..|v| - 1], w[..|w| - 1]) + v[|v| - 1] * w[|w| - 1]
  }

  /** The weighted sum over a run of bins whose values all equal `c`. */
  lemma {:induction false} DotConstant(v: seq<real>, w: seq<real>, c: real)
    requires |v| == |w|
    requires forall i :: 0 <= i < |v| ==> v[i] == c
    ensures Dot(v, w) == c * Sum(w)
    decreases |v|
  {
    if |v| > 0 {
      DotConstant(v[..|v| - 1], w[..|w| - 1], c);
    }
  }

  /** Two weighted sums over consecutive runs add up to the weighted sum
      over the joined run. */
  lemma {:induction false} DotAppend(a: seq<real>, b: seq<real>, c: seq<real>, d: seq<real>)
    requires |a| == |c| && |b| == |d|
    ensures Dot(a + b, c + d) == Dot(a, c) + Dot(b, d)
    decreases |b|
  {
    if |b| == 0 {
      assert a + b == a && c + d == c;
    } else {
      var ab, cd := a + b, c + d;
      assert ab[..|ab| - 1] == a + b[..|b| - 1];
      assert cd[..|cd| - 1] == c + d[..|d| - 1];
      DotAppend(a, b[..|b| - 1], c, d[..|d| - 1]);
    }
  }

  /** Entries weighted by zero contribute nothing. */
  lemma {:induction false} DotZeroWeights(v: seq<real>, w: seq<real>)
    requires |v| == |w|
    requires forall i :: 0 <= i < |w| ==> w[i] == 0.0
    ensures Dot(v, w) == 0.0
    decreases |v|
  {
    if |v| > 0 {
      DotZeroWeights(v[..|v| - 1], w[..|w| - 1]);
    }
  }

  /** A weighted sum whose only non-zero weight `x` sits at `k`. */
  lemma {:induction false} DotOneWeight(v: seq<real>, w: seq<real>, k: nat, x: real)
    requires |v| == |w| && k < |v| && w[k] == x
    requires forall i :: 0 <= i < k || k + 1 <= i < |w| ==> w[i] == 0.0
    ensures Dot(v, w) == v[k] * x
    decreases |v|
  {
    var n := |v| - 1;
    if n == k {
      DotZeroWeights(v[..n], w[..n]);
    } else {
      DotOneWeight(v[..n], w[..n], k, x);
      assert v[n] * w[n] == 0.0;
    }
  }

  /** The weighted sum splits at any index `k`. */
  lemma DotSplit(v: seq<real>, w: seq<real>, k: nat)
    requires |v| == |w| && k <= |v|
    ensures Dot(v, w) == Dot(v[..k], w[..k]) + Dot(v[k..], w[k..])
  {
    assert v == v[..k] + v[k..];
    assert w == w[..k] + w[k..];
    DotAppend(v[..k], v[k..], w[..k], w[k..]);
  }

  /** When every weight outside `[lo, hi)` is zero, the weighted sum is the
      weighted sum of `run`, the weights of `[lo, hi)`, over `[lo, hi)`
      alone. */
  lemma DotOverRun(v: seq<real>, w: seq<real>, lo: nat, hi: nat, run: seq<real>)
    requires |v| == |w| && lo <= hi <= |v| && |run| == hi - lo
    requires forall j :: 0 <= j < |run| ==> w[lo + j] == run[j]
    requires forall i :: 0 <= i < lo || hi <= i < |w| ==> w[i] == 0.0
    ensures Dot(v, w) == Dot(v[lo..hi], run)
  {
    DotSplit(v, w, lo);
    DotZeroWeights(v[..lo], w[..lo]);
    var tailV, tailW := v[lo..], w[lo..];
    DotSplit(tailV, tailW, hi - lo);
    assert tailV[..hi - lo] == v[lo..hi];
    assert tailW[..hi - lo] == run;
    var restW := tailW[hi - lo..];
    forall i | 0 <= i < |restW|
      ensures restW[i] == 0.0
    {
      assert restW[i] == w[hi + i];
    }
    DotZeroWeights(tailV[hi - lo..], restW);
  }

  /** The overlap of each bin `[lo, hi)` with the band `[eMin, eMax]`. */
  function Overlaps(e: seq<real>, lo: nat, hi: nat, eMin: real, eMax: real): (r: seq<real>)
    requires lo <= hi < |e|
    ensures |r| == hi - lo
    decreases hi - lo
  {
    if hi == lo then [] else Overlaps(e, lo, hi - 1, eMin, eMax) + [Overlap(e[hi - 1], e[hi], eMin, eMax)]
  }

  /** Entry `j` of `Overlaps` is the overlap of bin `lo + j` with the band. */
  lemma {:induction false} OverlapsAt(e: seq<real>, lo: nat, hi: nat, eMin: real, eMax: real, j: nat)
    requires lo <= hi < |e| && j < hi - lo
    ensures Overlaps(e, lo, hi, eMin, eMax)[j] == Overlap(e[lo + j], e[lo + j + 1], eMin, eMax)
    decreases hi - lo
  {
    if j < hi - lo - 1 {
      OverlapsAt(e, lo, hi - 1, eMin, eMax, j);
    }
  }

  /** The integral over `[eMin, eMax]` of the step function that equals
      `v[i]` on bin `i` of the edges `e`: each value times the length of
      the part of its bin inside the band. */
  function ExactIntegral(v: seq<real>, e: seq<real>, eMin: real, eMax: real): (r: real)
    requires |e| == |v| + 1
  {
    Dot(v, Overlaps(e, 0, |v|, eMin, eMax))
  }

  /** Only bins `[lo, hi)` meet the band when `eMin` is at or above edge
      `lo` and `eMax` at or below edge `hi`. */
  lemma OverlapsOutsideRun(e: seq<real>, bins: nat, lo: nat, hi: nat, eMin: real, eMax: real)
    requires bins + 1 == |e| && StrictlyIncreasing(e) && lo <= hi <= bins
    requires e[lo] <= eMin && eMax <= e[hi]
    ensures forall i :: 0 <= i < lo || hi <= i < bins ==> Overlaps(e, 0, bins, eMin, eMax)[i] == 0.0
  {
    var o := Overlaps(e, 0, bins, eMin, eMax);
    forall i | 0 <= i < lo || hi <= i < bins
      ensures o[i] == 0.0
    {
      OverlapsAt(e, 0, bins, eMin, eMax, i);
      if i < lo {
        assert e[i + 1] <= e[lo];
      } else {
        assert e[hi] <= e[i];
      }
    }
  }

  /** Weights that are the overlaps of bins `[lo, hi)` with the band are the
      entries `[lo, hi)` of `Overlaps`. */
  lemma OverlapsOfRun(e: seq<real>, bins: nat, w: seq<real>, lo: nat, hi: nat, eMin: real, eMax: real)
    requires bins + 1 == |e| && lo <= hi <= bins && |w| == hi - lo
    requires forall j {:trigger w[j]} :: 0 <= j < |w| ==> w[j] == Overlap(e[lo + j], e[lo + j + 1], eMin, eMax)
    ensures forall j :: 0 <= j < |w| ==> Overlaps(e, 0, bins, eMin, eMax)[lo + j] == w[j]
  {
    forall j | 0 <= j < |w|
      ensures Overlaps(e, 0, bins, eMin, eMax)[lo + j] == w[j]
    {
      OverlapsAt(e, 0, bins, eMin, eMax, lo + j);
    }
  }

  /** A weighted sum over bins `[lo, hi)` whose weights are their overlaps
      with the band is the whole integral, when no other bin meets the band. */
  lemma DotOfOverlaps(v: seq<real>, e: seq<real>, w: seq<real>, lo: nat, hi: nat, eMin: real, eMax: real)
    requires |v| + 1 == |e| && lo <= hi <= |v| && |w| == hi - lo
    requires forall j :: 0 <= j < |w| ==> Overlaps(e, 0, |v|, eMin, eMax)[lo + j] == w[j]
    requires forall i :: 0 <= i < lo || hi <= i < |v| ==> Overlaps(e, 0, |v|, eMin, eMax)[i] == 0.0
    ensures Dot(v[lo..hi], w) == ExactIntegral(v, e, eMin, eMax)
  {
    DotOverRun(v, Overlaps(e, 0, |v|, eMin, eMax), lo, hi, w);
  }

  /** The band integral of one grid cell: its values over the selected bins
      weighted by the clipped widths. When a single bin is selected both
      clippings fall on its one copied width, which leaves the band's own
      width. */
  function CellIntegral(v: seq<real>, e: seq<real>, widths: seq<real>, lo: nat, hi: nat,
                        eMin: real, eMax: real): (r: real)
    requires lo < hi < |e| && |v| + 1 == |e| && |widths| + 1 == |e|
    ensures hi == lo + 1 && IsDiff(widths, e) ==> r == v[lo] * (eMax - eMin)
  {
    var run, w := v[lo..hi], ClippedWidths(e, widths, lo, hi, eMin, eMax);
    assert hi == lo + 1 ==> run[..0] == [] && w[..0] == [] && Dot(run, w) == run[0] * w[0];
    Dot(run, w)
  }

  /** For a band inside the edges, the clipped weighted sum is the exact
      integral of the binned values over the band: no bin is counted for
      more than the part of it that lies in the band, and no part of the
      band is missed. */
  lemma BandIntegralIsExact(v: seq<real>, e: seq<real>, widths: seq<real>, eMin: real, eMax: real)
    requires |v| + 1 == |e| && StrictlyIncreasing(e) && IsDiff(widths, e)
    requires e[0] <= eMin < eMax <= e[|e| - 1]
    ensures var (lo, hi) := BinIndices(e, eMin, eMax);
      lo < hi && CellIntegral(v, e, widths, lo, hi, eMin, eMax) == ExactIntegral(v, e, eMin, eMax)
  {
    BandBracketed(e, eMin, eMax);
    ClippedWidthsAreOverlaps(e, widths, eMin, eMax);
    var (lo, hi) := BinIndices(e, eMin, eMax);
    var w := ClippedWidths(e, widths, lo, hi, eMin, eMax);
    OverlapsOutsideRun(e, |v|, lo, hi, eMin, eMax);
    OverlapsOfRun(e, |v|, w, lo, hi, eMin, eMax);
    DotOfOverlaps(v, e, w, lo, hi, eMin, eMax);
  }

  /** Where every selected bin has the same value `c`, the integral is `c`
      times the band width, for any non-empty selection. */
  lemma ConstantCellIntegral(v: seq<real>, e: seq<real>, widths: seq<real>, lo: nat, hi: nat,
                             eMin: real, eMax: real, c: real)
    requires lo < hi < |e| && |v| + 1 == |e| && IsDiff(widths, e)
    requires forall i :: lo <= i < hi ==> v[i] == c
    ensures CellIntegral(v, e, widths, lo, hi, eMin, eMax) == c * (eMax - eMin)
  {
    DotConstant(v[lo..hi], ClippedWidths(e, widths, lo, hi, eMin, eMax), c);
    ClippedWidthsSum(e, widths, lo, hi, eMin, eMax);
  }

  /** A band inside a single bin `k` integrates to that bin's value times
      the band width. */
  lemma WithinOneBin(v: seq<real>, e: seq<real>, k: nat, eMin: real, eMax: real)
    requires |v| + 1 == |e| && StrictlyIncreasing(e) && k < |v|
    requires e[k] <= eMin < eMax <= e[k + 1]
    ensures ExactIntegral(v, e, eMin, eMax) == v[k] * (eMax - eMin)
  {
    OverlapsOutsideRun(e, |v|, k, k + 1, eMin, eMax);
    OverlapInside(e[k], e[k + 1], eMin, eMax);
    OverlapsAt(e, 0, |v|, eMin, eMax, k);
    DotOneWeight(v, Overlaps(e, 0, |v|, eMin, eMax), k, eMax - eMin);
  }
}
