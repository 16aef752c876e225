/** The energy axis of an emissivity table: its bin edges, the per-bin
    widths and midpoints derived from them, and the location of an energy
    among the edges (`np.digitize` followed by `np.clip`). */
module EnergyBins {

  ghost predicate StrictlyIncreasing(e: seq<real>)
  {
    forall i, j :: 0 <= i < j < |e| ==> e[i] < e[j]
  }

  /** Sum of a sequence of reals, accumulated from the front. */
  function Sum(s: seq<real>): (r: real)
  {
    if |s| == 0 then 0.0 else Sum(s[..|s| - 1]) + s[|s| - 1]
  }

  /** `d` holds the bin widths of the edges `e`, as `np.diff` computes them:
      one entry per bin, the distance between its two edges. */
  ghost predicate IsDiff(d: seq<real>, e: seq<real>)
  {
    |d| + 1 == |e| && forall i :: 0 <= i < |d| ==> d[i] == e[i + 1] - e[i]
  }

  /** `m` holds the bin midpoints `(e[i] + e[i+1]) / 2`, by which photon
      mode divides. */
  ghost predicate IsMidpoints(m: seq<real>, e: seq<real>)
  {
    |m| + 1 == |e| && forall i :: 0 <= i < |m| ==> m[i] == (e[i] + e[i + 1]) / 2.0
  }

  /** Over strictly increasing edges every bin has positive width, and its
      midpoint lies strictly inside the bin. */
  lemma BinsNonDegenerate(d: seq<real>, m: seq<real>, e: seq<real>)
    requires StrictlyIncreasing(e) && IsDiff(d, e) && IsMidpoints(m, e)
    ensures forall i :: 0 <= i < |d| ==> d[i] > 0.0 && e[i] < m[i] < e[i + 1]
  {
    forall i | 0 <= i < |d|
      ensures d[i] > 0.0 && e[i] < m[i] < e[i + 1]
    {
      assert e[i] < e[i + 1];
    }
  }

  /** The widths of a run of consecutive bins add up to the distance
      between the run's outer edges. */
  lemma {:induction false} SumDiffSlice(d: seq<real>, e: seq<real>, a: nat, b: nat)
    requires IsDiff(d, e) && a <= b < |e|
    ensures Sum(d[a..b]) == e[b] - e[a]
    decreases b - a
  {
    if b > a {
      SumDiffSlice(d, e, a, b - 1);
      var run := d[a..b];
      assert run[..|run| - 1] == d[a..b - 1];
    } else {
      assert d[a..b] == [];
    }
  }

  /** Changing one entry changes the sum by the difference. */
  lemma {:induction false} SumUpdate(s: seq<real>, i: nat, v: real)
    requires i < |s|
    ensures Sum(s[i := v]) == Sum(s) - s[i] + v
    decreases |s|
  {
    var t := s[i := v];
    if i < |s| - 1 {
      SumUpdate(s[..|s| - 1], i, v);
      assert t[..|t| - 1] == s[..|s| - 1][i := v];
    } else {
      assert t[..|t| - 1] == s[..|s| - 1];
    }
  }

  /** The number of edges at or below `x`: what `np.digitize(x, e)` returns
      for increasing edges. */
  function CountAtMost(e: seq<real>, x: real): (k: nat)
    ensures k <= |e|
  {
    if |e| == 0 then 0
    else CountAtMost(e[..|e| - 1], x) + (if e[|e| - 1] <= x then 1 else 0)
  }

  /** When the edges below index `k` are at most `x` and the rest exceed it,
      exactly `k` edges are at most `x`. */
  lemma {:induction false} CountAtMostOfSplit(e: seq<real>, x: real, k: nat)
    requires k <= |e|
    requires forall i :: 0 <= i < k ==> e[i] <= x
    requires forall i :: k <= i < |e| ==> x < e[i]
    ensures CountAtMost(e, x) == k
    decreases |e|
  {
    if |e| > 0 {
      var p := e[..|e| - 1];
      if k == |e| {
        CountAtMostOfSplit(p, x, k - 1);
      } else {
        CountAtMostOfSplit(p, x, k);
      }
    }
  }

  /** Over increasing edges the count splits the edges into those at most
      `x` and those above it. */
  lemma {:induction false} CountAtMostSplits(e: seq<real>, x: real)
    requires StrictlyIncreasing(e)
    ensures forall i :: 0 <= i < CountAtMost(e, x) ==> e[i] <= x
    ensures forall i :: CountAtMost(e, x) <= i < |e| ==> x < e[i]
    decreases |e|
  {
    if |e| > 0 {
      var p := e[..|e| - 1];
      CountAtMostSplits(p, x);
    }
  }

  /** `np.digitize` for one value: a binary search for the number of edges
      at or below `x`. */
  method Digitize(e: seq<real>, x: real) returns (k: nat)
    requires StrictlyIncreasing(e)
    ensures k == CountAtMost(e, x)
    ensures forall i :: 0 <= i < k ==> e[i] <= x
    ensures forall i :: k <= i < |e| ==> x < e[i]
  {
    var lo, hi := 0, |e|;
    while lo < hi
      invariant 0 <= lo <= hi <= |e|
      invariant forall i :: 0 <= i < lo ==> e[i] <= x
      invariant forall i :: hi <= i < |e| ==> x < e[i]
      decreases hi - lo
    {
      var mid := (lo + hi) / 2;
      if e[mid] <= x {
        lo := mid + 1;
      } else {
        hi := mid;
      }
    }
    CountAtMostOfSplit(e, x, lo);
    k := lo;
  }

  /** `np.clip(v, lo, hi)`: `min(max(v, lo), hi)`. */
  function Clip(v: int, lo: int, hi: int): (r: int)
    ensures lo <= hi ==> lo <= r <= hi
    ensures lo <= v <= hi ==> r == v
    ensures v < lo <= hi ==> r == lo
    ensures lo <= hi < v ==> r == hi
  {
    var m := if v < lo then lo else v;
    if m > hi then hi else m
  }

  /** The first and the one-past-last bin index of a band `[eMin, eMax]`:
      `e_is = clip(digitize(eMin) - 1, 0, n - 1)` and
      `e_ie = clip(digitize(eMax), 0, n - 1)` for `n` edges. */
  function BinIndices(e: seq<real>, eMin: real, eMax: real): (r: (nat, nat))
    requires |e| >= 1
    ensures r.0 < |e| && r.1 < |e|
  {
    (Clip(CountAtMost(e, eMin) - 1, 0, |e| - 1), Clip(CountAtMost(e, eMax), 0, |e| - 1))
  }

  /** The first index is the bin holding `eMin`: its lower edge is at most
      `eMin` whenever `eMin` is at or above the first edge, and its upper
      edge lies above `eMin` whenever `eMin` is also below the last edge. */
  lemma FirstBinHoldsMin(e: seq<real>, eMin: real, eMax: real)
    requires |e| >= 1 && StrictlyIncreasing(e)
    ensures e[0] <= eMin ==> e[BinIndices(e, eMin, eMax).0] <= eMin
    ensures e[0] <= eMin < e[|e| - 1] ==>
      BinIndices(e, eMin, eMax).0 + 1 < |e| && eMin < e[BinIndices(e, eMin, eMax).0 + 1]
  {
    CountAtMostSplits(e, eMin);
    var c := CountAtMost(e, eMin);
    if eMin < e[|e| - 1] {
      assert c < |e|;
    }
    if e[0] <= eMin {
      assert c >= 1;
    }
  }

  /** A band that starts at or past the last edge selects no bin. */
  lemma EmptyAtTop(e: seq<real>, eMin: real, eMax: real)
    requires |e| >= 1 && StrictlyIncreasing(e)
    requires e[|e| - 1] <= eMin
    ensures BinIndices(e, eMin, eMax).0 >= BinIndices(e, eMin, eMax).1
  {
    CountAtMostSplits(e, eMin);
    assert CountAtMost(e, eMin) == |e|;
  }

  /** A band inside the edges is bracketed by the selected bins: the run of
      bins `[lo, hi)` is non-empty, `eMin` lies in its first bin and `eMax`
      in its last. */
  lemma BandBracketed(e: seq<real>, eMin: real, eMax: real)
    requires |e| >= 1 && StrictlyIncreasing(e)
    requires e[0] <= eMin < eMax <= e[|e| - 1]
    ensures var (lo, hi) := BinIndices(e, eMin, eMax);
      && lo < hi
      && e[lo] <= eMin < e[lo + 1]
      && e[hi - 1] <= eMax <= e[hi]
  {
    CountAtMostSplits(e, eMin);
    CountAtMostSplits(e, eMax);
    var cMin, cMax := CountAtMost(e, eMin), CountAtMost(e, eMax);
    assert 1 <= cMin < |e|;
    if cMax == cMin {
      assert e[cMin - 1] <= eMin < eMax;
      assert eMax < e[cMin];
      assert eMin < e[cMin];
    }
  }
}
