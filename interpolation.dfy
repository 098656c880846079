/**
 * Gap filling for the daily series: entries equal to the sentinel -1 mark days on
 * which the ephemeris library failed, and are replaced by piecewise-linear
 * interpolation over the day index, using the other entries as anchors and
 * extending the outermost segments beyond the first and last anchor
 * (scipy's `interp1d(kind='linear', fill_value='extrapolate')`).
 */
module Interpolation {

  /** The value written for every quantity of a day on which the library failed. */
  const Sentinel: real := -1.0

  predicate IsMissing(v: real) {
    v == Sentinel
  }

  datatype Error =
    | EmptySeries     // `times[0]` on an empty list
    | TooFewAnchors   // `interp1d` needs at least two anchors

  datatype Result<T> = Ok(value: T) | Err(error: Error)

  predicate StrictlyIncreasing(xs: seq<nat>) {
    forall k, l :: 0 <= k < l < |xs| ==> xs[k] < xs[l]
  }

  /**
   * The positions i of s, in increasing order, at which IsMissing(s[i]) == missing:
   * `np.where(times == -1)[0]` for missing, `np.where(times != -1)[0]` otherwise.
   */
  function IndicesWhere(s: seq<real>, missing: bool): (xs: seq<nat>)
    ensures |xs| <= |s|
    ensures StrictlyIncreasing(xs)
    ensures forall k :: 0 <= k < |xs| ==> xs[k] < |s| && IsMissing(s[xs[k]]) == missing
    ensures forall i :: 0 <= i < |s| && IsMissing(s[i]) == missing ==> i in xs
  {
    if |s| == 0 then []
    else
      var xs := IndicesWhere(s[..|s| - 1], missing);
      assert forall k :: 0 <= k < |xs| ==> s[xs[k]] == s[..|s| - 1][xs[k]];
      xs + (if IsMissing(s[|s| - 1]) == missing then [|s| - 1] else [])
  }

  /** The anchors: the positions that carry a real value. */
  function Anchors(s: seq<real>): seq<nat> {
    IndicesWhere(s, false)
  }

  /** The gaps: the positions that carry the sentinel. */
  function Gaps(s: seq<real>): seq<nat> {
    IndicesWhere(s, true)
  }

  /** Fancy indexing `s[xs]`. */
  function Pick(s: seq<real>, xs: seq<nat>): (ys: seq<real>)
    requires forall k :: 0 <= k < |xs| ==> xs[k] < |s|
    ensures |ys| == |xs|
    ensures forall k :: 0 <= k < |xs| ==> ys[k] == s[xs[k]]
  {
    seq(|xs|, k requires 0 <= k < |xs| => s[xs[k]])
  }

  /** The readings of a series: its entries other than the sentinel, in order. */
  function Readings(s: seq<real>): (vs: seq<real>)
    ensures |vs| <= |s|
    ensures forall k :: 0 <= k < |vs| ==> !IsMissing(vs[k])
  {
    if |s| == 0 then []
    else Readings(s[..|s| - 1]) + (if IsMissing(s[|s| - 1]) then [] else [s[|s| - 1]])
  }

  /** `times[valid_indices]` are exactly the series' readings, in order. */
  lemma {:induction false} PickAnchorsIsReadings(s: seq<real>)
    ensures Pick(s, Anchors(s)) == Readings(s)
  {
    if |s| > 0 {
      var init := s[..|s| - 1];
      var last := |s| - 1;
      PickAnchorsIsReadings(init);
      var xs := Anchors(init);
      assert Anchors(s) == xs + (if IsMissing(s[last]) then [] else [last]);
      assert forall k :: 0 <= k < |xs| ==> s[xs[k]] == init[xs[k]];
      assert Pick(s, Anchors(s)) == Pick(init, xs) + (if IsMissing(s[last]) then [] else [s[last]]);
    }
  }

  /**
   * `numpy.searchsorted(xs, x)` with the default side 'left': the first position
   * whose entry is at least x, or |xs| when there is none.
   */
  function SearchSorted(xs: seq<nat>, x: int): (k: nat)
    ensures k <= |xs|
    ensures forall j :: 0 <= j < k ==> xs[j] < x
    ensures k < |xs| ==> x <= xs[k]
  {
    if |xs| == 0 || x <= xs[0] then 0 else 1 + SearchSorted(xs[1..], x)
  }

  function Clip(k: int, lo: int, hi: int): int
    requires lo <= hi
  {
    if k < lo then lo else if k > hi then hi else k
  }

  /**
   * The value at x of the straight line through (x0, y0) and (x1, y1), written
   * as scipy evaluates it: slope times the distance from x0, plus y0.
   */
  function Line(x0: int, y0: real, x1: int, y1: real, x: int): (y: real)
    requires x0 != x1
    ensures x == x0 ==> y == y0
    ensures x == x1 ==> y == y1
  {
    (y1 - y0) / (x1 - x0) as real * (x - x0) as real + y0
  }

  /**
   * The linear interpolant of scipy's `interp1d` with extrapolation, at x: the
   * segment is chosen by `searchsorted` clipped to 1..|xs|-1, so that points left
   * of the first anchor use the first segment and points right of the last anchor
   * use the last one.
   */
  function Interp1d(xs: seq<nat>, ys: seq<real>, x: int): (y: real)
    requires 2 <= |xs| == |ys| && StrictlyIncreasing(xs)
    ensures forall k :: 0 <= k < |xs| && xs[k] == x ==> y == ys[k]
  {
    var hi := Clip(SearchSorted(xs, x), 1, |xs| - 1);
    SegmentThroughAnchor(xs, x, hi);
    Line(xs[hi - 1], ys[hi - 1], xs[hi], ys[hi], x)
  }

  /** At an anchor the chosen segment has that anchor as one of its two ends. */
  lemma SegmentThroughAnchor(xs: seq<nat>, x: int, hi: nat)
    requires 2 <= |xs| && StrictlyIncreasing(xs) && hi == Clip(SearchSorted(xs, x), 1, |xs| - 1)
    ensures forall k :: 0 <= k < |xs| && xs[k] == x ==> k == hi - 1 || k == hi
  {
    var p := SearchSorted(xs, x);
    forall k | 0 <= k < |xs| && xs[k] == x
      ensures k == hi - 1 || k == hi
    {
      assert !(k < p);
      assert p < |xs| && !(p < k);
    }
  }

  /**
   * What `interpolate_array` returns for `times`: every gap replaced by the
   * interpolant through the anchors, every anchor kept; an error when there are
   * fewer than two anchors (scipy refuses to build the interpolant then, even
   * when nothing is missing).
   */
  function Filled(s: seq<real>): (r: Result<seq<real>>)
    ensures r.Ok? <==> |Anchors(s)| >= 2
    ensures r.Err? ==> r.error == TooFewAnchors
    ensures r.Ok? ==> |r.value| == |s|
    ensures r.Ok? ==> forall i :: 0 <= i < |s| && !IsMissing(s[i]) ==> r.value[i] == s[i]
  {
    var xs := Anchors(s);
    if |xs| < 2 then Err(TooFewAnchors)
    else
      var ys := Pick(s, xs);
      Ok(seq(|s|, i requires 0 <= i < |s| =>
        if IsMissing(s[i]) then Interp1d(xs, ys, i) else s[i]))
  }

  /**
   * Python's `x % m` on floats with a positive divisor, taken exactly: the
   * remainder has the sign of the divisor.
   */
  function FloorMod(x: real, m: real): (r: real)
    requires m > 0.0
    ensures 0.0 <= r < m
    ensures ((x - r) / m).Floor as real == (x - r) / m
  {
    var q := (x / m).Floor;
    FloorBounds(x, m);
    var r := x - m * q as real;
    assert (x - r) / m == q as real;
    r
  }

  lemma FloorBounds(x: real, m: real)
    requires m > 0.0
    ensures (x / m).Floor as real * m <= x < ((x / m).Floor as real + 1.0) * m
  {
    var y := x / m;
    var q := y.Floor as real;
    assert y * m == x;
    assert q <= y < q + 1.0;
    MulMono(q, y, m);
    MulMono(y, q + 1.0, m);
    assert q * m <= y * m < (q + 1.0) * m;
    assert x < (q + 1.0) * m;
  }

  lemma MulMono(a: real, b: real, m: real)
    requires m > 0.0 && a <= b
    ensures a * m <= b * m && (a < b ==> a * m < b * m)
  {}

  /** `interpolated_values *= max_value; interpolated_values %= max_value` on one value: v * m reduced into [0, m). */
  function Rescaled(v: real, m: real): (r: real)
    requires m > 0.0
    ensures 0.0 <= r < m
    ensures ((v * m - r) / m).Floor as real == (v * m - r) / m
  {
    FloorMod(v * m, m)
  }

  /** The first step of `interpolate_circular`: every non-sentinel entry divided by m. */
  function Scaled(s: seq<real>, m: real): (t: seq<real>)
    requires m > 0.0
    ensures |t| == |s|
    ensures forall i :: 0 <= i < |s| && IsMissing(s[i]) ==> t[i] == s[i]
    ensures forall i :: 0 <= i < |s| && !IsMissing(s[i]) ==> t[i] * m == s[i]
  {
    seq(|s|, i requires 0 <= i < |s| => if IsMissing(s[i]) then s[i] else s[i] / m)
  }

  /**
   * What `interpolate_circular(times, m)` returns: the gaps of the scaled series
   * are filled by the linear interpolant, multiplied back by m and reduced modulo
   * m; the anchors stay divided by m. The sentinel test runs after the division,
   * so an entry equal to -m counts as missing.
   */
  function CircularFilled(s: seq<real>, m: real): (r: Result<seq<real>>)
    requires m > 0.0
    ensures r.Ok? <==> |Anchors(Scaled(s, m))| >= 2
    ensures r.Ok? ==> |r.value| == |s|
    ensures r.Ok? ==> forall i :: 0 <= i < |s| && (IsMissing(s[i]) || IsMissing(s[i] / m)) ==>
      0.0 <= r.value[i] < m
    ensures r.Ok? ==> forall i :: 0 <= i < |s| && !IsMissing(s[i]) && !IsMissing(s[i] / m) ==>
      r.value[i] == s[i] / m
  {
    var t := Scaled(s, m);
    match Filled(t)
    case Err(e) => Err(e)
    case Ok(f) =>
      Ok(seq(|s|, i requires 0 <= i < |s| => if IsMissing(t[i]) then Rescaled(f[i], m) else f[i]))
  }

  /** One entry of Filled(s): a gap takes the interpolant's value. */
  lemma FilledAt(s: seq<real>, i: nat)
    requires |Anchors(s)| >= 2 && i < |s|
    ensures Filled(s).value[i] ==
      if IsMissing(s[i]) then Interp1d(Anchors(s), Pick(s, Anchors(s)), i) else s[i]
  {}

  /** One entry of CircularFilled(s, m), in terms of the scaled series. */
  lemma CircularFilledAt(s: seq<real>, m: real, i: nat)
    requires m > 0.0 && |Anchors(Scaled(s, m))| >= 2 && i < |s|
    ensures var t := Scaled(s, m);
      CircularFilled(s, m).value[i] ==
        if IsMissing(t[i]) then Rescaled(Interp1d(Anchors(t), Pick(t, Anchors(t)), i), m) else t[i]
  {
    FilledAt(Scaled(s, m), i);
  }

  /** A series that agrees with s on its anchors and with the interpolant on its gaps is Filled(s). */
  lemma FilledFrom(s: seq<real>, valid: seq<nat>, invalid: seq<nat>, f: seq<real>)
    requires valid == Anchors(s) && invalid == Gaps(s) && |valid| >= 2 && |f| == |s|
    requires forall i :: 0 <= i < |f| && i !in invalid ==> f[i] == s[i]
    requires forall i :: 0 <= i < |f| && i in invalid ==> f[i] == Interp1d(valid, Pick(s, valid), i)
    ensures Filled(s) == Ok(f)
  {
    var r := Filled(s).value;
    forall i | 0 <= i < |s|
      ensures f[i] == r[i]
    {
      assert IsMissing(s[i]) <==> i in invalid;
      FilledAt(s, i);
    }
    assert f == r;
  }

  /** The same for the circular variant, over the scaled series. */
  lemma CircularFilledFrom(s: seq<real>, m: real, valid: seq<nat>, invalid: seq<nat>, f: seq<real>)
    requires m > 0.0
    requires valid == Anchors(Scaled(s, m)) && invalid == Gaps(Scaled(s, m)) && |valid| >= 2 && |f| == |s|
    requires forall i :: 0 <= i < |f| && i !in invalid ==> f[i] == Scaled(s, m)[i]
    requires forall i :: 0 <= i < |f| && i in invalid ==>
      f[i] == Rescaled(Interp1d(valid, Pick(Scaled(s, m), valid), i), m)
    ensures CircularFilled(s, m) == Ok(f)
  {
    var t := Scaled(s, m);
    var r := CircularFilled(s, m).value;
    forall i | 0 <= i < |s|
      ensures f[i] == r[i]
    {
      assert IsMissing(t[i]) <==> i in invalid;
      CircularFilledAt(s, m, i);
    }
    assert f == r;
  }

  /**
   * `np.where` over the array: the anchors and the gaps of its current contents.
   */
  method ScanIndices(a: array<real>) returns (valid: seq<nat>, invalid: seq<nat>)
    ensures valid == Anchors(a[..]) && invalid == Gaps(a[..])
  {
    valid, invalid := [], [];
    var i := 0;
    while i < a.Length
      invariant 0 <= i <= a.Length
      invariant valid == Anchors(a[..i]) && invalid == Gaps(a[..i])
    {
      assert a[..i + 1][..i] == a[..i];
      if a[i] != Sentinel {
        valid := valid + [i];
      } else {
        invalid := invalid + [i];
      }
      i := i + 1;
    }
    assert a[..a.Length] == a[..];
  }

  /** `times[invalid_indices] = interp_func(invalid_indices)`. */
  method WriteInterpolated(a: array<real>, valid: seq<nat>, values: seq<real>, invalid: seq<nat>)
    requires 2 <= |valid| == |values| && StrictlyIncreasing(valid)
    requires forall k :: 0 <= k < |invalid| ==> invalid[k] < a.Length
    modifies a
    ensures forall i :: 0 <= i < a.Length && i !in invalid ==> a[i] == old(a[i])
    ensures forall i :: 0 <= i < a.Length && i in invalid ==> a[i] == Interp1d(valid, values, i)
  {
    for k := 0 to |invalid|
      invariant forall i :: 0 <= i < a.Length && i !in invalid[..k] ==> a[i] == old(a[i])
      invariant forall i :: 0 <= i < a.Length && i in invalid[..k] ==> a[i] == Interp1d(valid, values, i)
    {
      a[invalid[k]] := Interp1d(valid, values, invalid[k]);
      assert invalid[..k + 1] == invalid[..k] + [invalid[k]];
    }
    assert invalid[..|invalid|] == invalid;
  }

  /** The write-back of `interpolate_circular`: each interpolated value times m, modulo m. */
  method WriteRescaled(a: array<real>, valid: seq<nat>, values: seq<real>, invalid: seq<nat>, m: real)
    requires 2 <= |valid| == |values| && StrictlyIncreasing(valid) && m > 0.0
    requires forall k :: 0 <= k < |invalid| ==> invalid[k] < a.Length
    modifies a
    ensures forall i :: 0 <= i < a.Length && i !in invalid ==> a[i] == old(a[i])
    ensures forall i :: 0 <= i < a.Length && i in invalid ==> a[i] == Rescaled(Interp1d(valid, values, i), m)
  {
    for k := 0 to |invalid|
      invariant forall i :: 0 <= i < a.Length && i !in invalid[..k] ==> a[i] == old(a[i])
      invariant forall i :: 0 <= i < a.Length && i in invalid[..k] ==> a[i] == Rescaled(Interp1d(valid, values, i), m)
    {
      a[invalid[k]] := Rescaled(Interp1d(valid, values, invalid[k]), m);
      assert invalid[..k + 1] == invalid[..k] + [invalid[k]];
    }
    assert invalid[..|invalid|] == invalid;
  }

  /**
   * `interpolate_array`: copy the series into a float array, find anchors and
   * gaps, and overwrite the gaps in place with the interpolant's values.
   */
  method InterpolateArray(times: seq<real>) returns (r: Result<seq<real>>)
    ensures r == Filled(times)
  {
    var a := new real[|times|](i requires 0 <= i < |times| => times[i]);
    assert a[..] == times;
    var valid, invalid := ScanIndices(a);
    if |valid| < 2 {
      return Err(TooFewAnchors);
    }
    var values := Pick(a[..], valid);
    WriteInterpolated(a, valid, values, invalid);
    FilledFrom(times, valid, invalid, a[..]);
    r := Ok(a[..]);
  }

  /** `times[times != -1] /= max_value`. */
  method ScaleInPlace(a: array<real>, m: real)
    requires m > 0.0
    modifies a
    ensures a[..] == Scaled(old(a[..]), m)
  {
    for i := 0 to a.Length
      invariant forall j :: 0 <= j < a.Length ==> a[j] == if j < i then Scaled(old(a[..]), m)[j] else old(a[j])
    {
      if a[i] != Sentinel {
        a[i] := a[i] / m;
      }
    }
  }

  /**
   * `interpolate_circular`: divide the non-sentinel entries by m in place, fill
   * the gaps of the result, and write back each filled value times m, modulo m.
   */
  method InterpolateCircular(times: seq<real>, m: real) returns (r: Result<seq<real>>)
    requires m > 0.0
    ensures r == CircularFilled(times, m)
  {
    var a := new real[|times|](i requires 0 <= i < |times| => times[i]);
    assert a[..] == times;
    ScaleInPlace(a, m);
    var valid, invalid := ScanIndices(a);
    if |valid| < 2 {
      return Err(TooFewAnchors);
    }
    var values := Pick(a[..], valid);
    WriteRescaled(a, valid, values, invalid, m);
    CircularFilledFrom(times, m, valid, invalid, a[..]);
    r := Ok(a[..]);
  }
}
