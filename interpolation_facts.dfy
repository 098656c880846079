/**
 * What the gap filler promises: where each filled value comes from (the two
 * nearest anchors inside, the two outermost anchors beyond the ends), that
 * complete series are left alone, and how the circular variant relates to the
 * linear one.
 */
module InterpolationFacts {
  import opened Interpolation

  /** The characterisation of SearchSorted determines it. */
  lemma SearchSortedIs(xs: seq<nat>, x: int, k: nat)
    requires k <= |xs|
    requires forall j :: 0 <= j < k ==> xs[j] < x
    requires k < |xs| ==> x <= xs[k]
    ensures SearchSorted(xs, x) == k
  {
  }

  /** A point strictly inside a segment gets a value between the segment's end values. */
  lemma LineBetween(x0: int, y0: real, x1: int, y1: real, x: int)
    requires x0 < x < x1
    ensures y0 <= y1 ==> y0 <= Line(x0, y0, x1, y1, x) <= y1
    ensures y1 <= y0 ==> y1 <= Line(x0, y0, x1, y1, x) <= y0
  {
    var dy, dx, t := y1 - y0, (x1 - x0) as real, (x - x0) as real;
    FractionBetween(dy, dx, t);
  }

  /** With 0 < t < dx, the product dy / dx * t lies between 0 and dy. */
  lemma FractionBetween(dy: real, dx: real, t: real)
    requires 0.0 < t < dx
    ensures 0.0 <= dy ==> 0.0 <= dy / dx * t <= dy
    ensures dy <= 0.0 ==> dy <= dy / dx * t <= 0.0
  {
    var q := dy / dx;
    assert q * dx == dy;
    assert dy - q * t == q * (dx - t);
  }

  /** Two real values that follow each other with only gaps between are consecutive anchors. */
  lemma ConsecutiveAnchors(s: seq<real>, lo: nat, hi: nat) returns (p: nat)
    requires lo < hi < |s| && !IsMissing(s[lo]) && !IsMissing(s[hi])
    requires forall t :: lo < t < hi ==> IsMissing(s[t])
    ensures p + 1 < |Anchors(s)| && Anchors(s)[p] == lo && Anchors(s)[p + 1] == hi
  {
    var xs := Anchors(s);
    assert lo in xs && hi in xs;
    var i :| 0 <= i < |xs| && xs[i] == lo;
    var j :| 0 <= j < |xs| && xs[j] == hi;
    p := i;
    assert i < j;
    assert xs[i + 1] <= hi;
    assert !(lo < xs[i + 1] < hi);
  }

  /**
   * A gap strictly between two real values, with only gaps in between, gets the
   * value of the line through those two neighbours.
   */
  lemma FillBetweenAnchors(s: seq<real>, lo: nat, i: nat, hi: nat)
    requires lo < i < hi < |s| && !IsMissing(s[lo]) && !IsMissing(s[hi])
    requires forall t :: lo < t < hi ==> IsMissing(s[t])
    ensures Filled(s).Ok? && Filled(s).value[i] == Line(lo, s[lo], hi, s[hi], i)
  {
    var xs := Anchors(s);
    var p := ConsecutiveAnchors(s, lo, hi);
    SearchSortedIs(xs, i, p + 1);
    FilledAt(s, i);
  }

  /** A lone gap between two real values becomes their arithmetic mean. */
  lemma LoneGapIsMean(s: seq<real>, i: nat)
    requires 0 < i < |s| - 1 && IsMissing(s[i])
    requires !IsMissing(s[i - 1]) && !IsMissing(s[i + 1])
    ensures Filled(s).Ok? && Filled(s).value[i] == (s[i - 1] + s[i + 1]) / 2.0
  {
    FillBetweenAnchors(s, i - 1, i, i + 1);
  }

  /**
   * A gap before the first real value lies on the line through the first two
   * real values.
   */
  lemma FillBeforeFirstAnchor(s: seq<real>, i: nat, a: nat, b: nat)
    requires i < a < b < |s| && !IsMissing(s[a]) && !IsMissing(s[b])
    requires forall t :: 0 <= t < b && t != a ==> IsMissing(s[t])
    ensures Filled(s).Ok? && Filled(s).value[i] == Line(a, s[a], b, s[b], i)
  {
    var xs := Anchors(s);
    var p := ConsecutiveAnchors(s, a, b);
    assert !IsMissing(s[xs[0]]);
    SearchSortedIs(xs, i, 0);
    FilledAt(s, i);
  }

  /**
   * A gap after the last real value lies on the line through the last two real
   * values.
   */
  lemma FillAfterLastAnchor(s: seq<real>, a: nat, b: nat, i: nat)
    requires a < b < i < |s| && !IsMissing(s[a]) && !IsMissing(s[b])
    requires forall t :: a < t < |s| && t != b ==> IsMissing(s[t])
    ensures Filled(s).Ok? && Filled(s).value[i] == Line(a, s[a], b, s[b], i)
  {
    var xs := Anchors(s);
    var p := ConsecutiveAnchors(s, a, b);
    SearchSortedIs(xs, i, |xs|);
    FilledAt(s, i);
  }

  /**
   * A gap with a real value somewhere on each side is filled from its nearest
   * real neighbours and lies between their values; so when every real value is
   * non-negative the fill is non-negative, and in particular not the sentinel.
   * Only fills beyond the first or last real value can leave that range.
   */
  lemma InteriorFillNonNegative(s: seq<real>, i: nat, before: nat, after: nat)
    requires before < i < after < |s| && IsMissing(s[i])
    requires !IsMissing(s[before]) && !IsMissing(s[after])
    requires forall t :: 0 <= t < |s| && !IsMissing(s[t]) ==> s[t] >= 0.0
    ensures Filled(s).Ok? && Filled(s).value[i] >= 0.0 && !IsMissing(Filled(s).value[i])
  {
    var lo, hi := NearestAnchors(s, i, before, after);
    FillBetweenAnchors(s, lo, i, hi);
    LineBetween(lo, s[lo], hi, s[hi], i);
    assert s[lo] >= 0.0 && s[hi] >= 0.0;
  }

  /** A gap with a real value on each side has a nearest real value on each side. */
  lemma NearestAnchors(s: seq<real>, i: nat, before: nat, after: nat) returns (lo: nat, hi: nat)
    requires before < i < after < |s| && IsMissing(s[i])
    requires !IsMissing(s[before]) && !IsMissing(s[after])
    ensures lo < i < hi < |s| && !IsMissing(s[lo]) && !IsMissing(s[hi])
    ensures forall t :: lo < t < hi ==> IsMissing(s[t])
  {
    lo := PreviousAnchor(s, i, before);
    hi := NextAnchor(s, i, after);
  }

  /** The last real value before position i, given that there is one at `before`. */
  lemma {:induction false} PreviousAnchor(s: seq<real>, i: nat, before: nat) returns (lo: nat)
    requires before < i < |s| && !IsMissing(s[before])
    ensures before <= lo < i && !IsMissing(s[lo])
    ensures forall t :: lo < t < i ==> IsMissing(s[t])
    decreases i
  {
    if !IsMissing(s[i - 1]) {
      lo := i - 1;
    } else {
      lo := PreviousAnchor(s, i - 1, before);
    }
  }

  /** The first real value after position i, given that there is one at `after`. */
  lemma {:induction false} NextAnchor(s: seq<real>, i: nat, after: nat) returns (hi: nat)
    requires i < after < |s| && !IsMissing(s[after])
    ensures i < hi <= after && !IsMissing(s[hi])
    ensures forall t :: i < t < hi ==> IsMissing(s[t])
    decreases after - i
  {
    if !IsMissing(s[i + 1]) {
      hi := i + 1;
    } else {
      hi := NextAnchor(s, i + 1, after);
    }
  }

  /**
   * A series of at least two entries with no sentinel comes back unchanged.
   * (Fewer than two entries is the error case, whatever they hold.)
   */
  lemma NoGapsUnchanged(s: seq<real>)
    requires |s| >= 2 && forall i :: 0 <= i < |s| ==> !IsMissing(s[i])
    ensures Filled(s) == Ok(s)
  {
    var xs := Anchors(s);
    assert 0 in xs && 1 in xs;
    var p :| 0 <= p < |xs| && xs[p] == 0;
    var q :| 0 <= q < |xs| && xs[q] == 1;
    assert p != q;
    var f := Filled(s).value;
    assert forall i :: 0 <= i < |s| ==> f[i] == s[i];
    assert f == s;
  }

  /** Filling a result that no longer holds the sentinel changes nothing. */
  lemma RefillIsIdentity(s: seq<real>)
    requires Filled(s).Ok?
    requires forall i :: 0 <= i < |s| ==> !IsMissing(Filled(s).value[i])
    ensures Filled(Filled(s).value) == Filled(s)
  {
    NoGapsUnchanged(Filled(s).value);
  }

  /**
   * The sentinel can survive: extending the line through (1, 0) and (2, 1) back
   * to day 0 gives exactly -1, so "no sentinel remains after filling" holds only
   * for gaps between real values.
   */
  lemma ExtrapolationCanYieldSentinel()
    ensures Filled([-1.0, 0.0, 1.0]) == Ok([-1.0, 0.0, 1.0])
  {
    var s := [-1.0, 0.0, 1.0];
    FillBeforeFirstAnchor(s, 0, 1, 2);
    assert Filled(s).value[0] == -1.0;
    assert Filled(s).value == s;
  }

  /** Two series with the sentinel in the same places have the same anchors. */
  lemma {:induction false} SameGapsSameIndices(s: seq<real>, t: seq<real>, missing: bool)
    requires |s| == |t| && forall i :: 0 <= i < |s| ==> (IsMissing(s[i]) <==> IsMissing(t[i]))
    ensures IndicesWhere(s, missing) == IndicesWhere(t, missing)
  {
    if |s| > 0 {
      SameGapsSameIndices(s[..|s| - 1], t[..|t| - 1], missing);
    }
  }

  /**
   * The circular filler is the linear filler followed by reduction modulo m, as
   * long as no real value equals -m (which the division would turn into the
   * sentinel): at every gap, circular fill == linear fill of the original
   * series, reduced into [0, m).
   */
  lemma {:induction false} CircularIsLinearModulo(s: seq<real>, m: real, i: nat)
    requires m > 0.0 && i < |s| && IsMissing(s[i]) && |Anchors(s)| >= 2
    requires forall t :: 0 <= t < |s| && !IsMissing(s[t]) ==> s[t] != -m
    ensures CircularFilled(s, m).Ok? && CircularFilled(s, m).value[i] == FloorMod(Filled(s).value[i], m)
  {
    var v := CircularGap(s, m, i);
    RescaledProduct(v, Filled(s).value[i], m);
  }

  /** The circular fill at gap i is `Rescaled(v, m)` for a v that, times m, is the linear fill. */
  lemma {:induction false} CircularGap(s: seq<real>, m: real, i: nat) returns (v: real)
    requires m > 0.0 && i < |s| && IsMissing(s[i]) && |Anchors(s)| >= 2
    requires forall t :: 0 <= t < |s| && !IsMissing(s[t]) ==> s[t] != -m
    ensures CircularFilled(s, m).Ok? && CircularFilled(s, m).value[i] == Rescaled(v, m)
    ensures Filled(s).Ok? && v * m == Filled(s).value[i]
  {
    v := CircularAtGap(s, m, i);
    var w := LinearAtGap(s, i);
    var xs := Anchors(s);
    ScaledAnchorsInterp1d(s, m, i, xs, Pick(s, xs), Pick(Scaled(s, m), xs), v, w);
  }

  /** At a gap the circular fill rescales the interpolant of the scaled anchors. */
  lemma CircularAtGap(s: seq<real>, m: real, i: nat) returns (v: real)
    requires m > 0.0 && i < |s| && IsMissing(s[i]) && |Anchors(s)| >= 2
    requires forall t :: 0 <= t < |s| && !IsMissing(s[t]) ==> s[t] != -m
    ensures |Anchors(s)| >= 2 && v == Interp1d(Anchors(s), Pick(Scaled(s, m), Anchors(s)), i)
    ensures CircularFilled(s, m).Ok? && CircularFilled(s, m).value[i] == Rescaled(v, m)
  {
    var t := Scaled(s, m);
    ScalingKeepsGaps(s, m);
    SameGapsSameIndices(s, t, false);
    CircularFilledAt(s, m, i);
    v := Interp1d(Anchors(t), Pick(t, Anchors(t)), i);
  }

  /** At a gap the linear fill is the interpolant of the anchors. */
  lemma LinearAtGap(s: seq<real>, i: nat) returns (w: real)
    requires i < |s| && IsMissing(s[i]) && |Anchors(s)| >= 2
    ensures w == Interp1d(Anchors(s), Pick(s, Anchors(s)), i)
    ensures Filled(s).Ok? && Filled(s).value[i] == w
  {
    FilledAt(s, i);
    w := Filled(s).value[i];
  }

  lemma RescaledProduct(v: real, w: real, m: real)
    requires m > 0.0 && v * m == w
    ensures Rescaled(v, m) == FloorMod(w, m)
  {
  }

  /** Without a real value equal to -m, dividing by m leaves the gaps where they were. */
  lemma ScalingKeepsGaps(s: seq<real>, m: real)
    requires m > 0.0
    requires forall t :: 0 <= t < |s| && !IsMissing(s[t]) ==> s[t] != -m
    ensures forall j :: 0 <= j < |s| ==> (IsMissing(s[j]) <==> IsMissing(Scaled(s, m)[j]))
  {
    forall j | 0 <= j < |s| && !IsMissing(s[j])
      ensures s[j] / m != -1.0
    {
      assert s[j] / m * m == s[j];
    }
  }

  /** Interpolating the scaled anchors and scaling back gives the unscaled interpolant. */
  lemma {:induction false} ScaledAnchorsInterp1d(s: seq<real>, m: real, x: int, xs: seq<nat>, ys: seq<real>, zs: seq<real>, v: real, w: real)
    requires m > 0.0 && xs == Anchors(s) && |xs| >= 2
    requires ys == Pick(s, xs) && zs == Pick(Scaled(s, m), xs)
    requires v == Interp1d(xs, zs, x) && w == Interp1d(xs, ys, x)
    ensures v * m == w
  {
    forall k | 0 <= k < |xs|
      ensures zs[k] == ys[k] / m
    {
      assert !IsMissing(s[xs[k]]);
    }
    Interp1dScaled(xs, ys, zs, x, m, v, w);
  }

  /** Interpolation commutes with dividing every anchor value by the same m. */
  lemma Interp1dScaled(xs: seq<nat>, ys: seq<real>, zs: seq<real>, x: int, m: real, v: real, w: real)
    requires m > 0.0 && 2 <= |xs| == |ys| == |zs| && StrictlyIncreasing(xs)
    requires forall k :: 0 <= k < |xs| ==> zs[k] == ys[k] / m
    requires v == Interp1d(xs, zs, x) && w == Interp1d(xs, ys, x)
    ensures v * m == w
  {
    var hi := Clip(SearchSorted(xs, x), 1, |xs| - 1);
    assert zs[hi - 1] == ys[hi - 1] / m && zs[hi] == ys[hi] / m;
    ScaledLine(xs[hi - 1], ys[hi - 1], xs[hi], ys[hi], x, m, v, w);
  }

  lemma ScaledLine(x0: int, y0: real, x1: int, y1: real, x: int, m: real, v: real, w: real)
    requires x0 != x1 && m > 0.0
    requires v == Line(x0, y0 / m, x1, y1 / m, x) && w == Line(x0, y0, x1, y1, x)
    ensures v * m == w
  {
    var dx, t := (x1 - x0) as real, (x - x0) as real;
    assert (y1 / m - y0 / m) == (y1 - y0) / m;
    assert (y1 - y0) / m / dx * t * m == (y1 - y0) / dx * t;
    assert (y0 / m) * m == y0;
  }

  /**
   * On a phase-like series the circular filler hands a real -m to the sentinel
   * test as -1 and overwrites it, and returns the other real values as fractions
   * of m: [0, 28, -28] comes back as [0, 1, 0].
   */
  lemma CircularOverwritesMinusMax()
    ensures CircularFilled([0.0, 28.0, -28.0], 28.0) == Ok([0.0, 1.0, 0.0])
  {
    var s := [0.0, 28.0, -28.0];
    var t := Scaled(s, 28.0);
    assert t == [0.0, 1.0, -1.0];
    FillAfterLastAnchor(t, 0, 1, 2);
    assert Filled(t).value[2] == 2.0;
    CircularFilledAt(s, 28.0, 2);
    assert FloorMod(56.0, 28.0) == 0.0;
    assert CircularFilled(s, 28.0).value == [0.0, 1.0, 0.0];
  }
}
