/**
 * The full-moon markers of the batch plotter: a scan over the daily moon phase
 * that finds each maximal run of days with phase in [13.5, 14.5] and reports,
 * 1-based, the day of the run whose phase is closest to 14 (the earliest one on
 * a tie, since only a strictly smaller distance replaces the current best).
 */
module FullMoon {

  /** `13.5 <= phase <= 14.5` */
  predicate InWindow(p: real)
    ensures InWindow(p) <==> Dist(p) <= 0.5
  {
    13.5 <= p <= 14.5
  }

  /** `abs(phase - 14)` */
  function Dist(p: real): (d: real)
    ensures d >= 0.0 && (d == p - 14.0 || d == 14.0 - p)
  {
    if p - 14.0 < 0.0 then 14.0 - p else p - 14.0
  }

  /** The days lo .. hi-1 all have their phase in the window. */
  predicate AllInWindow(ph: seq<real>, lo: nat, hi: nat)
    requires lo <= hi <= |ph|
  {
    forall t :: lo <= t < hi ==> InWindow(ph[t])
  }

  /** Days a and b lie in one run: every day from the earlier to the later is in the window. */
  predicate SameRun(ph: seq<real>, a: nat, b: nat)
    requires a < |ph| && b < |ph|
  {
    if a <= b then AllInWindow(ph, a, b + 1) else AllInWindow(ph, b, a + 1)
  }

  /** lo .. hi-1 is a maximal run: in the window, with no window day just before or after. */
  predicate IsRun(ph: seq<real>, lo: nat, hi: nat) {
    lo < hi <= |ph| && AllInWindow(ph, lo, hi)
    && (lo == 0 || !InWindow(ph[lo - 1])) && (hi == |ph| || !InWindow(ph[hi]))
  }

  /**
   * Day c is the day reported for its run: it is in the window, no day of its
   * run is closer to 14, and every earlier day of the run is strictly farther.
   */
  predicate IsClosest(ph: seq<real>, c: nat) {
    c < |ph| && InWindow(ph[c])
    && forall t :: 0 <= t < |ph| && SameRun(ph, c, t) ==>
      Dist(ph[c]) <= Dist(ph[t]) && (t < c ==> Dist(ph[c]) < Dist(ph[t]))
  }

  /** The days in one run with c are exactly the days of c's maximal run. */
  lemma SameRunIsRun(ph: seq<real>, lo: nat, hi: nat, c: nat, t: nat)
    requires IsRun(ph, lo, hi) && lo <= c < hi && t < |ph|
    ensures SameRun(ph, c, t) <==> lo <= t < hi
  {
  }

  /**
   * The inner `while j` loop: starting at a window day i, walk to the end of its
   * run, keeping the earliest day with the smallest distance to 14.
   */
  method ClosestInRun(ph: seq<real>, i: nat) returns (closest: nat, j: nat)
    requires i < |ph| && InWindow(ph[i])
    ensures i <= closest < j <= |ph| && AllInWindow(ph, i, j) && (j == |ph| || !InWindow(ph[j]))
    ensures forall t :: i <= t < j ==> Dist(ph[closest]) <= Dist(ph[t])
    ensures forall t :: i <= t < closest ==> Dist(ph[closest]) < Dist(ph[t])
  {
    closest := i;
    var minDiff := Dist(ph[i]);
    j := i + 1;
    while j < |ph| && InWindow(ph[j])
      invariant i <= closest < j <= |ph| && AllInWindow(ph, i, j)
      invariant minDiff == Dist(ph[closest])
      invariant forall t :: i <= t < j ==> minDiff <= Dist(ph[t])
      invariant forall t :: i <= t < closest ==> minDiff < Dist(ph[t])
      decreases |ph| - j
    {
      var diff := Dist(ph[j]);
      if diff < minDiff {
        minDiff := diff;
        closest := j;
      }
      j := j + 1;
    }
  }

  /** The days reported so far: each is the closest day of its run, in increasing order. */
  predicate Reports(ph: seq<real>, days: seq<int>) {
    (forall k :: 0 <= k < |days| ==> 1 <= days[k] <= |ph| && IsClosest(ph, days[k] - 1))
    && (forall k, l :: 0 <= k < l < |days| ==> days[k] < days[l])
  }

  /**
   * No run is reported twice: of two days of one run, the later one cannot be
   * strictly closer to 14 than the earlier one while the earlier one is no
   * farther than the later one.
   */
  lemma OneReportPerRun(ph: seq<real>, days: seq<int>)
    requires Reports(ph, days)
    ensures forall k, l :: 0 <= k < l < |days| ==> !SameRun(ph, days[k] - 1, days[l] - 1)
  {
    forall k, l | 0 <= k < l < |days|
      ensures !SameRun(ph, days[k] - 1, days[l] - 1)
    {
      ReportedPairApart(ph, days, k, l);
    }
  }

  /** Reported days k < l lie in different runs. */
  lemma ReportedPairApart(ph: seq<real>, days: seq<int>, k: nat, l: nat)
    requires Reports(ph, days) && k < l < |days|
    ensures 1 <= days[k] <= |ph| && 1 <= days[l] <= |ph| && !SameRun(ph, days[k] - 1, days[l] - 1)
  {
    var a, b := days[k] - 1, days[l] - 1;
    assert a < b && IsClosest(ph, a) && IsClosest(ph, b);
    ClosestDaysApart(ph, a, b);
  }

  /** Two different closest days cannot share a run: each would be strictly closer than the other. */
  lemma ClosestDaysApart(ph: seq<real>, a: nat, b: nat)
    requires a < b && IsClosest(ph, a) && IsClosest(ph, b)
    ensures !SameRun(ph, a, b)
  {
    var da, db := Dist(ph[a]), Dist(ph[b]);
    assert SameRun(ph, a, b) == SameRun(ph, b, a);
    assert SameRun(ph, a, b) ==> da <= db;
    assert SameRun(ph, b, a) ==> db < da;
  }

  /** Every window day before `upTo` has a reported day in its run. */
  predicate Covers(ph: seq<real>, days: seq<int>, upTo: nat)
    requires upTo <= |ph| && forall k :: 0 <= k < |days| ==> 1 <= days[k] <= |ph|
  {
    forall t :: 0 <= t < upTo && InWindow(ph[t]) ==>
      exists k :: 0 <= k < |days| && SameRun(ph, t, days[k] - 1)
  }

  /**
   * The state of the outer scan before day i: either day i does not continue a
   * run, or it starts one; the reports so far lie before i, are valid, and
   * cover every window day before i.
   */
  predicate ScanState(ph: seq<real>, days: seq<int>, i: nat) {
    i <= |ph|
    && (i < |ph| && InWindow(ph[i]) ==> i == 0 || !InWindow(ph[i - 1]))
    && Reports(ph, days)
    && (forall k :: 0 <= k < |days| ==> days[k] <= i)
    && Covers(ph, days, i)
  }

  /**
   * `closest_full_moon_days`: one 1-based day per maximal window run, the
   * earliest closest-to-14 day of that run, in increasing order, and no run
   * left without one.
   */
  method ClosestFullMoonDays(ph: seq<real>) returns (days: seq<int>)
    ensures Reports(ph, days)
    ensures forall k, l :: 0 <= k < l < |days| ==> !SameRun(ph, days[k] - 1, days[l] - 1)
    ensures Covers(ph, days, |ph|)
  {
    days := [];
    var i := 0;
    while i < |ph|
      invariant ScanState(ph, days, i)
      decreases |ph| - i
    {
      if InWindow(ph[i]) {
        var closest, j := ClosestInRun(ph, i);
        ScanRun(ph, days, i, j, closest);
        days, i := days + [closest + 1], j;
      } else {
        ScanSkip(ph, days, i);
        i := i + 1;
      }
    }
    OneReportPerRun(ph, days);
  }

  /** Reporting the closest day of the run that starts at i moves the scan to the run's end. */
  lemma ScanRun(ph: seq<real>, days: seq<int>, i: nat, j: nat, closest: nat)
    requires ScanState(ph, days, i) && i < |ph| && InWindow(ph[i])
    requires i <= closest < j <= |ph| && AllInWindow(ph, i, j) && (j == |ph| || !InWindow(ph[j]))
    requires forall t :: i <= t < j ==> Dist(ph[closest]) <= Dist(ph[t])
    requires forall t :: i <= t < closest ==> Dist(ph[closest]) < Dist(ph[t])
    ensures ScanState(ph, days + [closest + 1], j)
  {
    var ds := days + [closest + 1];
    assert IsRun(ph, i, j);
    assert forall k :: 0 <= k < |days| ==> 1 <= days[k] <= i;
    AppendKeepsReports(ph, days, ds, i, j, closest);
    AppendKeepsCover(ph, days, ds, i, j, closest);
    assert j < |ph| ==> !InWindow(ph[j]);
  }

  /** A day outside the window is skipped. */
  lemma ScanSkip(ph: seq<real>, days: seq<int>, i: nat)
    requires ScanState(ph, days, i) && i < |ph| && !InWindow(ph[i])
    ensures ScanState(ph, days, i + 1)
  {
  }

  /** The earliest day of least distance in a maximal run is that run's closest day. */
  lemma RunClosest(ph: seq<real>, i: nat, j: nat, closest: nat)
    requires IsRun(ph, i, j) && i <= closest < j
    requires forall t :: i <= t < j ==> Dist(ph[closest]) <= Dist(ph[t])
    requires forall t :: i <= t < closest ==> Dist(ph[closest]) < Dist(ph[t])
    ensures IsClosest(ph, closest)
  {
    forall t | 0 <= t < |ph| && SameRun(ph, closest, t)
      ensures Dist(ph[closest]) <= Dist(ph[t]) && (t < closest ==> Dist(ph[closest]) < Dist(ph[t]))
    {
      SameRunIsRun(ph, i, j, closest, t);
    }
  }

  /** Appending the closest day of the maximal run i .. j-1 keeps the reports valid. */
  lemma AppendKeepsReports(ph: seq<real>, days: seq<int>, ds: seq<int>, i: nat, j: nat, closest: nat)
    requires IsRun(ph, i, j) && i <= closest < j && ds == days + [closest + 1]
    requires forall t :: i <= t < j ==> Dist(ph[closest]) <= Dist(ph[t])
    requires forall t :: i <= t < closest ==> Dist(ph[closest]) < Dist(ph[t])
    requires Reports(ph, days) && (forall k :: 0 <= k < |days| ==> days[k] <= i)
    ensures Reports(ph, ds)
    ensures forall k :: 0 <= k < |ds| ==> ds[k] <= j
  {
    RunClosest(ph, i, j, closest);
    AppendReport(ph, days, ds, closest + 1);
  }

  /** A report after every earlier one, at a closest day, keeps the reports valid. */
  lemma AppendReport(ph: seq<real>, days: seq<int>, ds: seq<int>, d: int)
    requires Reports(ph, days) && ds == days + [d]
    requires 1 <= d <= |ph| && IsClosest(ph, d - 1)
    requires forall k :: 0 <= k < |days| ==> days[k] < d
    ensures Reports(ph, ds)
  {
    forall k | 0 <= k < |ds|
      ensures 1 <= ds[k] <= |ph| && IsClosest(ph, ds[k] - 1)
    {
      if k < |days| {
        assert ds[k] == days[k];
      }
    }
    forall k, l | 0 <= k < l < |ds|
      ensures ds[k] < ds[l]
    {
      if l < |days| {
        assert ds[k] == days[k] && ds[l] == days[l];
      }
    }
  }

  /** After the run i .. j-1 is reported, every window day before j has a report in its run. */
  lemma AppendKeepsCover(ph: seq<real>, days: seq<int>, ds: seq<int>, i: nat, j: nat, closest: nat)
    requires IsRun(ph, i, j) && i <= closest < j && ds == days + [closest + 1]
    requires forall k :: 0 <= k < |days| ==> 1 <= days[k] <= i
    requires Covers(ph, days, i)
    ensures forall k :: 0 <= k < |ds| ==> 1 <= ds[k] <= |ph|
    ensures Covers(ph, ds, j)
  {
    forall t | 0 <= t < j && InWindow(ph[t])
      ensures exists k :: 0 <= k < |ds| && SameRun(ph, t, ds[k] - 1)
    {
      if t < i {
        var k :| 0 <= k < |days| && SameRun(ph, t, days[k] - 1);
        assert ds[k] == days[k];
      } else {
        SameRunIsRun(ph, i, j, closest, t);
        assert ds[|days|] - 1 == closest;
      }
    }
  }
}
