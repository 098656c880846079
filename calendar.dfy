/**
 * The calendar arithmetic behind the month and Sunday labels: cumulative month
 * lengths, the midpoint tick of each month, and the conversion of a day-of-year
 * index into (month, day of month) — 1-based in the batch plotter, 0-based in
 * the dawn plotter.
 */
module Calendar {

  /** The month-length table of the (non-leap) year 2025. */
  const DaysInMonth: seq<nat> := [31, 28, 31, 30, 31, 30, 31, 31, 30, 31, 30, 31]

  /** `sum(xs)` */
  function Sum(xs: seq<nat>): nat {
    if |xs| == 0 then 0 else Sum(xs[..|xs| - 1]) + xs[|xs| - 1]
  }

  /** Extending a prefix by one month adds exactly that month's length. */
  lemma SumPrefix(xs: seq<nat>, i: nat)
    requires i < |xs|
    ensures Sum(xs[..i + 1]) == Sum(xs[..i]) + xs[i]
  {
    assert xs[..i + 1][..i] == xs[..i];
  }

  lemma {:induction false} SumPrefixMonotone(xs: seq<nat>, i: nat, j: nat)
    requires i <= j <= |xs|
    ensures Sum(xs[..i]) <= Sum(xs[..j])
    decreases j - i
  {
    if i < j {
      SumPrefix(xs, j - 1);
      SumPrefixMonotone(xs, i, j - 1);
    }
  }

  /** The running total at the end of month k: `sum(days_in_month[:k+1])`. */
  function MonthEnd(xs: seq<nat>, k: nat): nat
    requires k < |xs|
  {
    Sum(xs[..k + 1])
  }

  /** Month k ends exactly xs[k] days after the months before it end. */
  lemma MonthEndAfterDaysBefore(xs: seq<nat>, k: nat)
    requires k < |xs|
    ensures MonthEnd(xs, k) == Sum(xs[..k]) + xs[k]
    ensures k > 0 ==> MonthEnd(xs, k) == MonthEnd(xs, k - 1) + xs[k]
  {
    SumPrefix(xs, k);
  }

  lemma YearHas365Days()
    ensures |DaysInMonth| == 12 && Sum(DaysInMonth) == 365
  {
    var d := DaysInMonth;
    assert d[..0] == [];
    SumPrefix(d, 0); SumPrefix(d, 1); SumPrefix(d, 2); SumPrefix(d, 3);
    SumPrefix(d, 4); SumPrefix(d, 5); SumPrefix(d, 6); SumPrefix(d, 7);
    SumPrefix(d, 8); SumPrefix(d, 9); SumPrefix(d, 10); SumPrefix(d, 11);
    assert d[..12] == d;
  }

  /** Month ends are the same whether or not later months follow. */
  lemma MonthEndsOfPrefix(xs: seq<nat>)
    requires |xs| > 0
    ensures forall k :: 0 <= k < |xs| - 1 ==> MonthEnd(xs[..|xs| - 1], k) == MonthEnd(xs, k)
    ensures MonthEnd(xs, |xs| - 1) == Sum(xs)
  {
    forall k | 0 <= k < |xs| - 1
      ensures MonthEnd(xs[..|xs| - 1], k) == MonthEnd(xs, k)
    {
      assert xs[..|xs| - 1][..k + 1] == xs[..k + 1];
    }
    assert xs[..|xs|] == xs;
  }

  /** `np.cumsum(xs)`, as a running total: entry k is the end of month k. */
  function CumulativeDays(xs: seq<nat>): (cum: seq<nat>)
    ensures |cum| == |xs|
    ensures forall k :: 0 <= k < |xs| ==> cum[k] == MonthEnd(xs, k)
  {
    if |xs| == 0 then []
    else
      var prev := CumulativeDays(xs[..|xs| - 1]);
      var last := (if |prev| == 0 then 0 else prev[|prev| - 1]) + xs[|xs| - 1];
      MonthEndsOfPrefix(xs);
      SumPrefix(xs, |xs| - 1);
      assert |prev| > 0 ==> prev[|prev| - 1] == Sum(xs[..|xs| - 1]) by {
        if |prev| > 0 {
          MonthEndsOfPrefix(xs[..|xs| - 1]);
        }
      }
      prev + [last]
  }

  /** The running total ending with month i-1: `cumulative_days[i - 1] if i > 0 else 0`. */
  function DaysBefore(cum: seq<nat>, i: nat): nat
    requires i <= |cum|
  {
    if i > 0 then cum[i - 1] else 0
  }

  /** The days before month m are the sum of the first m months. */
  lemma DaysBeforeIsSum(xs: seq<nat>, m: nat)
    requires m <= |xs|
    ensures DaysBefore(CumulativeDays(xs), m) == Sum(xs[..m])
    ensures m < |xs| ==> CumulativeDays(xs)[m] == Sum(xs[..m]) + xs[m]
  {
    if m > 0 {
      assert MonthEnd(xs, m - 1) == Sum(xs[..m]);
    } else {
      assert xs[..0] == [];
    }
    if m < |xs| {
      SumPrefix(xs, m);
    }
  }

  /** The days before each month are the sum of the months before it. */
  lemma DaysBeforeAreSums(xs: seq<nat>)
    ensures forall m :: 0 <= m <= |xs| ==> DaysBefore(CumulativeDays(xs), m) == Sum(xs[..m])
  {
    forall m | 0 <= m <= |xs|
      ensures DaysBefore(CumulativeDays(xs), m) == Sum(xs[..m])
    {
      DaysBeforeIsSum(xs, m);
    }
  }

  /**
   * With every month at least one day long the running totals strictly increase,
   * start above 0 and end at the year's length.
   */
  lemma CumulativeDaysIncrease(xs: seq<nat>)
    requires forall i :: 0 <= i < |xs| ==> xs[i] > 0
    ensures var cum := CumulativeDays(xs);
      (forall i, j :: 0 <= i < j < |xs| ==> cum[i] < cum[j])
      && (|xs| > 0 ==> cum[0] > 0 && cum[|xs| - 1] == Sum(xs))
  {
    var cum := CumulativeDays(xs);
    forall i, j | 0 <= i < j < |xs|
      ensures cum[i] < cum[j]
    {
      MonthEndsIncrease(xs, i, j);
    }
    if |xs| > 0 {
      MonthEndsOfPrefix(xs);
      DaysBeforeIsSum(xs, 0);
    }
  }

  /** A later month with at least one day ends strictly later. */
  lemma MonthEndsIncrease(xs: seq<nat>, i: nat, j: nat)
    requires i < j < |xs| && xs[j] > 0
    ensures MonthEnd(xs, i) < MonthEnd(xs, j)
  {
    SumPrefix(xs, j);
    SumPrefixMonotone(xs, i + 1, j);
  }

  lemma CumulativeDaysOfYear()
    ensures var cum := CumulativeDays(DaysInMonth);
      |cum| == 12 && cum[11] == 365 && forall i, j :: 0 <= i < j < 12 ==> cum[i] < cum[j]
  {
    YearHas365Days();
    CumulativeDaysIncrease(DaysInMonth);
  }

  /** `month_ticks`: the midpoint of each of the first twelve months. */
  function MonthTicks(xs: seq<nat>): (ticks: seq<real>)
    requires |xs| >= 12
    ensures |ticks| == 12
    ensures forall i :: 0 <= i < 12 ==> ticks[i] == Sum(xs[..i]) as real + xs[i] as real / 2.0
  {
    var cum := CumulativeDays(xs);
    DaysBeforeAreSums(xs);
    seq(12, i requires 0 <= i < 12 => DaysBefore(cum, i) as real + xs[i] as real / 2.0)
  }

  /**
   * Tick i lies halfway between the end of the previous month and the end of
   * month i, hence strictly inside the month when the month is not empty.
   */
  lemma MonthTickIsMidpoint(xs: seq<nat>, i: nat)
    requires |xs| >= 12 && i < 12
    ensures var cum := CumulativeDays(xs);
      MonthTicks(xs)[i] == (DaysBefore(cum, i) as real + cum[i] as real) / 2.0
      && (xs[i] > 0 ==> DaysBefore(cum, i) as real < MonthTicks(xs)[i] < cum[i] as real)
  {
    DaysBeforeIsSum(xs, i);
  }

  // ---- 1-based conversion of the batch plotter ----

  /**
   * m is the month of the 1-based day `day`: every earlier month ends before
   * `day`, and month m (when there is one) ends on or after it.
   */
  predicate IsMonthOf(xs: seq<nat>, day: int, m: nat) {
    m <= |xs|
    && (forall k :: 0 <= k < m ==> MonthEnd(xs, k) < day)
    && (m < |xs| ==> day <= MonthEnd(xs, m))
  }

  /** A day has at most one month. */
  lemma IsMonthOfUnique(xs: seq<nat>, day: int, m: nat, n: nat)
    requires IsMonthOf(xs, day, m) && IsMonthOf(xs, day, n)
    ensures m == n
  {
  }

  /**
   * The `month_index` loop and the `month_day` line of the batch plotter: count
   * the months that end before the day, then subtract the days before that
   * month. A day within the year gets a real month and a day of month in range.
   */
  method MonthOfDay(xs: seq<nat>, dayIndex: int) returns (monthIndex: nat, monthDay: int)
    ensures IsMonthOf(xs, dayIndex, monthIndex)
    ensures monthDay == dayIndex - Sum(xs[..monthIndex])
    ensures 1 <= dayIndex <= Sum(xs) ==> monthIndex < |xs| && 1 <= monthDay <= xs[monthIndex]
  {
    monthIndex := 0;
    for i := 0 to |xs|
      invariant monthIndex == i
      invariant forall k :: 0 <= k < i ==> MonthEnd(xs, k) < dayIndex
    {
      if dayIndex > Sum(xs[..i + 1]) {
        monthIndex := monthIndex + 1;
      } else {
        break;
      }
    }
    monthDay := dayIndex - Sum(xs[..monthIndex]);
    MonthOfDayInRange(xs, dayIndex, monthIndex);
  }

  lemma MonthOfDayInRange(xs: seq<nat>, day: int, m: nat)
    requires IsMonthOf(xs, day, m)
    ensures 1 <= day <= Sum(xs) ==> m < |xs| && 1 <= day - Sum(xs[..m]) <= xs[m]
  {
    if |xs| > 0 {
      MonthEndsOfPrefix(xs);
    }
    if m < |xs| {
      DaysBeforeIsSum(xs, m);
      if m > 0 {
        assert MonthEnd(xs, m - 1) < day;
      }
    }
  }

  // ---- 0-based conversion of the dawn plotter ----

  /** `next((i for i, total in enumerate(cum) if day < total), 11)`, searching from index i. */
  function FirstEndingAfter(cum: seq<nat>, day: int, i: nat): (m: nat)
    requires i <= |cum|
    ensures (i <= m < |cum| && day < cum[m]) || m == 11
    ensures m < |cum| && day < cum[m] ==> forall k :: i <= k < m ==> cum[k] <= day
    ensures !(i <= m < |cum| && day < cum[m]) ==> forall k :: i <= k < |cum| ==> cum[k] <= day
    decreases |cum| - i
  {
    if i == |cum| then 11
    else if day < cum[i] then i
    else FirstEndingAfter(cum, day, i + 1)
  }

  /** `month_index` of the dawn plotter for the 0-based day `day`. */
  function MonthIndex0(xs: seq<nat>, day: int): (m: nat)
    ensures var cum := CumulativeDays(xs);
      (m < |xs| && day < cum[m] && forall k :: 0 <= k < m ==> cum[k] <= day)
      || (m == 11 && forall k :: 0 <= k < |xs| ==> cum[k] <= day)
  {
    FirstEndingAfter(CumulativeDays(xs), day, 0)
  }

  /**
   * `month_day` of the dawn plotter. When no month ends after the day the index
   * falls back to 11, so the table needs that many entries for the lookup of
   * the days before it.
   */
  function MonthDay0(xs: seq<nat>, day: int): (d: int)
    requires |xs| >= 11
    ensures d == day + 1 - Sum(xs[..MonthIndex0(xs, day)])
  {
    var cum := CumulativeDays(xs);
    var m := MonthIndex0(xs, day);
    DaysBeforeIsSum(xs, m);
    day - DaysBefore(cum, m) + 1
  }

  /** The first index whose running total exceeds the day is found whenever one exists. */
  lemma {:induction false} FirstEndingAfterFinds(cum: seq<nat>, day: int, i: nat, j: nat)
    requires i <= j < |cum| && day < cum[j]
    ensures FirstEndingAfter(cum, day, i) <= j && day < cum[FirstEndingAfter(cum, day, i)]
    decreases |cum| - i
  {
    if day >= cum[i] {
      FirstEndingAfterFinds(cum, day, i + 1, j);
    }
  }

  /**
   * For a 0-based day inside the year the month is the one whose running totals
   * bracket it, and the day of month is in range.
   */
  lemma MonthIndex0InRange(xs: seq<nat>, day: int)
    requires |xs| >= 11 && 0 <= day < Sum(xs)
    ensures var cum := CumulativeDays(xs);
      var m := MonthIndex0(xs, day);
      m < |xs| && DaysBefore(cum, m) <= day < cum[m]
      && 1 <= MonthDay0(xs, day) <= xs[m]
  {
    var cum := CumulativeDays(xs);
    MonthEndsOfPrefix(xs);
    FirstEndingAfterFinds(cum, day, 0, |xs| - 1);
    var m := MonthIndex0(xs, day);
    DaysBeforeIsSum(xs, m);
    if m > 0 {
      assert cum[m - 1] <= day;
    }
  }

  /**
   * The two plotters agree: the 0-based conversion at `day` gives the month and
   * day of month that the 1-based loop computes for `day + 1`.
   */
  lemma ZeroBasedIsOneBasedShifted(xs: seq<nat>, day: int)
    requires |xs| >= 11 && 0 <= day < Sum(xs)
    ensures IsMonthOf(xs, day + 1, MonthIndex0(xs, day))
    ensures MonthDay0(xs, day) == day + 1 - Sum(xs[..MonthIndex0(xs, day)])
  {
    var cum := CumulativeDays(xs);
    MonthIndex0InRange(xs, day);
    var m := MonthIndex0(xs, day);
    forall k | 0 <= k < m
      ensures MonthEnd(xs, k) < day + 1
    {
      assert cum[k] <= day;
    }
    DaysBeforeIsSum(xs, m);
  }

  /** A 1-based label for day d + 1 is the 0-based label for day d. */
  lemma LabelOfShiftedDay(xs: seq<nat>, day: int, entry: (nat, int))
    requires |xs| >= 11 && 0 <= day < Sum(xs)
    requires IsMonthOf(xs, day + 1, entry.0) && entry.1 == day + 1 - Sum(xs[..entry.0])
    ensures (MonthIndex0(xs, day), MonthDay0(xs, day)) == entry
  {
    ZeroBasedIsOneBasedShifted(xs, day);
    IsMonthOfUnique(xs, day + 1, MonthIndex0(xs, day), entry.0);
  }

  // ---- Sundays ----

  /** The batch plotter's first Sunday, 1-based (5 January 2025). */
  const FirstSunday: int := 5

  /** The dawn plotter's first Sunday, shifted to 0-based. */
  const FirstSunday0: int := FirstSunday - 1

  /** `[(first_sunday + i * 7) for i in range(52)]`: 52 days a week apart, from the first Sunday. */
  function Sundays(first: int): (days: seq<int>)
    ensures |days| == 52 && days[0] == first
    ensures forall i :: 0 <= i < 51 ==> days[i + 1] == days[i] + 7
  {
    seq(52, i requires 0 <= i < 52 => first + i * 7)
  }

  /** Every entry falls on the same weekday as the first, the list increases, and it ends 51 weeks later. */
  lemma SundaysAreWeekly(first: int)
    ensures forall i :: 0 <= i < 52 ==> Sundays(first)[i] % 7 == first % 7
    ensures forall i, j :: 0 <= i < j < 52 ==> Sundays(first)[i] < Sundays(first)[j]
    ensures Sundays(first)[51] == first + 357
  {
  }

  /**
   * The labels of the dawn plotter's Sunday loop: each index at or past the
   * number of days is skipped, every other one gets its (month, day of month).
   */
  function SundayLabels0(xs: seq<nat>, numDays: int, days: seq<int>): (labels: seq<(nat, int)>)
    requires |xs| >= 11
    ensures |labels| <= |days|
    ensures (forall k :: 0 <= k < |days| ==> days[k] < numDays) ==>
      |labels| == |days| && forall k :: 0 <= k < |days| ==> labels[k] == (MonthIndex0(xs, days[k]), MonthDay0(xs, days[k]))
    ensures (forall k :: 0 <= k < |days| ==> days[k] >= numDays) ==> labels == []
  {
    if |days| == 0 then []
    else
      var rest := SundayLabels0(xs, numDays, days[1..]);
      if days[0] >= numDays then rest
      else [(MonthIndex0(xs, days[0]), MonthDay0(xs, days[0]))] + rest
  }

  /**
   * Skipping is decided day by day: the labels of two lists one after the other
   * are the labels of the first followed by the labels of the second.
   */
  lemma {:induction false} SundayLabels0Append(xs: seq<nat>, numDays: int, a: seq<int>, b: seq<int>)
    requires |xs| >= 11
    ensures SundayLabels0(xs, numDays, a + b) == SundayLabels0(xs, numDays, a) + SundayLabels0(xs, numDays, b)
    decreases |a|
  {
    if |a| > 0 {
      assert (a + b)[1..] == a[1..] + b;
      assert (a + b)[0] == a[0];
      SundayLabels0Append(xs, numDays, a[1..], b);
    } else {
      assert a + b == b;
    }
  }

  /** Over the 2025 table every one of the 52 Sundays falls inside the year: none is skipped. */
  lemma NoSundaySkipped()
    ensures var labels := SundayLabels0(DaysInMonth, 365, Sundays(FirstSunday0));
      |labels| == 52
      && forall k :: 0 <= k < 52 ==> labels[k].0 < 12 && 1 <= labels[k].1 <= DaysInMonth[labels[k].0]
  {
    YearHas365Days();
    var days := Sundays(FirstSunday0);
    var labels := SundayLabels0(DaysInMonth, 365, days);
    forall k | 0 <= k < 52
      ensures labels[k].0 < 12 && 1 <= labels[k].1 <= DaysInMonth[labels[k].0]
    {
      MonthIndex0InRange(DaysInMonth, days[k]);
    }
  }

  /**
   * The batch plotter's Sunday loop: for each Sunday, the month found by the
   * `month_index` loop and the day of month.
   */
  method SundayLabels(xs: seq<nat>, days: seq<int>) returns (labels: seq<(nat, int)>)
    ensures |labels| == |days|
    ensures forall k :: 0 <= k < |days| ==>
      IsMonthOf(xs, days[k], labels[k].0) && labels[k].1 == days[k] - Sum(xs[..labels[k].0])
  {
    labels := [];
    for k := 0 to |days|
      invariant |labels| == k
      invariant forall l :: 0 <= l < k ==>
        IsMonthOf(xs, days[l], labels[l].0) && labels[l].1 == days[l] - Sum(xs[..labels[l].0])
    {
      var monthIndex, monthDay := MonthOfDay(xs, days[k]);
      labels := labels + [(monthIndex, monthDay)];
    }
  }

  /**
   * Both plotters put the same labels on the same Sundays: the dawn plotter's
   * label for 0-based day d is the batch plotter's for 1-based day d + 1.
   */
  lemma SundayLabelsAgree(xs: seq<nat>, labels: seq<(nat, int)>)
    requires |xs| == 12 && Sum(xs) == 365
    requires |labels| == 52
    requires forall k :: 0 <= k < 52 ==>
      IsMonthOf(xs, Sundays(FirstSunday)[k], labels[k].0)
      && labels[k].1 == Sundays(FirstSunday)[k] - Sum(xs[..labels[k].0])
    ensures SundayLabels0(xs, 365, Sundays(FirstSunday0)) == labels
  {
    var days0 := Sundays(FirstSunday0);
    forall k | 0 <= k < 52
      ensures (MonthIndex0(xs, days0[k]), MonthDay0(xs, days0[k])) == labels[k]
    {
      SundayAgrees(xs, k, labels[k]);
    }
    LabelsFromEntries(xs, 365, days0, labels);
  }

  /** Labels that agree entry by entry with the 0-based conversion, on days inside the year, are its labels. */
  lemma LabelsFromEntries(xs: seq<nat>, numDays: int, days: seq<int>, labels: seq<(nat, int)>)
    requires |xs| >= 11 && |days| == |labels|
    requires forall k :: 0 <= k < |days| ==> days[k] < numDays
    requires forall k :: 0 <= k < |days| ==> (MonthIndex0(xs, days[k]), MonthDay0(xs, days[k])) == labels[k]
    ensures SundayLabels0(xs, numDays, days) == labels
  {
    var labels0 := SundayLabels0(xs, numDays, days);
    assert |labels0| == |labels|;
    forall k | 0 <= k < |days|
      ensures labels0[k] == labels[k]
    {
    }
  }

  /** Sunday k of the dawn plotter and Sunday k of the batch plotter get the same label. */
  lemma SundayAgrees(xs: seq<nat>, k: nat, entry: (nat, int))
    requires |xs| == 12 && Sum(xs) == 365 && k < 52
    requires IsMonthOf(xs, Sundays(FirstSunday)[k], entry.0)
    requires entry.1 == Sundays(FirstSunday)[k] - Sum(xs[..entry.0])
    ensures (MonthIndex0(xs, Sundays(FirstSunday0)[k]), MonthDay0(xs, Sundays(FirstSunday0)[k])) == entry
  {
    var d := Sundays(FirstSunday0)[k];
    assert Sundays(FirstSunday)[k] == d + 1 && 0 <= d < 365;
    LabelOfShiftedDay(xs, d, entry);
  }
}
