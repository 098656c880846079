/**
 * The per-day collection loop: for every date of the year, in calendar order,
 * ask the ephemeris library for the sun's events at three twilight depressions
 * and for the moon's phase, and append the ten resulting quantities to seven
 * series. The library is an oracle that may fail on a date; a failure on any
 * of its four calls turns all ten quantities of that day into the sentinel -1.
 */
module DayCollection {
  import opened Interpolation
  import opened Series
  import opened Calendar

  datatype Option<T> = None | Some(value: T)

  /** `datetime.date(year, month, day)`, month and day 1-based. */
  datatype Date = Date(year: int, month: int, day: int)

  /** The hour and minute fields of a `datetime` the library returns. */
  datatype Clock = Clock(hour: nat, minute: nat)

  predicate ValidClock(c: Clock) {
    c.hour < 24 && c.minute < 60
  }

  /** `t.hour + t.minute / 60`: hours since midnight, seconds dropped. */
  function Hours(c: Clock): (h: real)
    ensures (h - c.hour as real) * 60.0 == c.minute as real
  {
    c.hour as real + c.minute as real / 60.0
  }

  /** A valid clock gives a time of day in [0, 24), from which hour and minute can be read back. */
  lemma HoursRange(c: Clock)
    requires ValidClock(c)
    ensures 0.0 <= Hours(c) < 24.0
    ensures Hours(c).Floor == c.hour as int
  {
    assert 0.0 <= c.minute as real / 60.0 < 1.0;
  }

  /** The events of one call `sun(observer, date, dawn_dusk_depression=...)`. */
  datatype SunEvents = SunEvents(dawn: Clock, sunrise: Clock, noon: Clock, sunset: Clock, dusk: Clock)

  /** The depressions of the civil, nautical and astronomical twilights, in degrees. */
  const Civil: nat := 6
  const Nautical: nat := 12
  const Astronomical: nat := 18

  /** The library, as an oracle that may fail (None) on a date. */
  type SunOracle = (Date, nat) -> Option<SunEvents>
  type MoonOracle = Date -> Option<real>

  /** The ten quantities recorded for one day. */
  datatype Day = Day(
    sunrise: real, sunset: real, moonPhase: real, noon: real,
    dawn: real, dusk: real, dawnNautical: real, duskNautical: real,
    dawnAstro: real, duskAstro: real)

  /** The record of a day on which the library failed. */
  const MissingDay: Day := Day(Sentinel, Sentinel, Sentinel, Sentinel, Sentinel,
    Sentinel, Sentinel, Sentinel, Sentinel, Sentinel)

  /** All four library calls succeed on this date. */
  predicate Succeeds(sun: SunOracle, moon: MoonOracle, date: Date) {
    sun(date, Civil).Some? && sun(date, Nautical).Some? && sun(date, Astronomical).Some? && moon(date).Some?
  }

  /** The body of the `try`/`except`: the day's record. */
  function Observe(sun: SunOracle, moon: MoonOracle, date: Date): (d: Day)
    ensures d == MissingDay <==> !Succeeds(sun, moon, date)
  {
    if Succeeds(sun, moon, date) then
      var s, n, a := sun(date, Civil).value, sun(date, Nautical).value, sun(date, Astronomical).value;
      Day(Hours(s.sunrise), Hours(s.sunset), moon(date).value, Hours(s.noon),
        Hours(s.dawn), Hours(s.dusk), Hours(n.dawn), Hours(n.dusk), Hours(a.dawn), Hours(a.dusk))
    else MissingDay
  }

  predicate ValidEvents(e: SunEvents) {
    ValidClock(e.dawn) && ValidClock(e.sunrise) && ValidClock(e.noon) && ValidClock(e.sunset) && ValidClock(e.dusk)
  }

  /** None of the ten quantities is the sentinel. */
  predicate NoneMissing(d: Day) {
    !IsMissing(d.sunrise) && !IsMissing(d.sunset) && !IsMissing(d.moonPhase) && !IsMissing(d.noon)
    && !IsMissing(d.dawn) && !IsMissing(d.dusk) && !IsMissing(d.dawnNautical) && !IsMissing(d.duskNautical)
    && !IsMissing(d.dawnAstro) && !IsMissing(d.duskAstro)
  }

  /**
   * A day's record is all the oracle's values or all the sentinel. With valid
   * clocks and a non-negative phase no real reading is the sentinel, so the
   * gaps the filler sees are exactly the failed days.
   */
  lemma AllOrNothing(sun: SunOracle, moon: MoonOracle, date: Date)
    ensures Succeeds(sun, moon, date) ==>
      var s, n, a := sun(date, Civil).value, sun(date, Nautical).value, sun(date, Astronomical).value;
      Observe(sun, moon, date).sunrise == Hours(s.sunrise) && Observe(sun, moon, date).sunset == Hours(s.sunset)
      && Observe(sun, moon, date).moonPhase == moon(date).value && Observe(sun, moon, date).noon == Hours(s.noon)
      && Observe(sun, moon, date).dawn == Hours(s.dawn) && Observe(sun, moon, date).dusk == Hours(s.dusk)
      && Observe(sun, moon, date).dawnNautical == Hours(n.dawn) && Observe(sun, moon, date).duskNautical == Hours(n.dusk)
      && Observe(sun, moon, date).dawnAstro == Hours(a.dawn) && Observe(sun, moon, date).duskAstro == Hours(a.dusk)
    ensures !Succeeds(sun, moon, date) ==> Observe(sun, moon, date) == MissingDay
    ensures (Succeeds(sun, moon, date) && ValidEvents(sun(date, Civil).value) && ValidEvents(sun(date, Nautical).value)
      && ValidEvents(sun(date, Astronomical).value) && moon(date).value >= 0.0) ==>
      NoneMissing(Observe(sun, moon, date))
  {
    if Succeeds(sun, moon, date) && ValidEvents(sun(date, Civil).value) && ValidEvents(sun(date, Nautical).value)
      && ValidEvents(sun(date, Astronomical).value) {
      var s, n, a := sun(date, Civil).value, sun(date, Nautical).value, sun(date, Astronomical).value;
      HoursRange(s.sunrise); HoursRange(s.sunset); HoursRange(s.noon); HoursRange(s.dawn); HoursRange(s.dusk);
      HoursRange(n.dawn); HoursRange(n.dusk); HoursRange(a.dawn); HoursRange(a.dusk);
    }
  }

  // ---- the dates of the year ----

  /** The year the calendar is drawn for. */
  const Year: int := 2025

  /** `datetime.date(year, m, d)` for d in 1 .. n. */
  function MonthDates(year: int, m: nat, n: nat): (ds: seq<Date>)
    ensures |ds| == n && forall i :: 0 <= i < n ==> ds[i] == Date(year, m, i + 1)
  {
    seq(n, i requires 0 <= i < n => Date(year, m, i + 1))
  }

  /** The dates the two loops visit: months 1, 2, ... each with its days 1 .. length. */
  function YearDates(year: int, xs: seq<nat>): (ds: seq<Date>)
    ensures |ds| == Sum(xs)
  {
    if |xs| == 0 then []
    else YearDates(year, xs[..|xs| - 1]) + MonthDates(year, |xs|, xs[|xs| - 1])
  }

  /**
   * Calendar order: the date at 0-based position k is the one the batch
   * plotter's 1-based conversion gives for day k + 1.
   */
  lemma {:induction false} YearDatesInCalendarOrder(year: int, xs: seq<nat>, k: nat) returns (m: nat)
    requires k < Sum(xs)
    ensures IsMonthOf(xs, k + 1, m) && m < |xs|
    ensures YearDates(year, xs)[k] == Date(year, m + 1, k + 1 - Sum(xs[..m]))
  {
    var n := |xs|;
    var init := xs[..n - 1];
    assert xs[..n - 1 + 1] == xs;
    if k < Sum(init) {
      m := YearDatesInCalendarOrder(year, init, k);
      assert init[..m] == xs[..m];
      PrefixMonthEnds(xs, m);
    } else {
      m := n - 1;
      PrefixMonthEnds(xs, n - 1);
      assert init[..n - 1] == init;
      forall j | 0 <= j < n - 1
        ensures MonthEnd(xs, j) < k + 1
      {
        SumPrefixMonotone(init, j + 1, n - 1);
        assert init[..j + 1] == xs[..j + 1];
      }
    }
  }

  /** Month ends up to month m do not depend on the months after it. */
  lemma PrefixMonthEnds(xs: seq<nat>, m: nat)
    requires m < |xs|
    ensures forall j :: 0 <= j <= m && j < |xs| - 1 ==> MonthEnd(xs[..|xs| - 1], j) == MonthEnd(xs, j)
    ensures m + 1 < |xs| ==> MonthEnd(xs, m) == MonthEnd(xs[..|xs| - 1], m)
  {
    MonthEndsOfPrefix(xs);
  }

  // ---- the collection loop ----

  /** The seven series the loop builds from a list of dates, one entry per date. */
  function Collected(sun: SunOracle, moon: MoonOracle, dates: seq<Date>): (y: RawYear)
    ensures |y.sunrise| == |y.sunset| == |y.noon| == |y.moonPhases| == |dates|
    ensures |y.civil| == |y.nautical| == |y.astro| == |dates|
  {
    var days := seq(|dates|, k requires 0 <= k < |dates| => Observe(sun, moon, dates[k]));
    RawYear(
      seq(|days|, k requires 0 <= k < |days| => days[k].sunrise),
      seq(|days|, k requires 0 <= k < |days| => days[k].sunset),
      seq(|days|, k requires 0 <= k < |days| => days[k].noon),
      seq(|days|, k requires 0 <= k < |days| => (days[k].dawn, days[k].dusk)),
      seq(|days|, k requires 0 <= k < |days| => (days[k].dawnNautical, days[k].duskNautical)),
      seq(|days|, k requires 0 <= k < |days| => (days[k].dawnAstro, days[k].duskAstro)),
      seq(|days|, k requires 0 <= k < |days| => days[k].moonPhase))
  }

  /** Appending one date appends that date's record to each series. */
  lemma CollectedSnoc(sun: SunOracle, moon: MoonOracle, dates: seq<Date>, date: Date)
    ensures var y, z, d := Collected(sun, moon, dates), Collected(sun, moon, dates + [date]), Observe(sun, moon, date);
      z == RawYear(y.sunrise + [d.sunrise], y.sunset + [d.sunset], y.noon + [d.noon],
        y.civil + [(d.dawn, d.dusk)], y.nautical + [(d.dawnNautical, d.duskNautical)],
        y.astro + [(d.dawnAstro, d.duskAstro)], y.moonPhases + [d.moonPhase])
  {
    var y, z, d := Collected(sun, moon, dates), Collected(sun, moon, dates + [date]), Observe(sun, moon, date);
    assert z.sunrise == y.sunrise + [d.sunrise];
    assert z.sunset == y.sunset + [d.sunset];
    assert z.noon == y.noon + [d.noon];
    assert z.civil == y.civil + [(d.dawn, d.dusk)];
    assert z.nautical == y.nautical + [(d.dawnNautical, d.duskNautical)];
    assert z.astro == y.astro + [(d.dawnAstro, d.duskAstro)];
    assert z.moonPhases == y.moonPhases + [d.moonPhase];
  }

  /**
   * The two nested loops: months 1 to 12, then the days of each month, appending
   * one entry per date to each of the seven series.
   */
  method CollectYear(sun: SunOracle, moon: MoonOracle) returns (y: RawYear)
    ensures y == Collected(sun, moon, YearDates(Year, DaysInMonth))
    ensures |y.sunrise| == |y.sunset| == |y.noon| == |y.moonPhases| == 365
    ensures |y.civil| == |y.nautical| == |y.astro| == 365
  {
    var sunrise, sunset, noon, moonPhases: seq<real> := [], [], [], [];
    var civil, nautical, astro: seq<(real, real)> := [], [], [];
    ghost var seen: seq<Date> := [];
    for m := 1 to 13
      invariant seen == YearDates(Year, DaysInMonth[..m - 1])
      invariant RawYear(sunrise, sunset, noon, civil, nautical, astro, moonPhases) == Collected(sun, moon, seen)
    {
      for d := 1 to DaysInMonth[m - 1] + 1
        invariant seen == YearDates(Year, DaysInMonth[..m - 1]) + MonthDates(Year, m, d - 1)
        invariant RawYear(sunrise, sunset, noon, civil, nautical, astro, moonPhases) == Collected(sun, moon, seen)
      {
        var date := Date(Year, m, d);
        var day := Observe(sun, moon, date);
        CollectedSnoc(sun, moon, seen, date);
        assert MonthDates(Year, m, d) == MonthDates(Year, m, d - 1) + [date];
        seen := seen + [date];
        sunrise := sunrise + [day.sunrise];
        sunset := sunset + [day.sunset];
        moonPhases := moonPhases + [day.moonPhase];
        noon := noon + [day.noon];
        civil := civil + [(day.dawn, day.dusk)];
        nautical := nautical + [(day.dawnNautical, day.duskNautical)];
        astro := astro + [(day.dawnAstro, day.duskAstro)];
      }
      assert DaysInMonth[..m] == DaysInMonth[..m][..m - 1] + [DaysInMonth[m - 1]];
      assert DaysInMonth[..m][..m - 1] == DaysInMonth[..m - 1];
    }
    assert DaysInMonth[..12] == DaysInMonth;
    YearHas365Days();
    y := RawYear(sunrise, sunset, noon, civil, nautical, astro, moonPhases);
  }

  /**
   * Entry k of every series comes from the date at position k, and is the
   * oracle's value or the sentinel for all ten quantities together.
   */
  lemma CollectedEntry(sun: SunOracle, moon: MoonOracle, dates: seq<Date>, k: nat)
    requires k < |dates|
    ensures var y, d := Collected(sun, moon, dates), Observe(sun, moon, dates[k]);
      y.sunrise[k] == d.sunrise && y.sunset[k] == d.sunset && y.noon[k] == d.noon && y.moonPhases[k] == d.moonPhase
      && y.civil[k] == (d.dawn, d.dusk) && y.nautical[k] == (d.dawnNautical, d.duskNautical)
      && y.astro[k] == (d.dawnAstro, d.duskAstro)
    ensures !Succeeds(sun, moon, dates[k]) ==>
      var y := Collected(sun, moon, dates);
      IsMissing(y.sunrise[k]) && IsMissing(y.sunset[k]) && IsMissing(y.noon[k]) && IsMissing(y.moonPhases[k])
      && IsMissing(y.civil[k].0) && IsMissing(y.civil[k].1) && IsMissing(y.nautical[k].0)
      && IsMissing(y.nautical[k].1) && IsMissing(y.astro[k].0) && IsMissing(y.astro[k].1)
  {
    AllOrNothing(sun, moon, dates[k]);
  }
}
