/**
 * `interpolate_missing_values`: a daily series is either a list of numbers or a
 * list of (dawn, dusk) pairs. A list of numbers is filled directly; a list of
 * pairs is split into its two component series, each is filled on its own, and
 * the results are zipped back together. The script then fills each of its seven
 * series this way, the moon phases included.
 */
module Series {
  import opened Interpolation
  import opened InterpolationFacts

  /** The two shapes a daily series takes; the first entry decides which one is meant. */
  datatype Series = Flat(values: seq<real>) | Paired(pairs: seq<(real, real)>)

  function Length(t: Series): nat {
    match t
    case Flat(vs) => |vs|
    case Paired(ps) => |ps|
  }

  /** `[t[0] for t in times]` */
  function Firsts(ps: seq<(real, real)>): (xs: seq<real>)
    ensures |xs| == |ps| && forall i :: 0 <= i < |ps| ==> xs[i] == ps[i].0
  {
    seq(|ps|, i requires 0 <= i < |ps| => ps[i].0)
  }

  /** `[t[1] for t in times]` */
  function Seconds(ps: seq<(real, real)>): (ys: seq<real>)
    ensures |ys| == |ps| && forall i :: 0 <= i < |ps| ==> ys[i] == ps[i].1
  {
    seq(|ps|, i requires 0 <= i < |ps| => ps[i].1)
  }

  /** `list(zip(xs, ys))` on two lists of the same length. */
  function Zip(xs: seq<real>, ys: seq<real>): (ps: seq<(real, real)>)
    requires |xs| == |ys|
    ensures |ps| == |xs| && Firsts(ps) == xs && Seconds(ps) == ys
  {
    var ps := seq(|xs|, i requires 0 <= i < |xs| => (xs[i], ys[i]));
    assert Firsts(ps) == xs;
    assert Seconds(ps) == ys;
    ps
  }

  /** Splitting a pair list into its components and zipping them back gives the list itself. */
  lemma UnzipZip(ps: seq<(real, real)>)
    ensures Zip(Firsts(ps), Seconds(ps)) == ps
  {
    var qs := Zip(Firsts(ps), Seconds(ps));
    assert forall i :: 0 <= i < |ps| ==> qs[i].0 == ps[i].0 && qs[i].1 == ps[i].1;
  }

  /**
   * `interpolate_missing_values(times)`: an empty list fails on `times[0]`; a
   * list of numbers is filled as a whole; a list of pairs is filled component
   * by component, the first component's error being the one raised.
   */
  function InterpolateMissingValues(t: Series): (r: Result<Series>)
    ensures Length(t) == 0 ==> r == Err(EmptySeries)
    ensures r.Ok? ==> Length(r.value) == Length(t) && r.value.Flat? == t.Flat?
  {
    match t
    case Flat(vs) =>
      if |vs| == 0 then Err(EmptySeries)
      else (
        match Filled(vs)
        case Err(e) => Err(e)
        case Ok(f) => Ok(Flat(f)))
    case Paired(ps) =>
      if |ps| == 0 then Err(EmptySeries)
      else
        match Filled(Firsts(ps))
        case Err(e) => Err(e)
        case Ok(f) =>
          match Filled(Seconds(ps))
          case Err(e) => Err(e)
          case Ok(g) => Ok(Paired(Zip(f, g)))
  }

  /** A non-empty list of numbers is exactly what `interpolate_array` makes of it. */
  lemma FlatIsInterpolateArray(vs: seq<real>)
    requires |vs| > 0
    ensures InterpolateMissingValues(Flat(vs)).Ok? <==> Filled(vs).Ok?
    ensures Filled(vs).Ok? ==> InterpolateMissingValues(Flat(vs)).value.values == Filled(vs).value
  {
  }

  /**
   * A non-empty list of pairs succeeds exactly when both component series can be
   * filled, and then each component of the result is the filled component series.
   */
  lemma PairedIsComponentwise(ps: seq<(real, real)>)
    requires |ps| > 0
    ensures InterpolateMissingValues(Paired(ps)).Ok? <==> Filled(Firsts(ps)).Ok? && Filled(Seconds(ps)).Ok?
    ensures InterpolateMissingValues(Paired(ps)).Ok? ==>
      var qs := InterpolateMissingValues(Paired(ps)).value.pairs;
      Firsts(qs) == Filled(Firsts(ps)).value && Seconds(qs) == Filled(Seconds(ps)).value
  {
  }

  /** A pair series with two or more days and no sentinel in either component comes back unchanged. */
  lemma PairedNoGapsUnchanged(ps: seq<(real, real)>)
    requires |ps| >= 2
    requires forall i :: 0 <= i < |ps| ==> !IsMissing(ps[i].0) && !IsMissing(ps[i].1)
    ensures InterpolateMissingValues(Paired(ps)) == Ok(Paired(ps))
  {
    NoGapsUnchanged(Firsts(ps));
    NoGapsUnchanged(Seconds(ps));
    UnzipZip(ps);
  }

  /** Pair i of a filled pair series keeps each component that was not the sentinel. */
  lemma PairedKeepsReadings(ps: seq<(real, real)>, i: nat)
    requires i < |ps| && InterpolateMissingValues(Paired(ps)).Ok?
    ensures var q := InterpolateMissingValues(Paired(ps)).value.pairs[i];
      (!IsMissing(ps[i].0) ==> q.0 == ps[i].0) && (!IsMissing(ps[i].1) ==> q.1 == ps[i].1)
  {
    PairedIsComponentwise(ps);
    var qs := InterpolateMissingValues(Paired(ps)).value.pairs;
    assert Firsts(qs)[i] == Filled(Firsts(ps)).value[i];
    assert Seconds(qs)[i] == Filled(Seconds(ps)).value[i];
  }

  /** The raw series the day loop builds, one entry per day. */
  datatype RawYear = RawYear(
    sunrise: seq<real>, sunset: seq<real>, noon: seq<real>,
    civil: seq<(real, real)>, nautical: seq<(real, real)>, astro: seq<(real, real)>,
    moonPhases: seq<real>)

  /** The seven series after filling, as written to the data file. */
  datatype FilledYear = FilledYear(
    sunrise: seq<real>, sunset: seq<real>, noon: seq<real>,
    civil: seq<(real, real)>, nautical: seq<(real, real)>, astro: seq<(real, real)>,
    moonPhases: seq<real>)

  /**
   * The seven calls to `interpolate_missing_values`, in the script's order
   * (sunrise, sunset, noon, civil, nautical, astronomical, moon phase); the first
   * one that raises stops the script. The moon phases go through the linear
   * filler: `interpolate_circular` is never called.
   */
  function FillYear(y: RawYear): (r: Result<FilledYear>)
    ensures r.Ok? ==>
      |r.value.sunrise| == |y.sunrise| && |r.value.sunset| == |y.sunset| && |r.value.noon| == |y.noon|
      && |r.value.civil| == |y.civil| && |r.value.nautical| == |y.nautical| && |r.value.astro| == |y.astro|
      && |r.value.moonPhases| == |y.moonPhases|
  {
    match InterpolateMissingValues(Flat(y.sunrise))
    case Err(e) => Err(e)
    case Ok(sunrise) =>
    match InterpolateMissingValues(Flat(y.sunset))
    case Err(e) => Err(e)
    case Ok(sunset) =>
    match InterpolateMissingValues(Flat(y.noon))
    case Err(e) => Err(e)
    case Ok(noon) =>
    match InterpolateMissingValues(Paired(y.civil))
    case Err(e) => Err(e)
    case Ok(civil) =>
    match InterpolateMissingValues(Paired(y.nautical))
    case Err(e) => Err(e)
    case Ok(nautical) =>
    match InterpolateMissingValues(Paired(y.astro))
    case Err(e) => Err(e)
    case Ok(astro) =>
    match InterpolateMissingValues(Flat(y.moonPhases))
    case Err(e) => Err(e)
    case Ok(moon) =>
      Ok(FilledYear(sunrise.values, sunset.values, noon.values, civil.pairs, nautical.pairs, astro.pairs, moon.values))
  }

  /** Every series of a successful fill is the linear filler applied to that series alone. */
  lemma FillYearIsSeriesWise(y: RawYear)
    requires FillYear(y).Ok?
    ensures var f := FillYear(y).value;
      Filled(y.sunrise) == Ok(f.sunrise) && Filled(y.sunset) == Ok(f.sunset) && Filled(y.noon) == Ok(f.noon)
      && Filled(Firsts(y.civil)) == Ok(Firsts(f.civil)) && Filled(Seconds(y.civil)) == Ok(Seconds(f.civil))
      && Filled(Firsts(y.nautical)) == Ok(Firsts(f.nautical)) && Filled(Seconds(y.nautical)) == Ok(Seconds(f.nautical))
      && Filled(Firsts(y.astro)) == Ok(Firsts(f.astro)) && Filled(Seconds(y.astro)) == Ok(Seconds(f.astro))
      && Filled(y.moonPhases) == Ok(f.moonPhases)
  {
    PairedIsComponentwise(y.civil);
    PairedIsComponentwise(y.nautical);
    PairedIsComponentwise(y.astro);
  }

  /** The fill succeeds exactly when every series is non-empty and every component has two anchors. */
  lemma FillYearSucceeds(y: RawYear)
    ensures FillYear(y).Ok? <==>
      |y.sunrise| > 0 && |y.sunset| > 0 && |y.noon| > 0 && |y.civil| > 0 && |y.nautical| > 0
      && |y.astro| > 0 && |y.moonPhases| > 0
      && |Anchors(y.sunrise)| >= 2 && |Anchors(y.sunset)| >= 2 && |Anchors(y.noon)| >= 2
      && |Anchors(Firsts(y.civil))| >= 2 && |Anchors(Seconds(y.civil))| >= 2
      && |Anchors(Firsts(y.nautical))| >= 2 && |Anchors(Seconds(y.nautical))| >= 2
      && |Anchors(Firsts(y.astro))| >= 2 && |Anchors(Seconds(y.astro))| >= 2
      && |Anchors(y.moonPhases)| >= 2
  {
    FillYearOkIffEach(y);
    PairedSucceeds(y.civil);
    PairedSucceeds(y.nautical);
    PairedSucceeds(y.astro);
  }

  /** The seven fills succeed together exactly when each one succeeds on its own. */
  lemma FillYearOkIffEach(y: RawYear)
    ensures FillYear(y).Ok? <==>
      InterpolateMissingValues(Flat(y.sunrise)).Ok? && InterpolateMissingValues(Flat(y.sunset)).Ok?
      && InterpolateMissingValues(Flat(y.noon)).Ok? && InterpolateMissingValues(Paired(y.civil)).Ok?
      && InterpolateMissingValues(Paired(y.nautical)).Ok? && InterpolateMissingValues(Paired(y.astro)).Ok?
      && InterpolateMissingValues(Flat(y.moonPhases)).Ok?
  {
  }

  /** A list of pairs can be filled exactly when it is non-empty and both components have two anchors. */
  lemma PairedSucceeds(ps: seq<(real, real)>)
    ensures InterpolateMissingValues(Paired(ps)).Ok? <==>
      |ps| > 0 && |Anchors(Firsts(ps))| >= 2 && |Anchors(Seconds(ps))| >= 2
  {
    if |ps| > 0 {
      PairedIsComponentwise(ps);
    }
  }

  /**
   * Because the moon phases are filled linearly, a gap after phases 27 and 28
   * is filled with 29, past the end of the 28-day cycle.
   */
  lemma MoonPhaseFillDoesNotWrap()
    ensures InterpolateMissingValues(Flat([27.0, 28.0, -1.0])) == Ok(Flat([27.0, 28.0, 29.0]))
  {
    var s := [27.0, 28.0, -1.0];
    FillAfterLastAnchor(s, 0, 1, 2);
    assert Filled(s).value == [27.0, 28.0, 29.0];
  }

  /**
   * The unused circular filler would have wrapped that same gap to 1, and
   * returned the two readings as fractions of the cycle.
   */
  lemma CircularFillWouldWrap()
    ensures CircularFilled([27.0, 28.0, -1.0], 28.0) == Ok([27.0 / 28.0, 1.0, 1.0])
  {
    var s := [27.0, 28.0, -1.0];
    var t := Scaled(s, 28.0);
    assert t == [27.0 / 28.0, 1.0, -1.0];
    FillAfterLastAnchor(t, 0, 1, 2);
    assert Filled(t).value[2] == 29.0 / 28.0;
    CircularFilledAt(s, 28.0, 2);
    assert FloorMod(29.0, 28.0) == 1.0;
    assert CircularFilled(s, 28.0).value == [27.0 / 28.0, 1.0, 1.0];
  }
}
