/**
 * Clamped piecewise-linear interpolation (js/app.js lines 75-104): clock time
 * to finishing place through the `curve_c`/`curve_p` breakpoints, and place to
 * leg proportions through the `tier_props` rows. Both clamp outside the
 * breakpoints and otherwise interpolate on the first pair that brackets x.
 */
module Interpolation {
  import opened Numeric
  import opened Pacing

  predicate NonDecreasing(xs: seq<real>) {
    forall i, j :: 0 <= i <= j < |xs| ==> xs[i] <= xs[j]
  }

  predicate StrictlyIncreasing(xs: seq<real>) {
    forall i, j :: 0 <= i < j < |xs| ==> xs[i] < xs[j]
  }

  /** Breakpoints xs with their values ys: as many of each, at least one, xs sorted. */
  predicate Grid(xs: seq<real>, ys: seq<real>) {
    |xs| == |ys| >= 1 && NonDecreasing(xs)
  }

  /**
   * The first index k from i on with x <= xs[k + 1], for an x strictly inside
   * the breakpoints. It is also the first k with xs[k] <= x <= xs[k + 1], the
   * pair the source's loop stops at, and that pair is never degenerate.
   */
  function FirstBracket(xs: seq<real>, x: real, i: nat): (k: nat)
    requires NonDecreasing(xs) && i < |xs| - 1 && xs[i] < x < xs[|xs| - 1]
    ensures i <= k < |xs| - 1
    ensures xs[k] < x <= xs[k + 1]
    ensures forall j :: i < j <= k ==> xs[j] < x
    decreases |xs| - i
  {
    if x <= xs[i + 1] then i else FirstBracket(xs, x, i + 1)
  }

  /** Where x sits between xs[k] and xs[k + 1], as a fraction of that gap. */
  function Frac(xs: seq<real>, x: real, k: nat): real
    requires k + 1 < |xs| && xs[k] < xs[k + 1]
  {
    (x - xs[k]) / (xs[k + 1] - xs[k])
  }

  /** The unrounded value the two lookups compute: clamped at both ends, linear in between. */
  function Interpolate(xs: seq<real>, ys: seq<real>, x: real): (y: real)
    requires Grid(xs, ys)
    ensures x <= xs[0] ==> y == ys[0]
    ensures x > xs[0] && x >= xs[|xs| - 1] ==> y == ys[|ys| - 1]
  {
    if x <= xs[0] then ys[0]
    else if x >= xs[|xs| - 1] then ys[|ys| - 1]
    else
      var k := FirstBracket(xs, x, 0);
      Lerp(ys[k], ys[k + 1], Frac(xs, x, k))
  }

  /** x lies strictly inside the breakpoints, where the lookups interpolate. */
  predicate Interior(xs: seq<real>, x: real)
    requires |xs| >= 1
  {
    xs[0] < x < xs[|xs| - 1]
  }

  /**
   * The source's loop stops at the first pair with xs[k] <= x <= xs[k + 1];
   * for an interior x that pair is the one FirstBracket finds.
   */
  lemma FirstBracketUnique(xs: seq<real>, x: real, k: nat)
    requires NonDecreasing(xs) && |xs| >= 2 && Interior(xs, x)
    requires k < |xs| - 1 && xs[k] <= x <= xs[k + 1]
    requires forall j :: 1 <= j <= k ==> xs[j] < x
    ensures FirstBracket(xs, x, 0) == k
  {
    var b := FirstBracket(xs, x, 0);
    assert xs[b + 1] >= x && xs[k + 1] >= x;
  }

  lemma QuotientInUnit(n: real, g: real)
    requires 0.0 < n <= g
    ensures 0.0 < n / g <= 1.0
  {
  }

  lemma FracAtRight(xs: seq<real>, k: nat)
    requires k + 1 < |xs| && xs[k] < xs[k + 1]
    ensures Frac(xs, xs[k + 1], k) == 1.0
  {
    var g := xs[k + 1] - xs[k];
    assert g != 0.0;
    assert g / g == 1.0;
  }

  /** The fraction of the bracketing gap is in (0, 1]. */
  lemma FracInUnit(xs: seq<real>, x: real)
    requires NonDecreasing(xs) && |xs| >= 2 && Interior(xs, x)
    ensures var k := FirstBracket(xs, x, 0); 0.0 < Frac(xs, x, k) <= 1.0
  {
    var k := FirstBracket(xs, x, 0);
    QuotientInUnit(x - xs[k], xs[k + 1] - xs[k]);
  }

  /**
   * Inside the breakpoints the unrounded value lies between the values at the
   * ends of the bracketing pair.
   */
  lemma InterpolateBetween(xs: seq<real>, ys: seq<real>, x: real)
    requires Grid(xs, ys) && |xs| >= 2 && Interior(xs, x)
    ensures var k := FirstBracket(xs, x, 0);
      && xs[k] < x <= xs[k + 1]
      && (ys[k] <= ys[k + 1] ==> ys[k] <= Interpolate(xs, ys, x) <= ys[k + 1])
      && (ys[k + 1] <= ys[k] ==> ys[k + 1] <= Interpolate(xs, ys, x) <= ys[k])
  {
    var k := FirstBracket(xs, x, 0);
    FracInUnit(xs, x);
    LerpBetween(ys[k], ys[k + 1], Frac(xs, x, k));
  }

  /** With strictly increasing breakpoints the value at a breakpoint is its y value. */
  lemma InterpolateAtBreakpoint(xs: seq<real>, ys: seq<real>, k: nat)
    requires Grid(xs, ys) && StrictlyIncreasing(xs) && k < |xs|
    ensures Interpolate(xs, ys, xs[k]) == ys[k]
  {
    if 0 < k < |xs| - 1 {
      var x := xs[k];
      FirstBracketUnique(xs, x, k - 1);
      FracAtRight(xs, k - 1);
    }
  }

  /** With sorted values the result stays within the first and last value. */
  lemma InterpolateRange(xs: seq<real>, ys: seq<real>, x: real)
    requires Grid(xs, ys) && NonDecreasing(ys)
    ensures ys[0] <= Interpolate(xs, ys, x) <= ys[|ys| - 1]
  {
    if |xs| >= 2 && Interior(xs, x) {
      InterpolateBetween(xs, ys, x);
    }
  }

  /** A bound that holds of every value holds of the result. */
  lemma InterpolateBounded(xs: seq<real>, ys: seq<real>, x: real, lo: real, hi: real)
    requires Grid(xs, ys) && forall i :: 0 <= i < |ys| ==> lo <= ys[i] <= hi
    ensures lo <= Interpolate(xs, ys, x) <= hi
  {
    if |xs| >= 2 && Interior(xs, x) {
      InterpolateBetween(xs, ys, x);
    }
  }

  // ----------------------------------------------------------- clockToPlace

  /**
   * The place `clockToPlace` returns: the interpolated place rounded with
   * `Math.round` inside the curve, the end places unrounded outside it.
   */
  function PlaceOfClock(cc: seq<real>, pp: seq<real>, clock: real): (place: real)
    requires Grid(cc, pp)
    ensures !Interior(cc, clock) ==> place == Interpolate(cc, pp, clock)
    ensures Interior(cc, clock) ==> place == RoundReal(Interpolate(cc, pp, clock))
  {
    if clock <= cc[0] || clock >= cc[|cc| - 1] then Interpolate(cc, pp, clock)
    else RoundReal(Interpolate(cc, pp, clock))
  }

  /** `clockToPlace`: the clamped checks, then the search loop over the curve. */
  method ClockToPlace(cc: seq<real>, pp: seq<real>, clockSecs: real) returns (place: real)
    requires Grid(cc, pp)
    ensures place == PlaceOfClock(cc, pp, clockSecs)
  {
    var last := pp[|pp| - 1];
    if clockSecs <= cc[0] {
      return pp[0];
    }
    if clockSecs >= cc[|cc| - 1] {
      return pp[|pp| - 1];
    }
    for i := 0 to |cc| - 1
      invariant clockSecs > cc[i]
      invariant forall j :: 1 <= j <= i ==> cc[j] < clockSecs
    {
      if clockSecs >= cc[i] && clockSecs <= cc[i + 1] {
        var frac := (clockSecs - cc[i]) / (cc[i + 1] - cc[i]);
        FirstBracketUnique(cc, clockSecs, i);
        assert frac == Frac(cc, clockSecs, i);
        var y := pp[i] + frac * (pp[i + 1] - pp[i]);
        assert Interpolate(cc, pp, clockSecs) == y;
        assert PlaceOfClock(cc, pp, clockSecs) == RoundReal(y);
        return Round(y) as real;
      }
    }
    assert false;
    return last;
  }

  /** With whole-numbered, sorted curve places, the place is within the curve's range. */
  lemma PlaceOfClockRange(cc: seq<real>, pp: seq<real>, clock: real)
    requires Grid(cc, pp) && NonDecreasing(pp) && Integral(pp[0]) && Integral(pp[|pp| - 1])
    ensures pp[0] <= PlaceOfClock(cc, pp, clock) <= pp[|pp| - 1]
  {
    InterpolateRange(cc, pp, clock);
    RoundWithin(Interpolate(cc, pp, clock), pp[0], pp[|pp| - 1]);
  }

  /** A worked example: halfway between places 1 and 50 the curve gives 25.5, rounded up to 26. */
  lemma PlaceOfClockExample()
    ensures PlaceOfClock([0.0, 100.0, 200.0], [1.0, 50.0, 500.0], 50.0) == 26.0
  {
    var cc, pp := [0.0, 100.0, 200.0], [1.0, 50.0, 500.0];
    assert FirstBracket(cc, 50.0, 0) == 0;
    assert Interpolate(cc, pp, 50.0) == 25.5;
  }

  // ------------------------------------------------------- getPropsForPlace

  /** A row of `D.tier_props`: the place it describes and that place's proportions. */
  datatype Tier = Tier(place: real, props: Props)

  function Places(tp: seq<Tier>): (xs: seq<real>)
    ensures |xs| == |tp| && forall i :: 0 <= i < |tp| ==> xs[i] == tp[i].place
  {
    seq(|tp|, i requires 0 <= i < |tp| => tp[i].place)
  }

  /** One proportion of every row, as a column of values over the places. */
  function Column(tp: seq<Tier>, leg: nat): (ys: seq<real>)
    requires 1 <= leg <= 4
    ensures |ys| == |tp| && forall i :: 0 <= i < |tp| ==> ys[i] == Leg(tp[i].props, leg)
  {
    seq(|tp|, i requires 0 <= i < |tp| => Leg(tp[i].props, leg))
  }

  function Leg(p: Props, leg: nat): real
    requires 1 <= leg <= 4
  {
    if leg == 1 then p.p1 else if leg == 2 then p.p2 else if leg == 3 then p.p3 else p.p4
  }

  predicate ValidTiers(tp: seq<Tier>) {
    |tp| >= 1 && NonDecreasing(Places(tp))
  }

  /**
   * The proportions `getPropsForPlace` returns: the end rows outside the tier
   * places, and in between the four proportions of the bracketing rows
   * interpolated with one shared fraction.
   */
  function PropsOfPlace(tp: seq<Tier>, place: real): Props
    requires ValidTiers(tp)
  {
    var xs := Places(tp);
    if place <= xs[0] then tp[0].props
    else if place >= xs[|xs| - 1] then tp[|tp| - 1].props
    else
      var k := FirstBracket(xs, place, 0);
      LerpProps(tp[k].props, tp[k + 1].props, Frac(xs, place, k))
  }

  lemma LerpPropsComponents(a: Props, b: Props, f: real)
    ensures LerpProps(a, b, f) == Props(a.p1 + f * (b.p1 - a.p1), a.p2 + f * (b.p2 - a.p2),
                                        a.p3 + f * (b.p3 - a.p3), a.p4 + f * (b.p4 - a.p4))
  {
  }

  /** `getPropsForPlace`: the clamped checks, then the search loop over the tiers. */
  method GetPropsForPlace(tp: seq<Tier>, place: real) returns (r: Props)
    requires ValidTiers(tp)
    ensures r == PropsOfPlace(tp, place)
  {
    ghost var xs := Places(tp);
    var last := tp[|tp| - 1].props;
    if place <= tp[0].place {
      return tp[0].props;
    }
    if place >= tp[|tp| - 1].place {
      return tp[|tp| - 1].props;
    }
    for i := 0 to |tp| - 1
      invariant place > tp[i].place
      invariant forall j :: 1 <= j <= i ==> tp[j].place < place
    {
      if place >= tp[i].place && place <= tp[i + 1].place {
        var a, b := tp[i].props, tp[i + 1].props;
        var f := (place - tp[i].place) / (tp[i + 1].place - tp[i].place);
        FirstBracketUnique(xs, place, i);
        assert f == Frac(xs, place, i);
        assert PropsOfPlace(tp, place) == LerpProps(a, b, f);
        LerpPropsComponents(a, b, f);
        return Props(a.p1 + f * (b.p1 - a.p1), a.p2 + f * (b.p2 - a.p2),
                     a.p3 + f * (b.p3 - a.p3), a.p4 + f * (b.p4 - a.p4));
      }
    }
    assert false;
    return last;
  }

  /** Each proportion of the result is that proportion's column interpolated on its own. */
  lemma PropsAreColumnwise(tp: seq<Tier>, place: real, leg: nat)
    requires ValidTiers(tp) && 1 <= leg <= 4
    ensures Leg(PropsOfPlace(tp, place), leg) == Interpolate(Places(tp), Column(tp, leg), place)
  {
    var xs, ys := Places(tp), Column(tp, leg);
    if |tp| >= 2 && Interior(xs, place) {
      var k := FirstBracket(xs, place, 0);
      LegOfLerp(tp[k].props, tp[k + 1].props, Frac(xs, place, k), leg);
    }
  }

  lemma LegOfLerp(a: Props, b: Props, f: real, leg: nat)
    requires 1 <= leg <= 4
    ensures Leg(LerpProps(a, b, f), leg) == Lerp(Leg(a, leg), Leg(b, leg), f)
  {
  }


  /** Rows whose legs are all positive give positive legs at every place. */
  lemma PropsOfPlacePositive(tp: seq<Tier>, place: real)
    requires ValidTiers(tp) && forall i :: 0 <= i < |tp| ==> PositiveLegs(tp[i].props)
    ensures PositiveLegs(PropsOfPlace(tp, place))
  {
    var xs := Places(tp);
    if |tp| >= 2 && Interior(xs, place) {
      var k := FirstBracket(xs, place, 0);
      FracInUnit(xs, place);
      LerpPositive(tp[k].props, tp[k + 1].props, Frac(xs, place, k));
    }
  }
}
