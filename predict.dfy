/**
 * The Predict Placement tab (js/app.js lines 253-309 and 343-354): from one
 * split time at a chosen checkpoint, estimate the finishing place by three
 * fixed-point passes (place, then proportions, then actual and clock time,
 * then place again) seeded at place 500, evaluate once more at the converged
 * place, and classify the result with a badge.
 */
module Predict {
  import opened Numeric
  import opened Pacing
  import opened Interpolation
  import opened Calibration
  import opened Targets

  // ---------------------------------------------------------------- badges

  datatype Badge =
    | Winner | BlackShirt | Top100 | InvQualifying | InvMiss
    | DrWinnerPace | DrQualifying | DrMiss

  function BadgeLabel(b: Badge): string {
    match b
    case Winner => "Winner"
    case BlackShirt => "Black Shirt"
    case Top100 => "Top 100"
    case InvQualifying => "INV Qualifying"
    case InvMiss => "Does not qualify (INV top 450)"
    case DrWinnerPace => "DR Section Winner pace"
    case DrQualifying => "Qualifying"
    case DrMiss => "Does not qualify (top 750)"
  }

  /** The badge's style class. */
  function BadgeClass(b: Badge): string {
    match b
    case Winner => "win"
    case BlackShirt => "black"
    case Top100 => "qual"
    case InvQualifying => "qual"
    case InvMiss => "miss"
    case DrWinnerPace => "win"
    case DrQualifying => "qual"
    case DrMiss => "miss"
  }

  /** `getBadge`: the first threshold, in increasing order, that the place does not exceed. */
  function GetBadge(s: Section, place: real): (b: Badge)
    ensures s == Inv <==> b in {Winner, BlackShirt, Top100, InvQualifying, InvMiss}
  {
    if s == Inv then
      if place <= 1.0 then Winner
      else if place <= 35.0 then BlackShirt
      else if place <= 100.0 then Top100
      else if place <= 450.0 then InvQualifying
      else InvMiss
    else
      if place <= 540.0 then DrWinnerPace
      else if place <= 750.0 then DrQualifying
      else DrMiss
  }

  /** How far down its section's ladder a badge is; 0 is the best. */
  function Rank(b: Badge): nat {
    match b
    case Winner => 0
    case BlackShirt => 1
    case Top100 => 2
    case InvQualifying => 3
    case InvMiss => 4
    case DrWinnerPace => 0
    case DrQualifying => 1
    case DrMiss => 2
  }

  /** Each badge covers exactly one interval of places. */
  lemma BadgeIntervals(place: real)
    ensures GetBadge(Inv, place) == Winner <==> place <= 1.0
    ensures GetBadge(Inv, place) == BlackShirt <==> 1.0 < place <= 35.0
    ensures GetBadge(Inv, place) == Top100 <==> 35.0 < place <= 100.0
    ensures GetBadge(Inv, place) == InvQualifying <==> 100.0 < place <= 450.0
    ensures GetBadge(Inv, place) == InvMiss <==> place > 450.0
    ensures GetBadge(Dr, place) == DrWinnerPace <==> place <= 540.0
    ensures GetBadge(Dr, place) == DrQualifying <==> 540.0 < place <= 750.0
    ensures GetBadge(Dr, place) == DrMiss <==> place > 750.0
  {
  }

  /** A place misses qualification exactly beyond 450 (Invitational) or 750 (Dipsea Runner). */
  lemma BadgeMiss(s: Section, place: real)
    ensures BadgeClass(GetBadge(s, place)) == "miss"
        <==> (if s == Inv then place > 450.0 else place > 750.0)
  {
  }

  /** A better (smaller) place never gets a worse badge. */
  lemma BadgeMonotone(s: Section, p: real, q: real)
    requires p <= q
    ensures Rank(GetBadge(s, p)) <= Rank(GetBadge(s, q))
  {
  }

  // ---------------------------------------------------------------- passes

  /**
   * What the division of `computePredict` relies on: under the bias, every tier
   * row gives the chosen segment a positive share of the total time.
   */
  predicate PacingPositive(d: Data, bias: real, key: SegKey) {
    forall i :: 0 <= i < |d.tiers| ==>
      SegFrac(BiasProps(d.tiers[i].props, bias, d.biasP2Sd, d.biasP3Sd), key, d.sub) > 0.0
  }

  /** Then the chosen segment's share is positive at every place, the rows in between included. */
  lemma BiasedSharePositive(d: Data, bias: real, key: SegKey, place: real)
    requires Valid(d) && PacingPositive(d, bias, key)
    ensures SegFrac(BiasProps(PropsOfPlace(d.tiers, place), bias, d.biasP2Sd, d.biasP3Sd), key, d.sub) > 0.0
  {
    var tp, xs := d.tiers, Places(d.tiers);
    if place <= xs[0] {
      assert SegFrac(BiasProps(tp[0].props, bias, d.biasP2Sd, d.biasP3Sd), key, d.sub) > 0.0;
    } else if place >= xs[|xs| - 1] {
      assert SegFrac(BiasProps(tp[|tp| - 1].props, bias, d.biasP2Sd, d.biasP3Sd), key, d.sub) > 0.0;
    } else {
      var k := FirstBracket(xs, place, 0);
      var f := Frac(xs, place, k);
      FracInUnit(xs, place);
      var a := BiasProps(tp[k].props, bias, d.biasP2Sd, d.biasP3Sd);
      var b := BiasProps(tp[k + 1].props, bias, d.biasP2Sd, d.biasP3Sd);
      assert SegFrac(a, key, d.sub) > 0.0 && SegFrac(b, key, d.sub) > 0.0;
      BiasLerp(tp[k].props, tp[k + 1].props, f, bias, d.biasP2Sd, d.biasP3Sd);
      SegFracLerpPositive(a, b, f, key, d.sub);
    }
  }

  /** A stronger, key-independent condition: valid ratios, and every biased tier row has positive legs. */
  predicate TiersPositive(d: Data, bias: real) {
    && ValidSub(d.sub)
    && forall i :: 0 <= i < |d.tiers| ==>
         PositiveLegs(BiasProps(d.tiers[i].props, bias, d.biasP2Sd, d.biasP3Sd))
  }

  /** It gives every segment a positive share, whichever checkpoint is chosen. */
  lemma TiersPositiveForEveryKey(d: Data, bias: real, key: SegKey)
    requires TiersPositive(d, bias)
    ensures PacingPositive(d, bias, key)
  {
    forall i | 0 <= i < |d.tiers|
      ensures SegFrac(BiasProps(d.tiers[i].props, bias, d.biasP2Sd, d.biasP3Sd), key, d.sub) > 0.0
    {
      SegFracPositive(BiasProps(d.tiers[i].props, bias, d.biasP2Sd, d.biasP3Sd), key, d.sub);
    }
  }

  /** Under it the biased proportions of any place have positive legs. */
  lemma BiasedPropsPositive(d: Data, bias: real, place: real)
    requires Valid(d) && TiersPositive(d, bias)
    ensures PositiveLegs(BiasProps(PropsOfPlace(d.tiers, place), bias, d.biasP2Sd, d.biasP3Sd))
  {
    var tp, xs := d.tiers, Places(d.tiers);
    if place <= xs[0] {
      assert PositiveLegs(BiasProps(tp[0].props, bias, d.biasP2Sd, d.biasP3Sd));
    } else if place >= xs[|xs| - 1] {
      assert PositiveLegs(BiasProps(tp[|tp| - 1].props, bias, d.biasP2Sd, d.biasP3Sd));
    } else {
      var k := FirstBracket(xs, place, 0);
      var f := Frac(xs, place, k);
      FracInUnit(xs, place);
      var a := BiasProps(tp[k].props, bias, d.biasP2Sd, d.biasP3Sd);
      var b := BiasProps(tp[k + 1].props, bias, d.biasP2Sd, d.biasP3Sd);
      assert PositiveLegs(a) && PositiveLegs(b);
      BiasLerp(tp[k].props, tp[k + 1].props, f, bias, d.biasP2Sd, d.biasP3Sd);
      LerpPositive(a, b, f);
    }
  }

  lemma DivideBack(split: real, frac: real)
    requires frac > 0.0
    ensures (split / frac) * frac == split
  {
  }

  /** One evaluation at a place: the pacing used, the checkpoint's share, actual and clock time, new place. */
  datatype Pass = Pass(props: Props, frac: real, actual: real, clock: real, place: real)

  /**
   * A pass of the loop body (and the final evaluation): the proportions of the
   * current place, biased; the share of the chosen segment; the actual time
   * that makes that share take `split` seconds; the clock time that actual
   * time needs in the section; and the place of that clock time.
   */
  function Evaluate(d: Data, s: Section, hs: int, bias: real, key: SegKey, split: real, place: real)
    : Pass
    requires Valid(d) && PacingPositive(d, bias, key)
  {
    var bp := BiasProps(PropsOfPlace(d.tiers, place), bias, d.biasP2Sd, d.biasP3Sd);
    BiasedSharePositive(d, bias, key, place);
    PassFrom(d, s, hs, key, split, bp)
  }

  /** The rest of a pass once the biased proportions are known. */
  function PassFrom(d: Data, s: Section, hs: int, key: SegKey, split: real, bp: Props): Pass
    requires Grid(d.curveC, d.curveP) && SegFrac(bp, key, d.sub) > 0.0
  {
    var frac := SegFrac(bp, key, d.sub);
    var actual := split / frac;
    var clock := ClockOfActual(s, actual, hs, d.drOffset);
    Pass(bp, frac, actual, clock, PlaceOfClock(d.curveC, d.curveP, clock))
  }

  /**
   * A pass is consistent: the segment's share is positive, the actual time
   * spends exactly `split` seconds on the segment, the clock time converts
   * back to that actual time by the targets' formula, and the new place is the
   * curve's place for that clock time.
   */
  predicate PassSound(p: Pass, d: Data, s: Section, hs: int, key: SegKey, split: real)
    requires Grid(d.curveC, d.curveP)
  {
    && p.frac == SegFrac(p.props, key, d.sub) && p.frac > 0.0
    && p.actual * p.frac == split
    && ActualOfClock(s, p.clock, hs, d.drOffset) == p.actual
    && p.place == PlaceOfClock(d.curveC, d.curveP, p.clock)
  }

  lemma PassFromSound(d: Data, s: Section, hs: int, key: SegKey, split: real, bp: Props)
    requires Grid(d.curveC, d.curveP) && SegFrac(bp, key, d.sub) > 0.0
    ensures PassFrom(d, s, hs, key, split, bp).props == bp
    ensures PassSound(PassFrom(d, s, hs, key, split, bp), d, s, hs, key, split)
  {
    var frac := SegFrac(bp, key, d.sub);
    DivideBack(split, frac);
    ClockActualInverse(s, split / frac, hs, d.drOffset);
  }

  /** Every pass is consistent, and uses the biased proportions of the place it starts from. */
  lemma EvaluateSound(d: Data, s: Section, hs: int, bias: real, key: SegKey, split: real, place: real)
    requires Valid(d) && PacingPositive(d, bias, key)
    ensures Evaluate(d, s, hs, bias, key, split, place).props
         == BiasProps(PropsOfPlace(d.tiers, place), bias, d.biasP2Sd, d.biasP3Sd)
    ensures PassSound(Evaluate(d, s, hs, bias, key, split, place), d, s, hs, key, split)
  {
    var bp := BiasProps(PropsOfPlace(d.tiers, place), bias, d.biasP2Sd, d.biasP3Sd);
    BiasedSharePositive(d, bias, key, place);
    var p := PassFrom(d, s, hs, key, split, bp);
    PassFromSound(d, s, hs, key, split, bp);
    assert Evaluate(d, s, hs, bias, key, split, place) == p;
  }

  /** The place the solver starts from, and the number of passes it makes. */
  const SEED_PLACE := 500.0
  const PASSES: nat := 3

  /** A step function applied n times to a seed. */
  function Iterate(step: real -> real, seed: real, n: nat): real {
    if n == 0 then seed else step(Iterate(step, seed, n - 1))
  }

  /** Once an application leaves the value unchanged, every later one does too. */
  lemma {:induction false} IterateFixedPoint(step: real -> real, seed: real, n: nat, m: nat)
    requires n <= m && Iterate(step, seed, n + 1) == Iterate(step, seed, n)
    ensures Iterate(step, seed, m) == Iterate(step, seed, n)
    decreases m - n
  {
    if m > n {
      IterateFixedPoint(step, seed, n, m - 1);
    }
  }

  /** One pass of the solver as a function of the place it starts from. */
  function NextPlace(d: Data, s: Section, hs: int, bias: real, key: SegKey, split: real): real -> real
    requires Valid(d) && PacingPositive(d, bias, key)
  {
    x => Evaluate(d, s, hs, bias, key, split, x).place
  }

  /** The place after n passes from the seed. */
  function PlaceAfter(d: Data, s: Section, hs: int, bias: real, key: SegKey, split: real, n: nat): real
    requires Valid(d) && PacingPositive(d, bias, key)
  {
    Iterate(NextPlace(d, s, hs, bias, key, split), SEED_PLACE, n)
  }

  /** After at least one pass the place is inside the curve's range of places. */
  lemma PlaceAfterInRange(d: Data, s: Section, hs: int, bias: real, key: SegKey, split: real, n: nat)
    requires Valid(d) && PacingPositive(d, bias, key) && n >= 1
    requires NonDecreasing(d.curveP) && Integral(d.curveP[0]) && Integral(d.curveP[|d.curveP| - 1])
    ensures d.curveP[0] <= PlaceAfter(d, s, hs, bias, key, split, n) <= d.curveP[|d.curveP| - 1]
  {
    var prev := PlaceAfter(d, s, hs, bias, key, split, n - 1);
    EvaluateSound(d, s, hs, bias, key, split, prev);
    PlaceAfterStep(d, s, hs, bias, key, split, n - 1);
    PlaceOfClockRange(d.curveC, d.curveP, Evaluate(d, s, hs, bias, key, split, prev).clock);
  }

  /** The place after n + 1 passes is one pass from the place after n. */
  lemma PlaceAfterStep(d: Data, s: Section, hs: int, bias: real, key: SegKey, split: real, n: nat)
    requires Valid(d) && PacingPositive(d, bias, key)
    ensures PlaceAfter(d, s, hs, bias, key, split, n + 1)
         == Evaluate(d, s, hs, bias, key, split, PlaceAfter(d, s, hs, bias, key, split, n)).place
  {
  }

  /** Once a pass leaves the place unchanged, every later pass does too. */
  lemma FixedPointStays(d: Data, s: Section, hs: int, bias: real, key: SegKey, split: real, n: nat, m: nat)
    requires Valid(d) && PacingPositive(d, bias, key) && n <= m
    requires PlaceAfter(d, s, hs, bias, key, split, n + 1) == PlaceAfter(d, s, hs, bias, key, split, n)
    ensures PlaceAfter(d, s, hs, bias, key, split, m) == PlaceAfter(d, s, hs, bias, key, split, n)
  {
    IterateFixedPoint(NextPlace(d, s, hs, bias, key, split), SEED_PLACE, n, m);
  }

  // ------------------------------------------------------------ prediction

  /** `parseInt(...) || 0`: an empty or unreadable field counts as zero. */
  function FieldOrZero(v: Option<int>): (n: int)
    ensures v.None? ==> n == 0
    ensures v.Some? ==> n == v.value
  {
    if v.Some? then v.value else 0
  }

  /** The split in seconds from its hours, minutes and seconds fields. */
  function SplitSeconds(h: Option<int>, m: Option<int>, s: Option<int>): int {
    FieldOrZero(h) * 3600 + FieldOrZero(m) * 60 + FieldOrZero(s)
  }

  /** The figures the tab shows: place, actual and clock time, the eight splits, the badge. */
  datatype Prediction = Prediction(
    place: real, actual: real, clock: real, elapsed: seq<real>, badge: Badge)

  /** What the tab shows for the final evaluation at a place. */
  function PredictionAt(d: Data, s: Section, hs: int, bias: real, key: SegKey, split: real, place: real)
    : Prediction
    requires Valid(d) && PacingPositive(d, bias, key)
  {
    var p := Evaluate(d, s, hs, bias, key, split, place);
    Prediction(p.place, p.actual, p.clock, Elapsed(p.actual, d.cumFns, p.props), GetBadge(s, p.place))
  }

  /** The prediction for a positive split: the final evaluation at the place after three passes. */
  function PredictionOf(d: Data, s: Section, hs: int, bias: real, key: SegKey, split: real): Prediction
    requires Valid(d) && PacingPositive(d, bias, key)
  {
    PredictionAt(d, s, hs, bias, key, split, PlaceAfter(d, s, hs, bias, key, split, PASSES))
  }

  /**
   * A prediction is consistent with the pacing bp: its actual time spends
   * exactly the split on the chosen segment, its clock time is that actual time
   * in the section, its place is the curve's for that clock, its splits are the
   * actual time scaled by the checkpoints' shares, and its badge is its place's.
   */
  predicate PredictionConsistent(r: Prediction, bp: Props, d: Data, s: Section, hs: int, key: SegKey, split: real)
    requires Grid(d.curveC, d.curveP)
  {
    && r.actual * SegFrac(bp, key, d.sub) == split
    && ActualOfClock(s, r.clock, hs, d.drOffset) == r.actual
    && r.place == PlaceOfClock(d.curveC, d.curveP, r.clock)
    && r.elapsed == Elapsed(r.actual, d.cumFns, bp)
    && r.badge == GetBadge(s, r.place)
  }

  lemma PredictionFromPass(p: Pass, d: Data, s: Section, hs: int, key: SegKey, split: real)
    requires Grid(d.curveC, d.curveP) && PassSound(p, d, s, hs, key, split)
    ensures PredictionConsistent(
      Prediction(p.place, p.actual, p.clock, Elapsed(p.actual, d.cumFns, p.props), GetBadge(s, p.place)),
      p.props, d, s, hs, key, split)
  {
  }

  /** The final evaluation is consistent with the biased pacing of the place it starts from. */
  lemma PredictionSound(d: Data, s: Section, hs: int, bias: real, key: SegKey, split: real, place: real)
    requires Valid(d) && PacingPositive(d, bias, key)
    ensures PredictionConsistent(PredictionAt(d, s, hs, bias, key, split, place),
      BiasProps(PropsOfPlace(d.tiers, place), bias, d.biasP2Sd, d.biasP3Sd), d, s, hs, key, split)
  {
    var p := Evaluate(d, s, hs, bias, key, split, place);
    EvaluateSound(d, s, hs, bias, key, split, place);
    PredictionFromPass(p, d, s, hs, key, split);
    assert PredictionAt(d, s, hs, bias, key, split, place)
        == Prediction(p.place, p.actual, p.clock, Elapsed(p.actual, d.cumFns, p.props), GetBadge(s, p.place));
  }

  /** The final place is one more pass: the fourth from the seed. */
  lemma PredictionIsFourthPass(d: Data, s: Section, hs: int, bias: real, key: SegKey, split: real)
    requires Valid(d) && PacingPositive(d, bias, key)
    ensures PredictionOf(d, s, hs, bias, key, split).place == PlaceAfter(d, s, hs, bias, key, split, PASSES + 1)
  {
    PlaceAfterStep(d, s, hs, bias, key, split, PASSES);
  }

  /** With a sorted, whole-numbered curve of places the predicted place stays in its range. */
  lemma PredictionInRange(d: Data, s: Section, hs: int, bias: real, key: SegKey, split: real)
    requires Valid(d) && PacingPositive(d, bias, key)
    requires NonDecreasing(d.curveP) && Integral(d.curveP[0]) && Integral(d.curveP[|d.curveP| - 1])
    ensures d.curveP[0] <= PredictionOf(d, s, hs, bias, key, split).place <= d.curveP[|d.curveP| - 1]
  {
    var place := PlaceAfter(d, s, hs, bias, key, split, PASSES);
    PredictionSound(d, s, hs, bias, key, split, place);
    PlaceOfClockRange(d.curveC, d.curveP, PredictionAt(d, s, hs, bias, key, split, place).clock);
  }

  /**
   * `computePredict`: nothing without a head start or a positive split;
   * otherwise three passes from place 500, then the final evaluation.
   */
  method ComputePredict(
    d: Data, sex: string, age: Option<int>, sectionValue: string, bias: real,
    checkpoint: string, h: Option<int>, m: Option<int>, s: Option<int>)
    returns (r: Option<Prediction>)
    requires Handicap(GetHsGrp(sex, age, d)).Some? && SplitSeconds(h, m, s) > 0 ==>
      Valid(d) && PacingPositive(d, bias, SegKeyOf(checkpoint))
    ensures r.None? <==> Handicap(GetHsGrp(sex, age, d)).None? || SplitSeconds(h, m, s) <= 0
    ensures r.Some? ==> r.value == PredictionOf(d, SectionOf(sectionValue),
      Handicap(GetHsGrp(sex, age, d)).value, bias, SegKeyOf(checkpoint), SplitSeconds(h, m, s) as real)
  {
    var info := GetHsGrp(sex, age, d);
    if info.None? || info.value.hs.None? {
      return None;
    }
    var splitSecs := FieldOrZero(h) * 3600 + FieldOrZero(m) * 60 + FieldOrZero(s);
    if splitSecs <= 0 {
      return None;
    }
    var hs := info.value.hs.value;
    assert Handicap(GetHsGrp(sex, age, d)) == Some(hs);
    assert SplitSeconds(h, m, s) == splitSecs;
    var section := SectionOf(sectionValue);
    var key := SegKeyOf(checkpoint);
    var split := splitSecs as real;

    var place := Converge(d, section, hs, bias, key, split);
    var prediction := FinalEvaluation(d, section, hs, bias, key, split, place);
    assert prediction == PredictionOf(d, section, hs, bias, key, split);
    return Some(prediction);
  }

  /** The loop of `computePredict`: three passes from place 500. */
  method Converge(d: Data, s: Section, hs: int, bias: real, key: SegKey, split: real)
    returns (place: real)
    requires Valid(d) && PacingPositive(d, bias, key)
    ensures place == PlaceAfter(d, s, hs, bias, key, split, PASSES)
  {
    place := SEED_PLACE;
    for iter := 0 to PASSES
      invariant place == PlaceAfter(d, s, hs, bias, key, split, iter)
    {
      var p := Step(d, s, hs, bias, key, split, place);
      PlaceAfterStep(d, s, hs, bias, key, split, iter);
      place := p.place;
    }
  }

  /** The evaluation after the loop, and the figures computed from it. */
  method FinalEvaluation(d: Data, s: Section, hs: int, bias: real, key: SegKey, split: real, place: real)
    returns (r: Prediction)
    requires Valid(d) && PacingPositive(d, bias, key)
    ensures r == PredictionAt(d, s, hs, bias, key, split, place)
  {
    var fin := Step(d, s, hs, bias, key, split, place);
    var elapsed := Elapsed(fin.actual, d.cumFns, fin.props);
    var badge := GetBadge(s, fin.place);
    return Prediction(fin.place, fin.actual, fin.clock, elapsed, badge);
  }

  /** One pass as the source's loop body computes it. */
  method Step(d: Data, s: Section, hs: int, bias: real, key: SegKey, split: real, place: real)
    returns (p: Pass)
    requires Valid(d) && PacingPositive(d, bias, key)
    ensures p == Evaluate(d, s, hs, bias, key, split, place)
  {
    var pr := GetPropsForPlace(d.tiers, place);
    var bp := BiasProps(pr, bias, d.biasP2Sd, d.biasP3Sd);
    var frac := SegFrac(bp, key, d.sub);
    BiasedSharePositive(d, bias, key, place);
    var actualEst := split / frac;
    var clockEst := if s == Inv then actualEst - (hs * 60) as real
                    else actualEst - (hs * 60) as real + d.drOffset;
    var newPlace := ClockToPlace(d.curveC, d.curveP, clockEst);
    return Pass(bp, frac, actualEst, clockEst, newPlace);
  }
}
