/**
 * The Split Targets tab (js/app.js lines 161-171 and 194-249): for each target
 * place of the chosen section, the runner's actual time from the target's
 * clock time and head start, then the elapsed time at every checkpoint, the
 * segment times between checkpoints, and how much the bias moves each segment.
 */
module Targets {
  import opened Numeric
  import opened Pacing
  import opened Interpolation
  import opened Calibration

  /** The two race sections; the section menu reads as the Invitational only for exactly "INV". */
  datatype Section = Inv | Dr

  function SectionOf(value: string): (s: Section)
    ensures s == Inv <==> value == "INV"
  {
    if value == "INV" then Inv else Dr
  }

  /** A target card: the key of its row in `D.clocks`/`D.props`, its heading, its style. */
  datatype Target = Target(key: string, heading: string, cls: string)

  const INV_TARGETS: seq<Target> := [
    Target("1", "1st Place (Winner)", "winner"),
    Target("35", "35th Place (Black Shirt)", "blackshirt"),
    Target("100", "100th Place", ""),
    Target("450", "450th Place (INV Qualifying)", "qualify")
  ]

  const DR_TARGETS: seq<Target> := [
    Target("dr_winner", "DR Section Winner (Place ~540)", "winner"),
    Target("750", "750th Place (Qualifying)", "qualify")
  ]

  function TargetsOf(s: Section): seq<Target> {
    if s == Inv then INV_TARGETS else DR_TARGETS
  }

  /** The calibration has a clock time and proportions for every target key. */
  predicate HasTargets(d: Data) {
    forall t :: t in INV_TARGETS + DR_TARGETS ==> t.key in d.clocks && t.key in d.props
  }

  // ------------------------------------------------------ clock and actual

  /**
   * Actual running time from clock time: the head start (minutes) is added
   * back, and a Dipsea Runner also starts `dr_offset` seconds after the gun.
   */
  function ActualOfClock(s: Section, clock: real, hs: int, drOffset: real): real {
    if s == Inv then clock + (hs * 60) as real else clock + (hs * 60) as real - drOffset
  }

  /** The clock time `computePredict` derives from an actual time. */
  function ClockOfActual(s: Section, actual: real, hs: int, drOffset: real): real {
    if s == Inv then actual - (hs * 60) as real else actual - (hs * 60) as real + drOffset
  }

  /** The two conversions undo each other, in both orders. */
  lemma ClockActualInverse(s: Section, t: real, hs: int, drOffset: real)
    ensures ClockOfActual(s, ActualOfClock(s, t, hs, drOffset), hs, drOffset) == t
    ensures ActualOfClock(s, ClockOfActual(s, t, hs, drOffset), hs, drOffset) == t
  {
  }

  /** Each minute of head start is sixty seconds more actual time for the same clock time. */
  lemma ActualOfHeadStart(s: Section, clock: real, hs: int, drOffset: real)
    ensures ActualOfClock(s, clock, hs + 1, drOffset) == ActualOfClock(s, clock, hs, drOffset) + 60.0
    ensures ActualOfClock(Inv, clock, hs, drOffset) - ActualOfClock(Dr, clock, hs, drOffset) == drOffset
  {
  }

  // ------------------------------------------------- elapsed, segs, deltas

  /** `CHECKPOINTS.map(cp => actual * cp.cumFn(props))`. */
  function Elapsed(actual: real, cumFns: seq<Props -> real>, p: Props): (e: seq<real>)
    ensures |e| == |cumFns|
  {
    seq(|cumFns|, i requires 0 <= i < |cumFns| => actual * cumFns[i](p))
  }

  /** Segment times: the first elapsed time, then the difference of neighbouring elapsed times. */
  function Segments(e: seq<real>): (segs: seq<real>)
    ensures |segs| == |e|
  {
    seq(|e|, i requires 0 <= i < |e| => if i == 0 then e[0] else e[i] - e[i - 1])
  }

  /** What the bias changes in each segment: biased segment time minus neutral segment time. */
  function Deltas(biased: seq<real>, neutral: seq<real>): (ds: seq<real>)
    requires |biased| == |neutral|
    ensures |ds| == |biased|
  {
    seq(|biased|, i requires 0 <= i < |biased| => biased[i] - neutral[i])
  }

  /** The segments add back up to the elapsed times: every prefix sums to its last elapsed time. */
  lemma {:induction false} SegmentsPrefixSums(e: seq<real>, k: nat)
    requires k < |e|
    ensures Sum(Segments(e)[..k + 1]) == e[k]
  {
    var segs := Segments(e);
    assert segs[..k + 1][..k] == segs[..k];
    if k == 0 {
      assert segs[..1][..0] == [];
    } else {
      SegmentsPrefixSums(e, k - 1);
    }
  }

  /** Telescoping: the first segment is the first elapsed time, and all segments add up to the last. */
  lemma SegmentsTelescope(e: seq<real>)
    requires |e| >= 1
    ensures Segments(e)[0] == e[0]
    ensures Sum(Segments(e)) == e[|e| - 1]
  {
    SegmentsPrefixSums(e, |e| - 1);
    assert Segments(e)[..|e|] == Segments(e);
  }

  /** Sorted elapsed times starting at or after the gun give no negative segment. */
  lemma SegmentsNonNegative(e: seq<real>)
    requires |e| >= 1 && e[0] >= 0.0 && NonDecreasing(e)
    ensures forall i :: 0 <= i < |e| ==> Segments(e)[i] >= 0.0
  {
  }

  /** The deltas add up to the difference of the two totals. */
  lemma {:induction false} DeltasSum(biased: seq<real>, neutral: seq<real>)
    requires |biased| == |neutral|
    ensures Sum(Deltas(biased, neutral)) == Sum(biased) - Sum(neutral)
  {
    if |biased| > 0 {
      var n := |biased|;
      assert Deltas(biased, neutral)[..n - 1] == Deltas(biased[..n - 1], neutral[..n - 1]);
      DeltasSum(biased[..n - 1], neutral[..n - 1]);
    }
  }

  /** The deltas of two rows of elapsed times add up to the difference of their last entries. */
  lemma DeltasTelescope(biased: seq<real>, neutral: seq<real>)
    requires |biased| == |neutral| >= 1
    ensures Sum(Deltas(Segments(biased), Segments(neutral)))
         == biased[|biased| - 1] - neutral[|neutral| - 1]
  {
    DeltasSum(Segments(biased), Segments(neutral));
    SegmentsTelescope(biased);
    SegmentsTelescope(neutral);
  }

  // ----------------------------------------------------------------- cards

  /**
   * One target card: not achievable, or the actual time, the biased elapsed
   * times, the unbiased ones they are compared with, the biased segment
   * times and the deltas.
   */
  datatype Card =
    | Unachievable(target: Target)
    | Splits(target: Target, actual: real, elapsed: seq<real>, neutral: seq<real>,
             segs: seq<real>, deltas: seq<real>)

  /** The tab's content: the no-results notice when there is no head start, else the cards. */
  datatype TargetsView = NoResults | Cards(cards: seq<Card>)

  /**
   * The card `computeTargets` builds for one target: not achievable when the
   * actual time is not positive; otherwise the elapsed times under the biased
   * and the unbiased proportions, and the segments and deltas derived from them.
   */
  function TargetCard(t: Target, s: Section, hs: int, bias: real, d: Data): (c: Card)
    requires t.key in d.clocks && t.key in d.props
    ensures c.target == t
    ensures c.Unachievable? <==> ActualOfClock(s, d.clocks[t.key], hs, d.drOffset) <= 0.0
    ensures c.Splits? ==> c.actual == ActualOfClock(s, d.clocks[t.key], hs, d.drOffset)
    ensures c.Splits? ==>
      && c.elapsed == Elapsed(c.actual, d.cumFns, BiasProps(d.props[t.key], bias, d.biasP2Sd, d.biasP3Sd))
      && c.neutral == Elapsed(c.actual, d.cumFns, d.props[t.key])
    ensures c.Splits? ==>
      && c.segs == Segments(c.elapsed)
      && c.deltas == Deltas(c.segs, Segments(c.neutral))
      && |c.segs| == |c.deltas| == |d.cumFns|
  {
    var actual := ActualOfClock(s, d.clocks[t.key], hs, d.drOffset);
    if actual <= 0.0 then Unachievable(t)
    else
      var base := d.props[t.key];
      var bp := BiasProps(base, bias, d.biasP2Sd, d.biasP3Sd);
      SplitsCard(t, actual, Elapsed(actual, d.cumFns, bp), Elapsed(actual, d.cumFns, base))
  }

  /** An achievable card from its two rows of elapsed times. */
  function SplitsCard(t: Target, actual: real, biased: seq<real>, neutral: seq<real>): Card
    requires |biased| == |neutral|
  {
    var segs := Segments(biased);
    Splits(t, actual, biased, neutral, segs, Deltas(segs, Segments(neutral)))
  }

  /** On a card, the first segment is the first split and the segments add up to the finish split. */
  lemma CardTelescopes(t: Target, s: Section, hs: int, bias: real, d: Data)
    requires t.key in d.clocks && t.key in d.props && |d.cumFns| >= 1
    requires TargetCard(t, s, hs, bias, d).Splits?
    ensures var c := TargetCard(t, s, hs, bias, d);
      c.segs[0] == c.elapsed[0] && Sum(c.segs) == c.elapsed[|c.elapsed| - 1]
  {
    var c := TargetCard(t, s, hs, bias, d);
    assert c == SplitsCard(t, c.actual, c.elapsed, c.neutral);
    SegmentsTelescope(c.elapsed);
  }

  /** On a card the deltas add up to what the bias does to the finish split. */
  lemma CardDeltasSum(t: Target, s: Section, hs: int, bias: real, d: Data)
    requires t.key in d.clocks && t.key in d.props && |d.cumFns| >= 1
    requires TargetCard(t, s, hs, bias, d).Splits?
    ensures var c := TargetCard(t, s, hs, bias, d);
      Sum(c.deltas) == c.elapsed[|c.elapsed| - 1] - c.neutral[|c.neutral| - 1]
  {
    var c := TargetCard(t, s, hs, bias, d);
    assert c == SplitsCard(t, c.actual, c.elapsed, c.neutral);
    DeltasTelescope(c.elapsed, c.neutral);
  }

  /** With the bias at zero the biased and neutral splits agree and every delta is exactly zero. */
  lemma CardNoBiasNoDeltas(t: Target, s: Section, hs: int, d: Data)
    requires t.key in d.clocks && t.key in d.props
    requires TargetCard(t, s, hs, 0.0, d).Splits?
    ensures var c := TargetCard(t, s, hs, 0.0, d);
      forall i :: 0 <= i < |c.deltas| ==> c.deltas[i] == 0.0
  {
    BiasZero(d.props[t.key], d.biasP2Sd, d.biasP3Sd);
  }

  /**
   * `computeTargets`: nothing but the no-results notice without a head start;
   * otherwise one card per target of the section, in order, the loop going on
   * to the next target after an unachievable one.
   */
  method ComputeTargets(d: Data, sex: string, age: Option<int>, sectionValue: string, bias: real)
    returns (view: TargetsView)
    requires HasTargets(d)
    ensures view.NoResults? <==> Handicap(GetHsGrp(sex, age, d)).None?
    ensures view.Cards? ==> |view.cards| == |TargetsOf(SectionOf(sectionValue))|
    ensures view.Cards? ==> forall i :: 0 <= i < |view.cards| ==>
      view.cards[i] == TargetCard(TargetsOf(SectionOf(sectionValue))[i], SectionOf(sectionValue),
                                  Handicap(GetHsGrp(sex, age, d)).value, bias, d)
  {
    var info := GetHsGrp(sex, age, d);
    if info.None? || info.value.hs.None? {
      return NoResults;
    }
    var hs := info.value.hs.value;
    var section := SectionOf(sectionValue);
    var targets := if sectionValue == "INV" then INV_TARGETS else DR_TARGETS;
    var cards: seq<Card> := [];
    for i := 0 to |targets|
      invariant |cards| == i
      invariant forall j :: 0 <= j < i ==> cards[j] == TargetCard(targets[j], section, hs, bias, d)
    {
      var t := targets[i];
      assert t in INV_TARGETS + DR_TARGETS;
      var clock := d.clocks[t.key];
      var baseProps := d.props[t.key];
      var actual := ActualOfClock(section, clock, hs, d.drOffset);
      if actual <= 0.0 {
        cards := cards + [Unachievable(t)];
        continue;
      }
      var bp := BiasProps(baseProps, bias, d.biasP2Sd, d.biasP3Sd);
      var elapsedB := Elapsed(actual, d.cumFns, bp);
      var elapsedN := Elapsed(actual, d.cumFns, baseProps);
      var segsB := Segments(elapsedB);
      var segsN := Segments(elapsedN);
      cards := cards + [Splits(t, actual, elapsedB, elapsedN, segsB, Deltas(segsB, segsN))];
    }
    return Cards(cards);
  }
}
