/**
 * The pacing model (js/app.js lines 66-73 and 107-124): a finish time is cut
 * into four legs whose shares of the total are the proportions p1..p4; the
 * bias slider moves time between the second and third legs, and the legs are
 * cut further into the course's named sub-segments by fixed ratios.
 */
module Pacing {
  import opened Numeric

  /**
   * Shares of the total time of the four legs: start to Muir Woods (p1), Muir
   * Woods to Cardiac (p2), Cardiac to the Stile (p3), the Stile to the finish (p4).
   */
  datatype Props = Props(p1: real, p2: real, p3: real, p4: real)

  function Total(p: Props): real {
    p.p1 + p.p2 + p.p3 + p.p4
  }

  /** Every leg takes a positive share. */
  predicate PositiveLegs(p: Props) {
    p.p1 > 0.0 && p.p2 > 0.0 && p.p3 > 0.0 && p.p4 > 0.0
  }

  /** Componentwise `a + f * (b - a)`, the interpolation getPropsForPlace performs. */
  function LerpProps(a: Props, b: Props, f: real): Props {
    Props(Lerp(a.p1, b.p1, f), Lerp(a.p2, b.p2, f), Lerp(a.p3, b.p3, f), Lerp(a.p4, b.p4, f))
  }

  // ------------------------------------------------------------------ bias

  /**
   * `biasProps`: the bias, in units of the calibration's standard deviations
   * p2Sd and p3Sd, lengthens the second leg and shortens the third.
   */
  function BiasProps(base: Props, bias: real, p2Sd: real, p3Sd: real): (r: Props)
    ensures r.p1 == base.p1 && r.p4 == base.p4
    ensures r.p2 - base.p2 == bias * p2Sd && base.p3 - r.p3 == bias * p3Sd
  {
    Props(base.p1, base.p2 + bias * p2Sd, base.p3 - bias * p3Sd, base.p4)
  }

  /** A bias of zero leaves the proportions as they are. */
  lemma BiasZero(base: Props, p2Sd: real, p3Sd: real)
    ensures BiasProps(base, 0.0, p2Sd, p3Sd) == base
  {
  }

  /** The opposite bias undoes a bias. */
  lemma BiasInverse(base: Props, bias: real, p2Sd: real, p3Sd: real)
    ensures BiasProps(BiasProps(base, bias, p2Sd, p3Sd), -bias, p2Sd, p3Sd) == base
  {
  }

  /** Two biases applied in turn are their sum applied once. */
  lemma BiasCompose(base: Props, a: real, b: real, p2Sd: real, p3Sd: real)
    ensures BiasProps(BiasProps(base, a, p2Sd, p3Sd), b, p2Sd, p3Sd) == BiasProps(base, a + b, p2Sd, p3Sd)
  {
  }

  /** The bias keeps the total share exactly when the two deviations are equal. */
  lemma BiasTotal(base: Props, bias: real, p2Sd: real, p3Sd: real)
    ensures Total(BiasProps(base, bias, p2Sd, p3Sd)) == Total(base) + bias * (p2Sd - p3Sd)
  {
    assert bias * (p2Sd - p3Sd) == bias * p2Sd - bias * p3Sd;
  }

  /** Biasing an interpolated row is interpolating the biased rows. */
  lemma BiasLerp(a: Props, b: Props, f: real, bias: real, p2Sd: real, p3Sd: real)
    ensures BiasProps(LerpProps(a, b, f), bias, p2Sd, p3Sd)
         == LerpProps(BiasProps(a, bias, p2Sd, p3Sd), BiasProps(b, bias, p2Sd, p3Sd), f)
  {
    var up, down := bias * p2Sd, -(bias * p3Sd);
    LerpShift(a.p2, b.p2, f, up);
    LerpShift(a.p3, b.p3, f, down);
    assert BiasProps(a, bias, p2Sd, p3Sd) == Props(a.p1, a.p2 + up, a.p3 + down, a.p4);
    assert BiasProps(b, bias, p2Sd, p3Sd) == Props(b.p1, b.p2 + up, b.p3 + down, b.p4);
  }

  /** Interpolating between two rows with positive legs keeps the legs positive. */
  lemma LerpPositive(a: Props, b: Props, f: real)
    requires PositiveLegs(a) && PositiveLegs(b) && 0.0 <= f <= 1.0
    ensures PositiveLegs(LerpProps(a, b, f))
  {
    LerpBetween(a.p1, b.p1, f);
    LerpBetween(a.p2, b.p2, f);
    LerpBetween(a.p3, b.p3, f);
    LerpBetween(a.p4, b.p4, f);
  }

  // -------------------------------------------------------------- segments

  /** The `D.sub` ratios that place the intermediate checkpoints inside their legs. */
  datatype SubRatios = SubRatios(
    windyGapInP1: real,
    dynamiteInP2: real,
    bottomCardiacInP2: real,
    steepRavineInP3: real)

  /** Ratios that cut every leg into non-empty pieces, in course order. */
  predicate ValidSub(s: SubRatios) {
    && 0.0 < s.windyGapInP1 < 1.0
    && 0.0 < s.dynamiteInP2 < s.bottomCardiacInP2 < 1.0
    && 0.0 < s.steepRavineInP3 < 1.0
  }

  /**
   * The segment keys `segFrac` recognises, in course order: eight fine
   * segments between named checkpoints, then the four legs; Other stands for
   * any key it does not recognise.
   */
  datatype SegKey =
    | SWg | WgMw | MwDy | DyBc | BcCa | CaSr | SrSt | StFi
    | SegSM | SegMC | SegCS | SegSF
    | Other

  const SEGMENT_KEYS: seq<string> :=
    ["s_wg", "wg_mw", "mw_dy", "dy_bc", "bc_ca", "ca_sr", "sr_st", "st_fi",
     "seg_s_m", "seg_m_c", "seg_c_s", "seg_s_f"]

  /** The segment each of SEGMENT_KEYS names, in the same order. */
  const SEGMENTS: seq<SegKey> :=
    [SWg, WgMw, MwDy, DyBc, BcCa, CaSr, SrSt, StFi, SegSM, SegMC, SegCS, SegSF]

  /** The `switch (segKey)` dispatch on the checkpoint menu's value. */
  function SegKeyOf(name: string): (k: SegKey)
    ensures k == Other <==> name !in SEGMENT_KEYS
  {
    match name
    case "s_wg" => SWg
    case "wg_mw" => WgMw
    case "mw_dy" => MwDy
    case "dy_bc" => DyBc
    case "bc_ca" => BcCa
    case "ca_sr" => CaSr
    case "sr_st" => SrSt
    case "st_fi" => StFi
    case "seg_s_m" => SegSM
    case "seg_m_c" => SegMC
    case "seg_c_s" => SegCS
    case "seg_s_f" => SegSF
    case _ => Other
  }

  /**
   * `segFrac`: the share of the total time spent on the segment named by key.
   * A key it does not recognise falls back to the first leg.
   */
  function SegFrac(props: Props, key: SegKey, sub: SubRatios): real {
    match key
    case SWg => props.p1 * sub.windyGapInP1
    case WgMw => props.p1 * (1.0 - sub.windyGapInP1)
    case MwDy => props.p2 * sub.dynamiteInP2
    case DyBc => props.p2 * (sub.bottomCardiacInP2 - sub.dynamiteInP2)
    case BcCa => props.p2 * (1.0 - sub.bottomCardiacInP2)
    case CaSr => props.p3 * sub.steepRavineInP3
    case SrSt => props.p3 * (1.0 - sub.steepRavineInP3)
    case StFi => props.p4
    case SegSM => props.p1
    case SegMC => props.p2
    case SegCS => props.p3
    case SegSF => props.p4
    case Other => props.p1
  }

  /** Each of the twelve listed keys selects its own segment, the one in the same position of SEGMENTS. */
  lemma SegKeyOfListed()
    ensures |SEGMENT_KEYS| == |SEGMENTS| == 12
    ensures forall i :: 0 <= i < |SEGMENT_KEYS| ==> SegKeyOf(SEGMENT_KEYS[i]) == SEGMENTS[i]
  {
    forall i | 0 <= i < |SEGMENT_KEYS|
      ensures SegKeyOf(SEGMENT_KEYS[i]) == SEGMENTS[i]
    {
      if i < 4 {
        assert i == 0 || i == 1 || i == 2 || i == 3;
      } else if i < 8 {
        assert i == 4 || i == 5 || i == 6 || i == 7;
      } else {
        assert i == 8 || i == 9 || i == 10 || i == 11;
      }
    }
  }

  /** A segment's share is linear in the proportions: the share of interpolated legs is the interpolated share. */
  lemma SegFracLerp(a: Props, b: Props, f: real, key: SegKey, sub: SubRatios)
    ensures SegFrac(LerpProps(a, b, f), key, sub) == Lerp(SegFrac(a, key, sub), SegFrac(b, key, sub), f)
  {
    match key
    case SWg => LerpScale(a.p1, b.p1, f, sub.windyGapInP1);
    case WgMw => LerpScale(a.p1, b.p1, f, 1.0 - sub.windyGapInP1);
    case MwDy => LerpScale(a.p2, b.p2, f, sub.dynamiteInP2);
    case DyBc => LerpScale(a.p2, b.p2, f, sub.bottomCardiacInP2 - sub.dynamiteInP2);
    case BcCa => LerpScale(a.p2, b.p2, f, 1.0 - sub.bottomCardiacInP2);
    case CaSr => LerpScale(a.p3, b.p3, f, sub.steepRavineInP3);
    case SrSt => LerpScale(a.p3, b.p3, f, 1.0 - sub.steepRavineInP3);
    case _ =>
  }

  /** Between two rows that give a segment a positive share, every interpolated row does too. */
  lemma SegFracLerpPositive(a: Props, b: Props, f: real, key: SegKey, sub: SubRatios)
    requires SegFrac(a, key, sub) > 0.0 && SegFrac(b, key, sub) > 0.0 && 0.0 <= f <= 1.0
    ensures SegFrac(LerpProps(a, b, f), key, sub) > 0.0
  {
    SegFracLerp(a, b, f, key, sub);
    LerpBetween(SegFrac(a, key, sub), SegFrac(b, key, sub), f);
  }

  /** An unrecognised menu value is priced as the first leg. */
  lemma UnknownKeyIsFirstLeg(props: Props, name: string, sub: SubRatios)
    requires name !in SEGMENT_KEYS
    ensures SegFrac(props, SegKeyOf(name), sub) == props.p1
  {
  }

  /** The fine segments of each leg add up to that leg, whatever the ratios. */
  lemma SegmentsPartitionLegs(props: Props, sub: SubRatios)
    ensures SegFrac(props, SWg, sub) + SegFrac(props, WgMw, sub) == SegFrac(props, SegSM, sub) == props.p1
    ensures SegFrac(props, MwDy, sub) + SegFrac(props, DyBc, sub) + SegFrac(props, BcCa, sub)
         == SegFrac(props, SegMC, sub) == props.p2
    ensures SegFrac(props, CaSr, sub) + SegFrac(props, SrSt, sub) == SegFrac(props, SegCS, sub) == props.p3
    ensures SegFrac(props, StFi, sub) == SegFrac(props, SegSF, sub) == props.p4
  {
  }

  /** The eight fine segments together cover the whole race. */
  lemma FineSegmentsCoverRace(props: Props, sub: SubRatios)
    ensures SegFrac(props, SWg, sub) + SegFrac(props, WgMw, sub) + SegFrac(props, MwDy, sub)
          + SegFrac(props, DyBc, sub) + SegFrac(props, BcCa, sub) + SegFrac(props, CaSr, sub)
          + SegFrac(props, SrSt, sub) + SegFrac(props, StFi, sub) == Total(props)
  {
    SegmentsPartitionLegs(props, sub);
  }

  /** A share that is a positive leg times a positive ratio is positive. */
  lemma PositiveProduct(a: real, b: real, share: real)
    requires a > 0.0 && b > 0.0 && share == a * b
    ensures share > 0.0
  {
  }

  /** With valid ratios and positive legs every segment takes a positive share. */
  lemma SegFracPositive(props: Props, key: SegKey, sub: SubRatios)
    requires ValidSub(sub) && PositiveLegs(props)
    ensures SegFrac(props, key, sub) > 0.0
  {
    match key
    case SWg => PositiveProduct(props.p1, sub.windyGapInP1, SegFrac(props, SWg, sub));
    case WgMw => PositiveProduct(props.p1, 1.0 - sub.windyGapInP1, SegFrac(props, WgMw, sub));
    case MwDy => PositiveProduct(props.p2, sub.dynamiteInP2, SegFrac(props, MwDy, sub));
    case DyBc => PositiveProduct(props.p2, sub.bottomCardiacInP2 - sub.dynamiteInP2, SegFrac(props, DyBc, sub));
    case BcCa => PositiveProduct(props.p2, 1.0 - sub.bottomCardiacInP2, SegFrac(props, BcCa, sub));
    case CaSr => PositiveProduct(props.p3, sub.steepRavineInP3, SegFrac(props, CaSr, sub));
    case SrSt => PositiveProduct(props.p3, 1.0 - sub.steepRavineInP3, SegFrac(props, SrSt, sub));
    case _ =>
  }
}
