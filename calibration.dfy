/**
 * The calibration the calculator reads from data.js (the `D` tables and the
 * `cumFn` of each checkpoint), and the handicap lookup `getHsGrp`
 * (js/app.js lines 31-38) with the form fields passed in as parameters.
 */
module Calibration {
  import opened Numeric
  import opened Pacing
  import opened Interpolation

  /**
   * The `D` object and `CHECKPOINTS`: head starts and groups by age for men
   * and women, the clock-to-place curve, the place-to-proportions tiers, the
   * sub-segment ratios, the bias deviations, the DR offset, the clock time and
   * proportions of each target key, and the cumulative share of each of the
   * checkpoints (eight on the course) as a function of the leg proportions.
   */
  datatype Data = Data(
    hsM: map<int, int>,
    hsF: map<int, int>,
    grpM: map<int, string>,
    grpF: map<int, string>,
    curveC: seq<real>,
    curveP: seq<real>,
    tiers: seq<Tier>,
    sub: SubRatios,
    biasP2Sd: real,
    biasP3Sd: real,
    drOffset: real,
    clocks: map<string, real>,
    props: map<string, Props>,
    cumFns: seq<Props -> real>)

  /** What the two search loops rely on: a sorted, non-empty curve and list of tiers. */
  predicate Valid(d: Data) {
    && Grid(d.curveC, d.curveP)
    && ValidTiers(d.tiers)
  }

  // ------------------------------------------------------------- getHsGrp

  /** The youngest and oldest ages the form accepts. */
  const MIN_AGE := 6
  const MAX_AGE := 100

  /** The head start (minutes) and group letter of one age; either may be absent from the tables. */
  datatype HsGrp = HsGrp(hs: Option<int>, grp: Option<string>)

  /** A JavaScript object lookup: undefined (None) for a key the table lacks. */
  function Lookup<V>(m: map<int, V>, k: int): (r: Option<V>)
    ensures r.Some? <==> k in m
    ensures r.Some? ==> r.value == m[k]
  {
    if k in m then Some(m[k]) else None
  }

  /** The sex field selects the men's tables only for exactly "M"; anything else reads the women's. */
  function HsTable(sex: string, d: Data): map<int, int> {
    if sex == "M" then d.hsM else d.hsF
  }

  function GrpTable(sex: string, d: Data): map<int, string> {
    if sex == "M" then d.grpM else d.grpF
  }

  /**
   * `getHsGrp`: nothing for a missing (NaN) age or one outside 6..100,
   * otherwise the age's entries in the tables of the selected sex.
   */
  function GetHsGrp(sex: string, age: Option<int>, d: Data): (r: Option<HsGrp>)
    ensures r.None? <==> age.None? || age.value < MIN_AGE || age.value > MAX_AGE
    ensures r.Some? ==> (r.value.hs.Some? <==> age.value in HsTable(sex, d))
    ensures r.Some? ==> (r.value.grp.Some? <==> age.value in GrpTable(sex, d))
    ensures r.Some? && r.value.hs.Some? ==> r.value.hs.value == HsTable(sex, d)[age.value]
    ensures r.Some? && r.value.grp.Some? ==> r.value.grp.value == GrpTable(sex, d)[age.value]
  {
    if age.None? || age.value < MIN_AGE || age.value > MAX_AGE then None
    else Some(HsGrp(Lookup(HsTable(sex, d), age.value), Lookup(GrpTable(sex, d), age.value)))
  }

  /** The `!info || info.hs == null` guard both tabs apply: the head start, when there is one. */
  function Handicap(info: Option<HsGrp>): (hs: Option<int>)
    ensures hs.Some? <==> info.Some? && info.value.hs.Some?
  {
    if info.Some? then info.value.hs else None
  }

  /**
   * A head start is available exactly for an age in range that the selected
   * sex's table lists, and it is that table's entry.
   */
  lemma HandicapLookup(sex: string, age: Option<int>, d: Data)
    ensures Handicap(GetHsGrp(sex, age, d)).Some?
        <==> age.Some? && MIN_AGE <= age.value <= MAX_AGE && age.value in HsTable(sex, d)
    ensures Handicap(GetHsGrp(sex, age, d)).Some?
        ==> Handicap(GetHsGrp(sex, age, d)).value == HsTable(sex, d)[age.value]
  {
  }

  /** Any sex value other than "M" (a lower-case "m" included) is looked up as a woman. */
  lemma NonMaleReadsWomen(sex: string, age: int, d: Data)
    requires sex != "M" && MIN_AGE <= age <= MAX_AGE
    ensures GetHsGrp(sex, Some(age), d) == Some(HsGrp(Lookup(d.hsF, age), Lookup(d.grpF, age)))
  {
  }
}
