/** Exact-arithmetic stand-ins for the JavaScript number operations the calculator uses. */
module Numeric {

  datatype Option<T> = None | Some(value: T)

  /** `Math.round` on an exact real: the nearest integer, with halves going towards +infinity. */
  function Round(x: real): (r: int)
    ensures r as real - 0.5 <= x < r as real + 0.5
  {
    (x + 0.5).Floor
  }

  /** `Math.round` kept as a number, as the source passes its result on as a number. */
  function RoundReal(x: real): (r: real)
    ensures r == r.Floor as real
    ensures r - 0.5 <= x < r + 0.5
  {
    Round(x) as real
  }

  function Abs(i: int): (r: nat)
    ensures r == i || r == -i
  {
    if i < 0 then -i else i
  }

  function AbsReal(x: real): (r: real)
    ensures r >= 0.0 && (r == x || r == -x)
  {
    if x < 0.0 then -x else x
  }

  /** Whether a number has no fractional part. */
  predicate Integral(x: real) {
    x == x.Floor as real
  }

  /** Rounding a value that lies between two whole numbers stays between them. */
  lemma RoundWithin(x: real, lo: real, hi: real)
    requires Integral(lo) && Integral(hi) && lo <= x <= hi
    ensures lo <= RoundReal(x) <= hi
  {
    var r, l, h := Round(x), lo.Floor, hi.Floor;
    assert r as real > l as real - 1.0;
    assert r as real < h as real + 1.0;
    assert l <= r <= h;
  }

  /** Linear interpolation from a (at f = 0) to b (at f = 1). */
  function Lerp(a: real, b: real, f: real): real {
    a + f * (b - a)
  }

  /** Shifting both ends by c shifts every interpolated value by c. */
  lemma LerpShift(a: real, b: real, f: real, c: real)
    ensures Lerp(a + c, b + c, f) == Lerp(a, b, f) + c
  {
    assert (b + c) - (a + c) == b - a;
  }

  /** Scaling both ends by r scales every interpolated value by r. */
  lemma LerpScale(a: real, b: real, f: real, r: real)
    ensures Lerp(a, b, f) * r == Lerp(a * r, b * r, f)
  {
    assert (b - a) * r == b * r - a * r;
    assert (f * (b - a)) * r == f * ((b - a) * r);
  }

  lemma ScaledBelow(f: real, d: real)
    requires 0.0 <= f <= 1.0 && d >= 0.0
    ensures 0.0 <= f * d <= d
  {
  }

  /** For f in [0, 1] the interpolated value lies between the two ends. */
  lemma LerpBetween(a: real, b: real, f: real)
    requires 0.0 <= f <= 1.0
    ensures a <= b ==> a <= Lerp(a, b, f) <= b
    ensures b <= a ==> b <= Lerp(a, b, f) <= a
  {
    var d := b - a;
    var p := f * d;
    assert Lerp(a, b, f) == a + p;
    if d >= 0.0 {
      ScaledBelow(f, d);
    } else {
      ScaledBelow(f, -d);
      assert f * -d == -p;
    }
  }

  /** Sum of a sequence, adding from the left. */
  function Sum(s: seq<real>): real {
    if s == [] then 0.0 else Sum(s[..|s| - 1]) + s[|s| - 1]
  }
}
