/**
 * Time and delta formatting (js/app.js lines 6-29 and 173-178): seconds as
 * `H:MM:SS` / `M:SS`, signed deltas as `+M:SS` / `-M:SS`, and start times as
 * `8:MM`. Each serialiser is paired with a reader that recovers the number.
 */
module Format {
  import opened Numeric

  // ---------------------------------------------------------------- digits

  predicate IsDigit(c: char) {
    '0' <= c <= '9'
  }

  predicate AllDigits(s: string) {
    forall i :: 0 <= i < |s| ==> IsDigit(s[i])
  }

  function DigitChar(d: nat): (c: char)
    requires d < 10
    ensures IsDigit(c) && DigitValue(c) == d
  {
    ('0' as int + d) as char
  }

  /** The value of one decimal digit; other characters count as 0. */
  function DigitValue(c: char): (d: nat)
    ensures d < 10
  {
    if IsDigit(c) then c as int - '0' as int else 0
  }

  /** The number a run of decimal digits denotes (the decimal reader). */
  function DigitsValue(s: string): nat {
    if s == [] then 0 else DigitsValue(s[..|s| - 1]) * 10 + DigitValue(s[|s| - 1])
  }

  /** The value of a two-character field such as the `SS` of `M:SS`. */
  function PairValue(s: string): nat
    requires |s| == 2
  {
    DigitValue(s[0]) * 10 + DigitValue(s[1])
  }

  /** `String(n)` for a non-negative integer: its decimal digits, read back by DigitsValue. */
  function NatToString(n: nat): (s: string)
    ensures |s| >= 1 && AllDigits(s)
    ensures DigitsValue(s) == n
    ensures |s| == 1 <==> n < 10
    ensures n < 100 ==> |s| <= 2
    ensures s[0] == '0' <==> n == 0
  {
    if n < 10 then [DigitChar(n)]
    else
      var prefix := NatToString(n / 10);
      var s := prefix + [DigitChar(n % 10)];
      assert s[..|s| - 1] == prefix;
      s
  }

  /** `String(i)` for any integer. */
  function IntToString(i: int): (s: string)
    ensures i >= 0 ==> s == NatToString(i)
    ensures i < 0 ==> s == "-" + NatToString(-i)
  {
    if i < 0 then "-" + NatToString(-i) else NatToString(i)
  }

  /** `s.padStart(2, "0")`. */
  function PadStart2(s: string): (r: string)
    ensures |s| >= 2 ==> r == s
    ensures |s| == 1 ==> r == ['0'] + s
    ensures |s| == 0 ==> r == "00"
  {
    if |s| == 0 then "00" else if |s| == 1 then "0" + s else s
  }

  /** The one or two digits of a number below 100. */
  lemma SmallNatToString(n: nat)
    requires n < 100
    ensures NatToString(n) == if n < 10 then [DigitChar(n)] else [DigitChar(n / 10), DigitChar(n % 10)]
  {
    if n >= 10 {
      assert NatToString(n / 10) == [DigitChar(n / 10)];
    }
  }

  /** A number below 100, zero-padded to two digits. */
  lemma PadTwoDigits(n: nat)
    requires n < 100
    ensures |PadStart2(NatToString(n))| == 2
    ensures AllDigits(PadStart2(NatToString(n)))
    ensures PairValue(PadStart2(NatToString(n))) == n
  {
    SmallNatToString(n);
    var r := PadStart2(NatToString(n));
    if n < 10 {
      assert r == ['0', DigitChar(n)];
      assert DigitValue('0') == 0;
    } else {
      assert r == [DigitChar(n / 10), DigitChar(n % 10)];
    }
  }

  // -------------------------------------------------------------- readers

  predicate IsNumeral(s: string) {
    |s| >= 1 && AllDigits(s)
  }

  /** A two-digit field with a value below 60 (minutes or seconds after a colon). */
  predicate IsSixtieth(s: string) {
    |s| == 2 && IsDigit(s[0]) && IsDigit(s[1]) && PairValue(s) < 60
  }

  /**
   * Reads `M:SS` back into seconds, taking the fields by their position from
   * the right: any number of minutes, then a colon and two seconds digits below 60.
   */
  function ParseMinSec(t: string): Option<nat> {
    if |t| >= 4 && t[|t| - 3] == ':' && IsNumeral(t[..|t| - 3]) && IsSixtieth(t[|t| - 2..])
    then Some(DigitsValue(t[..|t| - 3]) * 60 + PairValue(t[|t| - 2..]))
    else None
  }

  /** Whether a clock display carries an hour field, `H:MM:SS`. */
  predicate HasHourField(t: string) {
    |t| >= 7 && t[|t| - 6] == ':' && t[|t| - 3] == ':'
  }

  /**
   * Reads a clock display back into seconds: `H:MM:SS` with at least one hour,
   * or `M:SS` with fewer than 60 minutes. Anything else, `---` included, is None.
   */
  function ParseClock(t: string): Option<nat> {
    if HasHourField(t) then HoursClock(t[..|t| - 6], t[|t| - 5..|t| - 3], t[|t| - 2..])
    else if |t| >= 4 && t[|t| - 3] == ':' then MinutesClock(t[..|t| - 3], t[|t| - 2..])
    else None
  }

  function MinutesClock(m: string, s: string): Option<nat> {
    if IsNumeral(m) && DigitsValue(m) < 60 && IsSixtieth(s)
    then Some(DigitsValue(m) * 60 + PairValue(s))
    else None
  }

  function HoursClock(h: string, m: string, s: string): Option<nat> {
    if IsNumeral(h) && DigitsValue(h) >= 1 && IsSixtieth(m) && IsSixtieth(s)
    then Some(DigitsValue(h) * 3600 + PairValue(m) * 60 + PairValue(s))
    else None
  }

  /** Where the fields of `a:b` sit, for a two-character b. */
  lemma JoinTwo(a: string, b: string)
    requires |b| == 2
    ensures var t := a + ":" + b;
      && |t| == |a| + 3 && t[|t| - 3] == ':'
      && t[..|t| - 3] == a && t[|t| - 2..] == b
  {
    var t := a + ":" + b;
    assert t[..|t| - 3] == a;
    assert t[|t| - 2..] == b;
  }

  /** Where the fields of `a:b:c` sit, for two-character b and c. */
  lemma JoinThree(a: string, b: string, c: string)
    requires |b| == 2 && |c| == 2
    ensures var t := a + ":" + b + ":" + c;
      && |t| == |a| + 6 && t[|t| - 6] == ':' && t[|t| - 3] == ':'
      && t[..|t| - 6] == a && t[|t| - 5..|t| - 3] == b && t[|t| - 2..] == c
  {
    var t := a + ":" + b + ":" + c;
    assert t[..|t| - 6] == a;
    assert t[|t| - 5..|t| - 3] == b;
    assert t[|t| - 2..] == c;
  }

  // ------------------------------------------------------------ serialisers

  const PLACEHOLDER := "---"

  /** `fmt`: seconds as `H:MM:SS` (an hour or more) or `M:SS`, or `---` when not positive. */
  function Fmt(secs: real): string {
    if secs <= 0.0 then PLACEHOLDER else ClockText(Round(secs))
  }

  /** The `H:MM:SS` / `M:SS` text `fmt` writes for a whole, non-negative number of seconds. */
  function ClockText(s: nat): string {
    var h := s / 3600;
    var m := (s % 3600) / 60;
    var sec := s % 60;
    if h > 0 then NatToString(h) + ":" + PadStart2(NatToString(m)) + ":" + PadStart2(NatToString(sec))
    else NatToString(m) + ":" + PadStart2(NatToString(sec))
  }

  /** The sign `fmtDelta` writes: `-` below -2 s, `+` above 2 s, nothing in between. */
  function DeltaSign(secs: real): string {
    if secs < -2.0 then "-" else if secs > 2.0 then "+" else ""
  }

  /** `fmtDelta`: a signed `M:SS` of the rounded magnitude, with a 2-second sign deadband. */
  function FmtDelta(secs: real): string {
    DeltaSign(secs) + MinSecText(Abs(Round(secs)))
  }

  /** The unsigned `M:SS` text of `fmtDelta`, minutes unbounded. */
  function MinSecText(abs: nat): string {
    var m := abs / 60;
    var s := abs % 60;
    NatToString(m) + ":" + PadStart2(NatToString(s))
  }

  /** The start time's base minute after 8:00 for each section. */
  function StartBase(inv: bool): int {
    if inv then 25 else 52
  }

  /** `startTime`: `8:` followed by the start minute, zero-padded to two characters. */
  function StartTime(hs: int, inv: bool): string {
    "8:" + PadStart2(IntToString(StartBase(inv) - hs))
  }

  /**
   * The start time reads back as 8 o'clock plus the section's base minute less
   * the handicap: two digits while that minute is in 0..99, a minus sign and
   * the digits of its magnitude when the handicap exceeds the base.
   */
  lemma StartTimeReadsBack(hs: int, inv: bool)
    ensures StartTime(hs, inv)[..2] == "8:"
    ensures 0 <= StartBase(inv) - hs < 100 ==>
      var r := StartTime(hs, inv);
      |r| == 4 && AllDigits(r[2..]) && PairValue(r[2..]) == StartBase(inv) - hs
    ensures StartBase(inv) - hs < 0 ==>
      var r := StartTime(hs, inv);
      r[2] == '-' && AllDigits(r[3..]) && DigitsValue(r[3..]) == hs - StartBase(inv)
  {
    var minute := StartBase(inv) - hs;
    var p := PadStart2(IntToString(minute));
    MinuteField(minute, p);
    if minute < 0 {
      assert AllDigits(NatToString(-minute)) && DigitsValue(NatToString(-minute)) == -minute;
    }
  }

  /** The minute field of a start time, for the three ranges of the minute. */
  lemma MinuteField(minute: int, p: string)
    requires p == PadStart2(IntToString(minute))
    ensures var r := "8:" + p;
      && r[..2] == "8:" && r[2..] == p
      && (0 <= minute < 100 ==> |p| == 2 && AllDigits(p) && PairValue(p) == minute)
      && (minute < 0 ==> r[2] == '-' && r[3..] == NatToString(-minute))
  {
    var r := "8:" + p;
    assert r[2..] == p;
    if 0 <= minute < 100 {
      PadTwoDigits(minute);
    } else if minute < 0 {
      NegativeMinute(minute);
      assert r[3..] == p[1..];
    }
  }

  lemma NegativeMinute(minute: int)
    requires minute < 0
    ensures PadStart2(IntToString(minute)) == "-" + NatToString(-minute)
  {
  }

  // ------------------------------------------------------------- round trips

  /** Hours, minutes and seconds as `fmt` computes them recombine to the total. */
  lemma ClockFields(s: nat)
    ensures (s % 3600) / 60 < 60 && s % 60 < 60
    ensures s / 3600 * 3600 + (s % 3600) / 60 * 60 + s % 60 == s
    ensures s / 3600 == 0 ==> (s % 3600) / 60 * 60 + s % 60 == s
    ensures s / 3600 > 0 <==> s >= 3600
  {
  }

  /** A number below 60 written with `padStart(2, "0")` is a two-digit field. */
  lemma Sixtieth(n: nat)
    requires n < 60
    ensures IsSixtieth(PadStart2(NatToString(n))) && PairValue(PadStart2(NatToString(n))) == n
  {
    PadTwoDigits(n);
  }

  lemma ClockTextHours(s: nat)
    requires s >= 3600
    ensures HasHourField(ClockText(s)) && ParseClock(ClockText(s)) == Some(s)
  {
    var h, m, sec := s / 3600, (s % 3600) / 60, s % 60;
    ClockFields(s);
    Sixtieth(m);
    Sixtieth(sec);
    ReadHours(NatToString(h), PadStart2(NatToString(m)), PadStart2(NatToString(sec)), s);
  }

  lemma ClockTextMinutes(s: nat)
    requires s < 3600
    ensures !HasHourField(ClockText(s)) && ParseClock(ClockText(s)) == Some(s)
  {
    var m, sec := (s % 3600) / 60, s % 60;
    ClockFields(s);
    Sixtieth(sec);
    ReadMinutes(NatToString(m), PadStart2(NatToString(sec)), s);
  }

  /** Three fields joined as `H:MM:SS` read back as their value in seconds. */
  lemma ReadHours(hs: string, ms: string, ss: string, v: nat)
    requires IsNumeral(hs) && DigitsValue(hs) >= 1 && IsSixtieth(ms) && IsSixtieth(ss)
    requires v == DigitsValue(hs) * 3600 + PairValue(ms) * 60 + PairValue(ss)
    ensures HasHourField(hs + ":" + ms + ":" + ss)
    ensures ParseClock(hs + ":" + ms + ":" + ss) == Some(v)
  {
    JoinThree(hs, ms, ss);
  }

  /** Two fields joined as `M:SS`, with fewer than 60 minutes, read back as their value. */
  lemma ReadMinutes(ms: string, ss: string, v: nat)
    requires IsNumeral(ms) && |ms| <= 2 && DigitsValue(ms) < 60 && IsSixtieth(ss)
    requires v == DigitsValue(ms) * 60 + PairValue(ss)
    ensures !HasHourField(ms + ":" + ss)
    ensures ParseClock(ms + ":" + ss) == Some(v)
    ensures ParseMinSec(ms + ":" + ss) == Some(v)
  {
    JoinTwo(ms, ss);
  }

  /** ClockText is read back by ParseClock; it has an hour field exactly from 3600 s. */
  lemma ClockTextRoundTrip(s: nat)
    ensures ParseClock(ClockText(s)) == Some(s)
    ensures HasHourField(ClockText(s)) <==> s >= 3600
  {
    if s >= 3600 {
      ClockTextHours(s);
    } else {
      ClockTextMinutes(s);
    }
  }

  /**
   * `fmt` writes `---` for non-positive input and is otherwise read back by
   * ParseClock as the rounded number of seconds, so hours, minutes below 60 and
   * seconds below 60 recombine to it; the hour field appears exactly from 3600 s.
   */
  lemma FmtRoundTrip(secs: real)
    ensures secs <= 0.0 ==> Fmt(secs) == PLACEHOLDER && ParseClock(Fmt(secs)) == None
    ensures secs > 0.0 ==> Round(secs) >= 0 && ParseClock(Fmt(secs)) == Some(Round(secs))
    ensures HasHourField(Fmt(secs)) <==> secs > 0.0 && Round(secs) >= 3600
  {
    if secs > 0.0 {
      ClockTextRoundTrip(Round(secs));
    }
  }

  /** MinSecText is read back by ParseMinSec and starts with a digit. */
  lemma MinSecRoundTrip(abs: nat)
    ensures |MinSecText(abs)| >= 4 && IsDigit(MinSecText(abs)[0])
    ensures ParseMinSec(MinSecText(abs)) == Some(abs)
  {
    var m, s := abs / 60, abs % 60;
    Sixtieth(s);
    ReadMinSec(NatToString(m), PadStart2(NatToString(s)), abs);
  }

  /** Any numeral of minutes and a two-digit seconds field read back as `M:SS`. */
  lemma ReadMinSec(ms: string, ss: string, v: nat)
    requires IsNumeral(ms) && IsSixtieth(ss)
    requires v == DigitsValue(ms) * 60 + PairValue(ss)
    ensures |ms + ":" + ss| >= 4 && IsDigit((ms + ":" + ss)[0])
    ensures ParseMinSec(ms + ":" + ss) == Some(v)
  {
    JoinTwo(ms, ss);
  }

  /** Strips the one sign character a delta may start with. */
  function DropSign(t: string): string {
    if |t| > 0 && (t[0] == '-' || t[0] == '+') then t[1..] else t
  }

  /**
   * `fmtDelta` writes `-` exactly below -2 s, `+` exactly above 2 s, and after
   * the sign the magnitude of the rounded value as `M:SS`.
   */
  lemma FmtDeltaRoundTrip(secs: real)
    ensures |FmtDelta(secs)| >= 4
    ensures FmtDelta(secs)[0] == '-' <==> secs < -2.0
    ensures FmtDelta(secs)[0] == '+' <==> secs > 2.0
    ensures ParseMinSec(DropSign(FmtDelta(secs))) == Some(Abs(Round(secs)))
  {
    var abs := Abs(Round(secs));
    MinSecRoundTrip(abs);
    var body := MinSecText(abs);
    var sign := DeltaSign(secs);
    assert FmtDelta(secs) == sign + body;
    if sign == "" {
      assert DropSign(sign + body) == body;
    } else {
      assert (sign + body)[1..] == body;
    }
  }

  // ------------------------------------------------------------ delta cells

  /** The class and text `deltaHtml` puts into a delta cell. */
  datatype DeltaCell = DeltaCell(cls: string, text: string)

  const MDASH := "&mdash;"

  /**
   * `deltaHtml` as written: under 3 s the cell is neutral; otherwise it writes
   * `"+"` for non-negative deltas and then `fmtDelta`, which writes its own sign.
   */
  function DeltaHtml(d: real): DeltaCell {
    if AbsReal(d) < 3.0 then DeltaCell("neutral", MDASH)
    else
      var cls := if d < 0.0 then "faster" else "slower";
      var prefix := if d < 0.0 then "" else "+";
      DeltaCell(cls, prefix + FmtDelta(d))
  }

  /** Every slower delta of 3 s or more is written with a doubled plus, `++M:SS`. */
  lemma DeltaHtmlDoublePlus(d: real)
    requires d >= 3.0
    ensures DeltaHtml(d).cls == "slower"
    ensures DeltaHtml(d).text[..2] == "++"
    ensures ParseMinSec(DeltaHtml(d).text[2..]) == Some(Abs(Round(d)))
  {
    var abs := Abs(Round(d));
    MinSecRoundTrip(abs);
    var body := MinSecText(abs);
    assert FmtDelta(d) == "+" + body;
    assert DeltaHtml(d).text == "+" + ("+" + body);
    DoublePrefix(body);
  }

  lemma DoublePrefix(body: string)
    ensures ("+" + ("+" + body))[..2] == "++"
    ensures ("+" + ("+" + body))[2..] == body
  {
  }

  /** Example of the doubled plus: a 65-second delta reads `++1:05`. */
  lemma DeltaHtmlDoublePlusExample()
    ensures DeltaHtml(65.0).text == "++1:05"
  {
    assert Round(65.0) == 65;
    assert Abs(65) == 65;
    assert NatToString(1) == "1";
    assert PadStart2(NatToString(5)) == "05";
    assert 65 / 60 == 1 && 65 % 60 == 5;
    assert MinSecText(65) == "1" + ":" + "05";
    assert DeltaSign(65.0) == "+";
    assert FmtDelta(65.0) == "+" + "1:05";
    assert DeltaHtml(65.0).text == "+" + "+1:05";
  }

  /** The delta cell with a single sign, as the surrounding code evidently intends. */
  function DeltaHtmlIntended(d: real): DeltaCell {
    if AbsReal(d) < 3.0 then DeltaCell("neutral", MDASH)
    else DeltaCell(if d < 0.0 then "faster" else "slower", FmtDelta(d))
  }

  /**
   * The intended cell: neutral exactly under 3 s; otherwise one sign character,
   * `-` for faster and `+` for slower, followed by the rounded magnitude.
   */
  lemma DeltaHtmlIntendedSigned(d: real)
    ensures DeltaHtmlIntended(d).cls == "neutral" <==> AbsReal(d) < 3.0
    ensures AbsReal(d) >= 3.0 ==>
      && DeltaHtmlIntended(d).text[0] == (if d < 0.0 then '-' else '+')
      && ParseMinSec(DeltaHtmlIntended(d).text[1..]) == Some(Abs(Round(d)))
  {
    FmtDeltaRoundTrip(d);
  }

  /** Away from the deadband the two cells differ only by the extra leading `+`. */
  lemma DeltaHtmlDiffers(d: real)
    ensures DeltaHtml(d).cls == DeltaHtmlIntended(d).cls
    ensures d >= 3.0 ==> DeltaHtml(d).text == "+" + DeltaHtmlIntended(d).text
    ensures d < 3.0 ==> DeltaHtml(d).text == DeltaHtmlIntended(d).text
  {
  }
}
