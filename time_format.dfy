/**
 * `formatTime`: clamps a second count to a non-negative whole number, splits
 * it into hours, minutes and seconds, and renders the Korean label
 * `H시간 MM분 SS초` (hours unpadded, minutes and seconds padded to two digits).
 */
module TimeFormat {
  import opened Wrappers
  import opened JsMath

  /** The decomposition of a duration together with its display label. */
  datatype Duration = Duration(h: nat, m: nat, s: nat, text: string)

  const SecondsPerHour: nat := 3600
  const SecondsPerMinute: nat := 60

  /** The unit words of the label, each with the separator that follows it. */
  const HourUnit: string := "시간 "
  const MinuteUnit: string := "분 "
  const SecondUnit: string := "초"

  /**
   * `Math.max(0, Math.round(totalSeconds || 0))`. `None` stands for an
   * argument that `|| 0` replaces (undefined, null, NaN); a zero argument is
   * replaced by 0 as well, which rounds to the same 0.
   */
  function Normalize(t: Option<real>): (n: nat)
    ensures n == 0 <==> (t.None? || t.value < 0.5)
    ensures t.Some? && t.value >= 0.5 ==> n as real - 0.5 <= t.value < n as real + 0.5
  {
    match t
    case None => 0
    case Some(x) => Max(0, Round(x))
  }

  /** `formatTime(totalSeconds)`: the hours, minutes and seconds of the normalised count, and the label. */
  function FormatTime(t: Option<real>): (d: Duration)
    ensures d.h * SecondsPerHour + d.m * SecondsPerMinute + d.s == Normalize(t)
    ensures d.m < SecondsPerMinute && d.s < SecondsPerMinute
    ensures d.text == Label(d.h, d.m, d.s)
  {
    var total := Normalize(t);
    var h := total / SecondsPerHour;
    var m := (total % SecondsPerHour) / SecondsPerMinute;
    var s := total % SecondsPerMinute;
    SplitSeconds(total);
    Duration(h, m, s, Label(h, m, s))
  }

  /** The arithmetic behind FormatTime: the remainder of an hour splits into whole minutes and the remaining seconds. */
  lemma SplitSeconds(t: nat)
    ensures (t / SecondsPerHour) * SecondsPerHour + ((t % SecondsPerHour) / SecondsPerMinute) * SecondsPerMinute + t % SecondsPerMinute == t
    ensures (t % SecondsPerHour) / SecondsPerMinute < SecondsPerMinute
  {
    var h, r := t / SecondsPerHour, t % SecondsPerHour;
    var m, s := r / SecondsPerMinute, r % SecondsPerMinute;
    assert t == SecondsPerHour * h + r && 0 <= r < SecondsPerHour;
    assert r == SecondsPerMinute * m + s && 0 <= s < SecondsPerMinute;
    MinuteRemainder(t, SecondsPerMinute * h + m, s);
  }

  /** Euclidean division by a minute is determined by quotient and remainder. */
  lemma MinuteRemainder(t: int, q: int, s: int)
    requires t == SecondsPerMinute * q + s && 0 <= s < SecondsPerMinute
    ensures t % SecondsPerMinute == s
  {
    var q', s' := t / SecondsPerMinute, t % SecondsPerMinute;
    assert t == SecondsPerMinute * q' + s' && 0 <= s' < SecondsPerMinute;
    assert SecondsPerMinute * (q - q') == s' - s;
  }

  /**
   * Any hours/minutes/seconds triple with minutes and seconds below 60 is the
   * one FormatTime produces for its total: the decomposition is unique.
   */
  lemma {:induction false} FormatTimeInverts(h: nat, m: nat, s: nat)
    requires m < SecondsPerMinute && s < SecondsPerMinute
    ensures var d := FormatTime(Some((h * SecondsPerHour + m * SecondsPerMinute + s) as real));
            d.h == h && d.m == m && d.s == s
  {
    var t := h * SecondsPerHour + m * SecondsPerMinute + s;
    var d := FormatTime(Some(t as real));
    assert Round(t as real) == t by {
      RoundUnique(t as real, t);
    }
    assert Normalize(Some(t as real)) == t;
    DecompositionUnique(h, m, s, d.h, d.m, d.s);
  }

  /** Two triples with minutes and seconds below 60 and the same total are the same triple. */
  lemma DecompositionUnique(h: nat, m: nat, s: nat, h': nat, m': nat, s': nat)
    requires m < SecondsPerMinute && s < SecondsPerMinute && m' < SecondsPerMinute && s' < SecondsPerMinute
    requires h * SecondsPerHour + m * SecondsPerMinute + s == h' * SecondsPerHour + m' * SecondsPerMinute + s'
    ensures h == h' && m == m' && s == s'
  {
    assert 0 <= m * SecondsPerMinute + s < SecondsPerHour;
    assert 0 <= m' * SecondsPerMinute + s' < SecondsPerHour;
  }

  // ---------------------------------------------------------------------
  // Decimal rendering: `String(n)` and `padStart(2, "0")`
  // ---------------------------------------------------------------------

  predicate IsDigit(c: char) {
    '0' <= c <= '9'
  }

  predicate AllDigits(s: string) {
    forall i :: 0 <= i < |s| ==> IsDigit(s[i])
  }

  function DigitChar(d: nat): (c: char)
    requires d < 10
    ensures IsDigit(c) && c as int - '0' as int == d
  {
    ('0' as int + d) as char
  }

  /** The number a string of decimal digits denotes (leading zeros allowed). */
  function DigitsValue(s: string): nat
    requires AllDigits(s)
  {
    if s == [] then 0 else DigitsValue(s[..|s| - 1]) * 10 + (s[|s| - 1] as int - '0' as int)
  }

  /**
   * `String(n)` for a whole number: its decimal digits, without leading zeros
   * (the only string starting with '0' is "0" itself).
   */
  function DecimalString(n: nat): (r: string)
    ensures |r| >= 1 && AllDigits(r)
    ensures r[0] == '0' ==> r == "0"
    ensures DigitsValue(r) == n
  {
    if n < 10 then [DigitChar(n)]
    else
      var prefix := DecimalString(n / 10);
      var r := prefix + [DigitChar(n % 10)];
      assert r[..|r| - 1] == prefix;
      r
  }

  /** `s.padStart(width, fill)` for a one-character fill: pad on the left up to `width` characters. */
  function PadStart(s: string, width: nat, fill: char): (r: string)
    ensures |r| == if |s| >= width then |s| else width
    ensures r[|r| - |s|..] == s
    ensures forall i :: 0 <= i < |r| - |s| ==> r[i] == fill
  {
    if |s| >= width then s else seq(width - |s|, _ => fill) + s
  }

  /** The label's `pad(x)`: `String(x).padStart(2, "0")`. */
  function Pad2(n: nat): string {
    PadStart(DecimalString(n), 2, '0')
  }

  /** A number below 100 pads to exactly two digits that denote it. */
  lemma Pad2Digits(n: nat)
    requires n < 100
    ensures |Pad2(n)| == 2 && AllDigits(Pad2(n)) && DigitsValue(Pad2(n)) == n
  {
    var p := Pad2(n);
    if n < 10 {
      assert DecimalString(n) == [DigitChar(n)];
      assert p == ['0', DigitChar(n)];
      assert p[..1] == ['0'];
    } else {
      var hi := DecimalString(n / 10);
      assert hi == [DigitChar(n / 10)];
      assert p == [DigitChar(n / 10), DigitChar(n % 10)];
      assert p[..1] == hi;
    }
  }

  /** The label of `formatTime`: `${h}시간 ${pad(m)}분 ${pad(s)}초`. */
  function Label(h: nat, m: nat, s: nat): string {
    DecimalString(h) + LabelTail(m, s)
  }

  /** The part of the label after the hours: `시간 ${pad(m)}분 ${pad(s)}초`. */
  function LabelTail(m: nat, s: nat): string {
    HourUnit + (Pad2(m) + (MinuteUnit + (Pad2(s) + SecondUnit)))
  }

  // ---------------------------------------------------------------------
  // Reading a label back
  // ---------------------------------------------------------------------

  /** The length of the longest prefix of `s` made of digits. */
  function DigitSpan(s: string): (k: nat)
    ensures k <= |s|
    ensures AllDigits(s[..k])
    ensures k < |s| ==> !IsDigit(s[k])
  {
    if s == [] || !IsDigit(s[0]) then 0
    else
      var k := 1 + DigitSpan(s[1..]);
      assert s[..k] == [s[0]] + s[1..][..k - 1];
      k
  }

  /**
   * Reads a label of the shape FormatTime renders: at least one digit for the
   * hours, then exactly two digits each for minutes and seconds, with the unit
   * words in between. Anything else is `None`.
   */
  function ParseLabel(l: string): Option<(nat, nat, nat)> {
    var k := DigitSpan(l);
    if k == 0 then None
    else
      match ParseTail(l[k..])
      case None => None
      case Some((m, s)) => Some((DigitsValue(l[..k]), m, s))
  }

  /** Reads the part of a label after the hours, `시간 MM분 SS초`, left to right. */
  function ParseTail(rest: string): Option<(nat, nat)> {
    if |rest| < 3 || rest[..3] != HourUnit then None
    else
      var afterHours := rest[3..];
      if |afterHours| < 2 || !AllDigits(afterHours[..2]) then None
      else
        var afterM := afterHours[2..];
        if |afterM| < 2 || afterM[..2] != MinuteUnit then None
        else
          var afterMinutes := afterM[2..];
          if |afterMinutes| < 2 || !AllDigits(afterMinutes[..2]) || afterMinutes[2..] != SecondUnit then None
          else Some((DigitsValue(afterHours[..2]), DigitsValue(afterMinutes[..2])))
  }

  /** The digit span of digits followed by a non-digit is the digits. */
  lemma {:induction false} DigitSpanOfDigits(a: string, b: string)
    requires AllDigits(a)
    requires b != [] && !IsDigit(b[0])
    ensures DigitSpan(a + b) == |a|
  {
    if a != [] {
      assert (a + b)[1..] == a[1..] + b;
      DigitSpanOfDigits(a[1..], b);
    } else {
      assert a + b == b;
    }
  }

  /** Every label reads back as the hours, minutes and seconds it was rendered from. */
  lemma {:induction false} LabelRoundTrip(h: nat, m: nat, s: nat)
    requires m < 100 && s < 100
    ensures ParseLabel(Label(h, m, s)) == Some((h, m, s))
  {
    var hs, rest := DecimalString(h), LabelTail(m, s);
    TailRoundTrip(m, s);
    DigitSpanOfDigits(hs, rest);
    assert (hs + rest)[..|hs|] == hs;
    assert (hs + rest)[|hs|..] == rest;
  }

  /** The part of a label after the hours reads back as its minutes and seconds. */
  lemma TailRoundTrip(m: nat, s: nat)
    requires m < 100 && s < 100
    ensures ParseTail(LabelTail(m, s)) == Some((m, s))
    ensures LabelTail(m, s) != [] && !IsDigit(LabelTail(m, s)[0])
  {
    Pad2Digits(m);
    Pad2Digits(s);
    TailParses(Pad2(m), Pad2(s));
  }

  /** Two-digit fields between the unit words are read back as they are. */
  lemma TailParses(pm: string, ps: string)
    requires |pm| == 2 && |ps| == 2 && AllDigits(pm) && AllDigits(ps)
    ensures var rest := HourUnit + (pm + (MinuteUnit + (ps + SecondUnit)));
      ParseTail(rest) == Some((DigitsValue(pm), DigitsValue(ps))) && !IsDigit(rest[0])
  {
    var secondsPart := ps + SecondUnit;
    var minutesPart := MinuteUnit + secondsPart;
    var afterHours := pm + minutesPart;
    var rest := HourUnit + afterHours;
    assert rest[..3] == HourUnit && rest[3..] == afterHours;
    assert afterHours[..2] == pm && afterHours[2..] == minutesPart;
    assert minutesPart[..2] == MinuteUnit && minutesPart[2..] == secondsPart;
    assert secondsPart[..2] == ps && secondsPart[2..] == SecondUnit;
  }

  /** Two second counts with the same label normalise to the same count: the label loses nothing. */
  lemma LabelDeterminesSeconds(t1: Option<real>, t2: Option<real>)
    requires FormatTime(t1).text == FormatTime(t2).text
    ensures Normalize(t1) == Normalize(t2)
  {
    var d1, d2 := FormatTime(t1), FormatTime(t2);
    assert d1.m < 100 && d1.s < 100 && d2.m < 100 && d2.s < 100;
    LabelRoundTrip(d1.h, d1.m, d1.s);
    LabelRoundTrip(d2.h, d2.m, d2.s);
    assert d1.h == d2.h && d1.m == d2.m && d1.s == d2.s;
  }
}
