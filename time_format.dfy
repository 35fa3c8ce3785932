/** The `M:SS` rendering of a playback position, defined once: TagPanel.tsx uses it for the
    `time` field of a new tag and VideoPlayer.tsx for the position display, and the two
    source definitions are the same text. */
module TimeFormat {
  import opened Text
  import opened Numeric

  /** `Math.floor(time / 60)`. */
  function Minutes(t: real): int {
    (t / 60.0).Floor
  }

  /** `Math.floor(time % 60)`, with JavaScript's sign-of-dividend remainder. */
  function Seconds(t: real): int {
    JsRem(t, 60.0).Floor
  }

  /** `${minutes}:${seconds.toString().padStart(2, "0")}`. */
  function FormatTime(t: real): string {
    IntToString(Minutes(t)) + ":" + PadStart2(IntToString(Seconds(t)))
  }

  /** For a non-negative position the seconds field lies in 0..59, and minutes and seconds
      together give back the whole seconds of the position. */
  lemma FieldsOfNonNegative(t: real)
    requires 0.0 <= t
    ensures 0 <= Minutes(t) && 0 <= Seconds(t) < 60
    ensures Minutes(t) * 60 + Seconds(t) == t.Floor
  {
    var q := t / 60.0;
    var m := q.Floor;
    assert Trunc(q) == m;
    var rem := t - 60.0 * m as real;
    assert JsRem(t, 60.0) == rem;
    assert 0.0 <= rem < 60.0;
    var k := t.Floor - 60 * m;
    assert k as real <= rem < k as real + 1.0;
    assert rem.Floor == k;
  }

  /** A two-digit rendering of a number below 100. */
  lemma NatToStringBelowHundred(n: nat)
    requires n < 100
    ensures |NatToString(n)| <= 2
  {
  }

  /** The shape of the rendering of a non-negative position: decimal minutes, a colon,
      and exactly two digits of seconds whose value is below 60. */
  lemma {:induction false} FormatTimeShape(t: real)
    requires 0.0 <= t
    ensures var r := FormatTime(t);
            var k := IndexOf(r, ':');
            k + 3 == |r|
            && AllDigits(r[..k]) && k >= 1 && DigitsValue(r[..k]) == Minutes(t)
            && AllDigits(r[k + 1..]) && DigitsValue(r[k + 1..]) == Seconds(t)
            && Seconds(t) < 60
            && DigitsValue(r[..k]) * 60 + DigitsValue(r[k + 1..]) == t.Floor
  {
    FieldsOfNonNegative(t);
    var m: nat := Minutes(t);
    var s: nat := Seconds(t);
    var ms := NatToString(m);
    var ss := NatToString(s);
    NatToStringBelowHundred(s);
    var r := FormatTime(t);
    assert r == ms + ":" + PadStart2(ss);
    BeforeFirstOfAppend(ms, ':', PadStart2(ss));
    var k := IndexOf(r, ':');
    assert r[..k] == ms;
    assert r[k + 1..] == PadStart2(ss);
    DigitsValueOfNatToString(m);
    DigitsValueOfNatToString(s);
    if |ss| == 1 {
      DigitsValueLeadingZero(ss);
    }
  }

  /** A number below 100, padded to two digits, spells itself. */
  lemma TwoDigits(s: nat)
    requires s < 100
    ensures var ss := PadStart2(IntToString(s));
      |ss| == 2 && AllDigits(ss) && DigitsValue(ss) == s
  {
    NatToStringBelowHundred(s);
    DigitsValueOfNatToString(s);
    if |NatToString(s)| == 1 {
      DigitsValueLeadingZero(NatToString(s));
    }
  }

  /** A non-negative position renders as decimal minutes, a colon and two digits of
      seconds, and the two numbers spelled there give back its whole seconds. */
  lemma FormatTimeFields(t: real) returns (mm: string, ss: string)
    requires 0.0 <= t
    ensures FormatTime(t) == mm + ":" + ss
    ensures |mm| > 0 && AllDigits(mm) && |ss| == 2 && AllDigits(ss)
    ensures DigitsValue(ss) < 60
    ensures DigitsValue(mm) * 60 + DigitsValue(ss) == t.Floor
  {
    FieldsOfNonNegative(t);
    var m: nat := Minutes(t);
    var s: nat := Seconds(t);
    mm := IntToString(m);
    ss := PadStart2(IntToString(s));
    DigitsValueOfNatToString(m);
    TwoDigits(s);
  }

  /** Two examples from the documented behaviour: 65 s is "1:05" and 75 s is "1:15". */
  lemma FormatTimeExamples()
    ensures FormatTime(65.0) == "1:05"
    ensures FormatTime(75.0) == "1:15"
  {
    assert Minutes(65.0) == 1 && Seconds(65.0) == 5 by { FieldsOfNonNegative(65.0); }
    assert Minutes(75.0) == 1 && Seconds(75.0) == 15 by { FieldsOfNonNegative(75.0); }
    assert NatToString(15) == "15";
  }

  /** A negative position renders with a negative minute and a negative, unpadded-looking
      seconds field, because `%` keeps the sign of the dividend: -5 s is "-1:-5". */
  lemma FormatTimeNegative()
    ensures FormatTime(-5.0) == "-1:-5"
  {
    assert Minutes(-5.0) == -1;
    assert Trunc(-5.0 / 60.0) == 0;
    assert JsRem(-5.0, 60.0) == -5.0;
    assert Seconds(-5.0) == -5;
  }
}
