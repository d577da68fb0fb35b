/** The sticky header of a chapter page: the `M:SS` / `H:MM:SS` playback-time
    formatter and the scroll rule that shows or hides the header. */
module SurahHeader {
  import opened Wrappers
  import opened Strings
  import opened Decimal
  import opened JsMath

  /** Whole hours, minutes within the hour and seconds within the minute of `t`. */
  function Hours(t: nat): (h: nat)
    ensures h == 0 <==> t < 3600
  {
    t / 3600
  }
  function Minutes(t: nat): (m: nat) ensures m < 60 { (t % 3600) / 60 }
  function Seconds(t: nat): (s: nat) ensures s < 60 { t % 60 }

  /** `formatTime(t)` for whole seconds `t`: `H:MM:SS` once there is at least an
      hour, otherwise `M:SS` with unpadded minutes. The seconds field is always
      the last two characters, after a colon; there are one or two colons. */
  function FormatTime(t: nat): (r: string)
    ensures var f := Split(r, ':');
      |f| == (if t < 3600 then 2 else 3) && |f[|f| - 1]| == 2 && AllDigits(f[|f| - 1])
    ensures Occurrences(r, ':') == if t < 3600 then 1 else 2
  {
    FieldFacts(Seconds(t), 2);
    Clock(Hours(t), Minutes(t), Seconds(t))
  }

  /** `formatTime(time)` on the number the audio element reports, which may
      have a fractional part: each field is `Math.floor` of the number's own
      division and remainder, and the result is the formatting of the whole
      seconds, the fraction being dropped. */
  function FormatTimeOf(time: real): (r: string)
    requires time >= 0.0
    ensures r == FormatTime(time.Floor)
  {
    var hours := (time / 3600.0).Floor;
    var minutes := (Remainder(time, 3600.0) / 60.0).Floor;
    var seconds := Remainder(time, 60.0).Floor;
    FloorFields(time);
    assert hours == Hours(time.Floor) && minutes == Minutes(time.Floor) && seconds == Seconds(time.Floor);
    Clock(hours, minutes, seconds)
  }

  /** The floored fields of a non-negative number are those of its whole part. */
  lemma FloorFields(time: real)
    requires time >= 0.0
    ensures (time / 3600.0).Floor == Hours(time.Floor)
    ensures (Remainder(time, 3600.0) / 60.0).Floor == Minutes(time.Floor)
    ensures Remainder(time, 60.0).Floor == Seconds(time.Floor)
  {
    FloorDiv(time, 3600);
    FloorRemainder(time, 3600);
    FloorDiv(Remainder(time, 3600.0), 60);
    FloorRemainder(time, 60);
  }

  /** Two-digit zero padding, `String(n).padStart(2, "0")`. */
  function Pad2(n: nat): string {
    PadZeros(Digits(n), 2)
  }

  /** The fields of a clock reading: hours only when non-zero, and then the
      minutes padded; the seconds always padded. */
  function ClockFields(hours: nat, minutes: nat, seconds: nat): seq<string> {
    if hours > 0 then [Digits(hours), Pad2(minutes), Pad2(seconds)]
    else [Digits(minutes), Pad2(seconds)]
  }

  /** The fields of a clock reading joined with colons. */
  function Clock(hours: nat, minutes: nat, seconds: nat): (r: string)
    requires minutes < 60 && seconds < 60
    ensures Occurrences(r, ':') == if hours == 0 then 1 else 2
    ensures Split(r, ':') == ClockFields(hours, minutes, seconds)
  {
    FieldFacts(hours, 0);
    FieldFacts(minutes, 2);
    FieldFacts(seconds, 2);
    if hours > 0 then Join3(Digits(hours), Pad2(minutes), Pad2(seconds))
    else Join2(Digits(minutes), Pad2(seconds))
  }

  function Join2(a: string, b: string): (r: string)
    requires ':' !in a && ':' !in b
    ensures Occurrences(r, ':') == 1 && Split(r, ':') == [a, b]
  {
    OccurrencesAbsent(a, ':');
    OccurrencesAbsent(b, ':');
    OccurrencesAppend(a, [':'], ':');
    OccurrencesAppend(a + [':'], b, ':');
    SplitNoSeparator(b, ':');
    SplitAfterField(a, ':', b);
    a + [':'] + b
  }

  function Join3(a: string, b: string, c: string): (r: string)
    requires ':' !in a && ':' !in b && ':' !in c
    ensures Occurrences(r, ':') == 2 && Split(r, ':') == [a, b, c]
  {
    var bc := Join2(b, c);
    OccurrencesAbsent(a, ':');
    OccurrencesAppend(a, [':'], ':');
    OccurrencesAppend(a + [':'], bc, ':');
    SplitAfterField(a, ':', bc);
    a + [':'] + bc
  }

  /** A numeric field is digits only, and a field padded to two digits from a
      number below 100 is exactly two characters long. */
  lemma FieldFacts(n: nat, width: nat)
    ensures ':' !in Digits(n) && ':' !in PadZeros(Digits(n), width)
    ensures AllDigits(PadZeros(Digits(n), width))
    ensures width == 2 && n < 100 ==> |PadZeros(Digits(n), width)| == 2
  {
    PadZerosDigits(Digits(n), width);
    NoColonInDigits(Digits(n));
    NoColonInDigits(PadZeros(Digits(n), width));
    if width == 2 && n < 100 {
      TwoDigitWidth(n);
    }
  }

  lemma NoColonInDigits(s: string)
    requires AllDigits(s)
    ensures ':' !in s
  {
    forall i | 0 <= i < |s| ensures s[i] != ':' {
      assert IsDigit(s[i]);
    }
  }

  /** Splitting the formatted time on ':' recovers exactly its fields: below
      one hour, unpadded minutes then seconds padded to two digits; from one hour
      on, unpadded hours, then minutes and seconds each padded to two digits. */
  lemma FormatTimeFields(t: nat)
    ensures t < 3600 ==> Split(FormatTime(t), ':') == [Digits(Minutes(t)), Pad2(Seconds(t))]
    ensures t >= 3600 ==> Split(FormatTime(t), ':') == [Digits(Hours(t)), Pad2(Minutes(t)), Pad2(Seconds(t))]
    ensures |Pad2(Minutes(t))| == 2 && |Pad2(Seconds(t))| == 2
  {
    FieldFacts(Minutes(t), 2);
    FieldFacts(Seconds(t), 2);
  }

  /** Below one hour the unpadded minutes field is simply the whole minutes of `t`. */
  lemma MinutesBelowAnHour(t: nat)
    requires t < 3600
    ensures Hours(t) == 0 && Minutes(t) == t / 60
  {
  }

  /** Reads `M:SS` or `H:MM:SS` (any number of digits per field) back into seconds. */
  function ParseTime(s: string): Option<nat> {
    ParseFields(Split(s, ':'))
  }

  /** Two fields are minutes and seconds, three are hours, minutes and seconds. */
  function ParseFields(f: seq<string>): (r: Option<nat>)
    ensures r.Some? ==> 2 <= |f| <= 3
  {
    if |f| == 2 then
      match (ParseNat(f[0]), ParseNat(f[1]))
      case (Some(m), Some(sec)) => Some(m * 60 + sec)
      case _ => None
    else if |f| == 3 then
      match (ParseNat(f[0]), ParseNat(f[1]), ParseNat(f[2]))
      case (Some(h), Some(m), Some(sec)) => Some(h * 3600 + m * 60 + sec)
      case _ => None
    else None
  }

  /** Hours, minutes and seconds recombine to the original count. */
  lemma TimeDecomposition(t: nat)
    ensures Hours(t) * 3600 + Minutes(t) * 60 + Seconds(t) == t
    ensures Hours(t) == 0 ==> Minutes(t) * 60 + Seconds(t) == t
  {
    var h, r := t / 3600, t % 3600;
    var m, s := r / 60, r % 60;
    assert t == 60 * (60 * h + m) + s;
    assert t % 60 == s;
  }

  lemma ParseTwoFields(a: string, b: string, m: nat, sec: nat)
    requires ParseNat(a) == Some(m) && ParseNat(b) == Some(sec)
    ensures ParseFields([a, b]) == Some(m * 60 + sec)
  {
  }

  lemma ParseThreeFields(a: string, b: string, c: string, h: nat, m: nat, sec: nat)
    requires ParseNat(a) == Some(h) && ParseNat(b) == Some(m) && ParseNat(c) == Some(sec)
    ensures ParseFields([a, b, c]) == Some(h * 3600 + m * 60 + sec)
  {
  }

  /** Parsing the fields of a clock reading gives back the seconds it stands for. */
  lemma ClockFieldsRoundTrip(hours: nat, minutes: nat, seconds: nat)
    ensures ParseFields(ClockFields(hours, minutes, seconds)) == Some(hours * 3600 + minutes * 60 + seconds)
  {
    if hours > 0 {
      HoursFieldsRoundTrip(hours, minutes, seconds);
    } else {
      MinutesFieldsRoundTrip(minutes, seconds);
    }
  }

  lemma HoursFieldsRoundTrip(hours: nat, minutes: nat, seconds: nat)
    requires hours > 0
    ensures ParseFields(ClockFields(hours, minutes, seconds)) == Some(hours * 3600 + minutes * 60 + seconds)
  {
    assert ClockFields(hours, minutes, seconds) == [Digits(hours), Pad2(minutes), Pad2(seconds)];
    DigitsRoundTrip(hours);
    PaddedRoundTrip(minutes, 2);
    PaddedRoundTrip(seconds, 2);
    ParseThreeFields(Digits(hours), Pad2(minutes), Pad2(seconds), hours, minutes, seconds);
  }

  lemma MinutesFieldsRoundTrip(minutes: nat, seconds: nat)
    ensures ParseFields(ClockFields(0, minutes, seconds)) == Some(minutes * 60 + seconds)
  {
    assert ClockFields(0, minutes, seconds) == [Digits(minutes), Pad2(seconds)];
    DigitsRoundTrip(minutes);
    PaddedRoundTrip(seconds, 2);
    ParseTwoFields(Digits(minutes), Pad2(seconds), minutes, seconds);
  }

  /** Parsing a clock reading gives back the seconds it stands for. */
  lemma ClockRoundTrip(hours: nat, minutes: nat, seconds: nat)
    requires minutes < 60 && seconds < 60
    ensures ParseTime(Clock(hours, minutes, seconds)) == Some(hours * 3600 + minutes * 60 + seconds)
  {
    ClockFieldsRoundTrip(hours, minutes, seconds);
  }

  /** Round trip: parsing the formatted time gives back the number of seconds. */
  lemma FormatTimeRoundTrip(t: nat)
    ensures ParseTime(FormatTime(t)) == Some(t)
  {
    ClockRoundTrip(Hours(t), Minutes(t), Seconds(t));
    TimeDecomposition(t);
  }

  /** The header's visibility flag, driven by the page's vertical scroll offset. */
  class HeaderView {
    var visible: bool

    /** The header starts out visible. */
    constructor ()
      ensures visible
    {
      visible := true;
    }

    /** `handleScroll`: after any scroll event the header is shown exactly when
        the page is scrolled more than 100 pixels down. */
    method HandleScroll(scrollOffset: real)
      modifies this
      ensures visible <==> scrollOffset > 100.0
    {
      if scrollOffset > 100.0 {
        visible := true;
        return;
      }
      visible := false;
    }
  }
}
