/** The display rule of the digital clock: how the hour, minute and second of
    the current time become the "HH:MM:SS" string shown on the card, and in
    which form the hour appears in 24-hour and in 12-hour mode. */
module ClockFormat {

  /** The values `Date.getHours`, `getMinutes` and `getSeconds` can return. */
  type Hour = h: int | 0 <= h < 24
  type Minute = m: int | 0 <= m < 60
  type Second = s: int | 0 <= s < 60

  /** The local-time components of the component's `Date`. */
  datatype Time = Time(hour: Hour, minute: Minute, second: Second)

  /** The three numbers read back from an "HH:MM:SS" display string. */
  datatype Fields = Fields(hours: nat, minutes: nat, seconds: nat)

  datatype Option<T> = None | Some(value: T)

  // ---------------------------------------------------------------------
  // Decimal digits

  predicate IsDigit(c: char) {
    '0' <= c <= '9'
  }

  predicate AllDigits(s: string) {
    forall i :: 0 <= i < |s| ==> IsDigit(s[i])
  }

  function DigitValue(c: char): (d: nat)
    requires IsDigit(c)
    ensures d < 10
  {
    c as int - '0' as int
  }

  function DigitChar(d: nat): (c: char)
    requires d < 10
    ensures IsDigit(c) && DigitValue(c) == d
  {
    ('0' as int + d) as char
  }

  /** The number a string of decimal digits denotes, most significant first;
      leading zeros are allowed, as in "05". */
  function ParseDecimal(s: string): nat
    requires AllDigits(s)
  {
    if s == [] then 0 else ParseDecimal(s[..|s| - 1]) * 10 + DigitValue(s[|s| - 1])
  }

  // ---------------------------------------------------------------------
  // Number.prototype.toString and String.prototype.padStart

  /** `n.toString()` for a non-negative integer: its decimal digits, most
      significant first, without a leading zero. */
  function DecimalString(n: nat): (s: string)
    ensures |s| >= 1 && AllDigits(s)
    ensures |s| > 1 ==> s[0] != '0'
    ensures (|s| == 1) == (n < 10)
    ensures ParseDecimal(s) == n
    decreases n
  {
    if n < 10 then
      [DigitChar(n)]
    else
      var prefix := DecimalString(n / 10);
      var s := prefix + [DigitChar(n % 10)];
      assert s[..|s| - 1] == prefix;
      s
  }

  /** `k` copies of `c`. */
  function Repeat(c: char, k: nat): (r: string)
    ensures |r| == k
    ensures forall i :: 0 <= i < k ==> r[i] == c
  {
    if k == 0 then [] else [c] + Repeat(c, k - 1)
  }

  /** `s.padStart(width, fill)` with a one-character fill: `s` itself when it
      is at least `width` long, otherwise `s` preceded by enough copies of
      `fill` to make it exactly `width` long. */
  function PadStart(s: string, width: nat, fill: char): (r: string)
    ensures |r| == if |s| < width then width else |s|
  {
    if |s| < width then Repeat(fill, width - |s|) + s else s
  }

  /** What `PadStart` puts where: fill characters first, then `s` unchanged. */
  lemma PadStartContents(s: string, width: nat, fill: char)
    ensures var r := PadStart(s, width, fill);
            (forall i :: 0 <= i < |s| ==> r[|r| - |s| + i] == s[i]) &&
            (forall i :: 0 <= i < |r| - |s| ==> r[i] == fill)
  {
  }

  /** `n.toString().padStart(2, "0")`: for every value a clock field can take
      (below 100) the tens digit followed by the units digit. */
  function Pad2(n: nat): (r: string)
    ensures n < 100 ==> r == [DigitChar(n / 10), DigitChar(n % 10)]
  {
    var s := DecimalString(n);
    var r := PadStart(s, 2, '0');
    PadStartContents(s, 2, '0');
    if n < 10 then
      assert r == ['0'] + s;
      r
    else if n < 100 then
      assert s == DecimalString(n / 10) + [DigitChar(n % 10)];
      r
    else
      r
  }

  /** The number a two-character string of digits denotes. */
  function TwoDigitValue(s: string): (v: nat)
    requires |s| == 2 && AllDigits(s)
    ensures v < 100
  {
    DigitValue(s[0]) * 10 + DigitValue(s[1])
  }

  /** `Pad2` and `TwoDigitValue` are inverse on 0..99. */
  lemma Pad2RoundTrip(n: nat)
    requires n < 100
    ensures |Pad2(n)| == 2 && AllDigits(Pad2(n)) && TwoDigitValue(Pad2(n)) == n
  {
  }

  lemma DigitValueInjective(a: char, b: char)
    requires IsDigit(a) && IsDigit(b) && DigitValue(a) == DigitValue(b)
    ensures a == b
  {
  }

  /** A two-digit string is determined by the number it denotes. */
  lemma TwoDigitsDetermined(a: string, b: string)
    requires |a| == 2 && AllDigits(a)
    requires |b| == 2 && AllDigits(b)
    requires TwoDigitValue(a) == TwoDigitValue(b)
    ensures a == b
  {
    DigitValueInjective(a[0], b[0]);
    DigitValueInjective(a[1], b[1]);
  }

  // ---------------------------------------------------------------------
  // The hours field

  /** JavaScript's `a || b` on numbers that cannot be NaN: `a`, unless `a` is
      the falsy value 0, in which case `b`. */
  function JsOr(a: int, b: int): (r: int)
    ensures a != 0 ==> r == a
    ensures a == 0 ==> r == b
  {
    if a == 0 then b else a
  }

  /** The hour shown in 12-hour mode, `hour % 12 || 12`: the one number in
      1..12 that agrees with `h` modulo 12. */
  function Hour12(h: Hour): (r: Hour)
    ensures 1 <= r <= 12
    ensures r % 12 == h % 12
  {
    JsOr(h % 12, 12)
  }

  /** The number the hours field shows in the given mode: the hour itself in
      24-hour mode, a number in 1..12 congruent to it otherwise. */
  function DisplayHour(is24Hour: bool, h: Hour): (r: Hour)
    ensures is24Hour ==> r == h
    ensures !is24Hour ==> 1 <= r <= 12 && r % 12 == h % 12
  {
    if is24Hour then h else Hour12(h)
  }

  // ---------------------------------------------------------------------
  // The display string

  /** The shape of every string shown once mounted: "DD:DD:DD". */
  predicate IsClockString(s: string) {
    |s| == 8 && s[2] == ':' && s[5] == ':' &&
    IsDigit(s[0]) && IsDigit(s[1]) && IsDigit(s[3]) &&
    IsDigit(s[4]) && IsDigit(s[6]) && IsDigit(s[7])
  }

  /** Reads an "HH:MM:SS" string back into its three numbers. */
  function ParseClock(s: string): (r: Option<Fields>)
    ensures r.Some? == IsClockString(s)
    ensures r.Some? ==> r.value.hours < 100 && r.value.minutes < 100 && r.value.seconds < 100
  {
    if IsClockString(s) then
      Some(Fields(TwoDigitValue(s[0..2]), TwoDigitValue(s[3..5]), TwoDigitValue(s[6..8])))
    else
      None
  }

  /** `${hours}:${minutes}:${seconds}`: three two-digit fields joined by
      colons form a clock string whose fields read back as those three. */
  lemma JoinFields(hours: string, minutes: string, seconds: string)
    requires |hours| == 2 && AllDigits(hours)
    requires |minutes| == 2 && AllDigits(minutes)
    requires |seconds| == 2 && AllDigits(seconds)
    ensures var r := hours + ":" + minutes + ":" + seconds;
            IsClockString(r) && r[0..2] == hours && r[3..5] == minutes && r[6..8] == seconds
  {
  }

  /** `formattedTime`: the empty string until the component is mounted; then
      hours, minutes and seconds, each zero-padded to two digits and joined by
      colons. Only the hours field depends on the mode. */
  function FormatTime(mounted: bool, is24Hour: bool, t: Time): (r: string)
    ensures !mounted ==> r == ""
    ensures mounted ==> IsClockString(r)
    ensures mounted ==> ParseClock(r) == Some(Fields(DisplayHour(is24Hour, t.hour), t.minute, t.second))
  {
    if !mounted then
      ""
    else
      var hours := Pad2(DisplayHour(is24Hour, t.hour));
      var minutes := Pad2(t.minute);
      var seconds := Pad2(t.second);
      Pad2RoundTrip(DisplayHour(is24Hour, t.hour));
      Pad2RoundTrip(t.minute);
      Pad2RoundTrip(t.second);
      JoinFields(hours, minutes, seconds);
      hours + ":" + minutes + ":" + seconds
  }

  /** A clock string is determined by its three two-character fields. */
  lemma ClockStringsEqual(a: string, b: string)
    requires IsClockString(a) && IsClockString(b)
    requires a[0..2] == b[0..2] && a[3..5] == b[3..5] && a[6..8] == b[6..8]
    ensures a == b
  {
  }

  /** Everything after the hours field is determined by minutes and seconds. */
  lemma ClockStringTailsEqual(a: string, b: string)
    requires IsClockString(a) && IsClockString(b)
    requires a[3..5] == b[3..5] && a[6..8] == b[6..8]
    ensures a[2..] == b[2..]
  {
  }

  // ---------------------------------------------------------------------
  // Properties of the display rule

  /** Before mounting nothing is shown, whatever the time and the mode. */
  lemma UnmountedShowsNothing(is24Hour: bool, t: Time, u: Time)
    ensures FormatTime(false, is24Hour, t) == FormatTime(false, !is24Hour, u) == ""
  {
  }

  /** The three fields of a mounted display, as substrings. */
  lemma FieldsOfFormat(is24Hour: bool, t: Time)
    ensures FormatTime(true, is24Hour, t)[0..2] == Pad2(DisplayHour(is24Hour, t.hour))
    ensures FormatTime(true, is24Hour, t)[3..5] == Pad2(t.minute)
    ensures FormatTime(true, is24Hour, t)[6..8] == Pad2(t.second)
  {
    Pad2RoundTrip(DisplayHour(is24Hour, t.hour));
    Pad2RoundTrip(t.minute);
    Pad2RoundTrip(t.second);
    JoinFields(Pad2(DisplayHour(is24Hour, t.hour)), Pad2(t.minute), Pad2(t.second));
  }

  /** In 24-hour mode the hours field is the two-digit hour, "00" to "23". */
  lemma TwentyFourHourField(t: Time)
    ensures FormatTime(true, true, t)[0..2] == [DigitChar(t.hour / 10), DigitChar(t.hour % 10)]
    ensures t.hour == 0 ==> FormatTime(true, true, t)[0..2] == "00"
    ensures t.hour == 23 ==> FormatTime(true, true, t)[0..2] == "23"
  {
    FieldsOfFormat(true, t);
  }

  /** In 12-hour mode the hours field reads as a number in 1..12; hours 0 and
      12 both show "12" and hour 13 shows "01". */
  lemma TwelveHourField(t: Time)
    ensures 1 <= ParseClock(FormatTime(true, false, t)).value.hours <= 12
    ensures t.hour == 0 || t.hour == 12 ==> FormatTime(true, false, t)[0..2] == "12"
    ensures t.hour == 13 ==> FormatTime(true, false, t)[0..2] == "01"
  {
    FieldsOfFormat(false, t);
    Hour12Rendering(t.hour);
  }

  lemma Hour12Rendering(h: Hour)
    ensures h == 0 || h == 12 ==> Pad2(Hour12(h)) == "12"
    ensures h == 13 ==> Pad2(Hour12(h)) == "01"
  {
    var r := Hour12(h);
    if h == 0 || h == 12 {
      assert r == 12;
    } else if h == 13 {
      assert r == 1;
    }
  }

  /** Two hours share a 12-hour rendering exactly when they agree modulo 12. */
  lemma Hour12SameIff(h1: Hour, h2: Hour)
    ensures Hour12(h1) == Hour12(h2) <==> h1 % 12 == h2 % 12
  {
  }

  /** Minutes and seconds do not depend on the mode: everything after the
      hours field is the same in both modes. */
  lemma ModeOnlyChangesHours(t: Time)
    ensures FormatTime(true, true, t)[2..] == FormatTime(true, false, t)[2..]
  {
    var a := FormatTime(true, true, t);
    var b := FormatTime(true, false, t);
    FieldsOfFormat(true, t);
    FieldsOfFormat(false, t);
    ClockStringTailsEqual(a, b);
  }

  /** The two modes show the same string exactly for the hours 1..12. */
  lemma ModesAgreeIff(t: Time)
    ensures FormatTime(true, true, t) == FormatTime(true, false, t) <==> 1 <= t.hour <= 12
  {
    if 1 <= t.hour <= 12 {
      ModesAgreeIfSameHour(t);
    } else if FormatTime(true, true, t) == FormatTime(true, false, t) {
      ModesAgreeOnlyIfSameHour(t);
      assert false;
    }
  }

  lemma ModesAgreeOnlyIfSameHour(t: Time)
    requires FormatTime(true, true, t) == FormatTime(true, false, t)
    ensures t.hour == Hour12(t.hour)
  {
    assert ParseClock(FormatTime(true, true, t)) == ParseClock(FormatTime(true, false, t));
  }

  lemma ModesAgreeIfSameHour(t: Time)
    requires Hour12(t.hour) == t.hour
    ensures FormatTime(true, true, t) == FormatTime(true, false, t)
  {
    FieldsOfFormat(true, t);
    FieldsOfFormat(false, t);
    ClockStringsEqual(FormatTime(true, true, t), FormatTime(true, false, t));
  }

  /** The 12-hour display is the 24-hour display of the hour `Hour12` gives. */
  lemma TwelveHourIsTwentyFourOfHour12(t: Time)
    ensures FormatTime(true, false, t) == FormatTime(true, true, Time(Hour12(t.hour), t.minute, t.second))
  {
  }

  /** Round trip: reading the 24-hour display gives back the time exactly;
      reading the 12-hour display gives back minutes and seconds exactly and
      `hour % 12`, with 12 in place of 0. */
  lemma ParseFormatRoundTrip(t: Time)
    ensures ParseClock(FormatTime(true, true, t)) == Some(Fields(t.hour, t.minute, t.second))
    ensures ParseClock(FormatTime(true, false, t)) ==
            Some(Fields(if t.hour % 12 == 0 then 12 else t.hour % 12, t.minute, t.second))
  {
  }

  /** The 24-hour display tells different times apart. */
  lemma TwentyFourHourInjective(t1: Time, t2: Time)
    requires FormatTime(true, true, t1) == FormatTime(true, true, t2)
    ensures t1 == t2
  {
    assert ParseClock(FormatTime(true, true, t1)) == ParseClock(FormatTime(true, true, t2));
  }

  /** The other direction of the round trip: every "HH:MM:SS" string whose
      numbers form a valid time is the 24-hour display of that time. */
  lemma FormatParseRoundTrip(s: string)
    requires ParseClock(s).Some?
    requires ParseClock(s).value.hours < 24
    requires ParseClock(s).value.minutes < 60
    requires ParseClock(s).value.seconds < 60
    ensures var f := ParseClock(s).value;
            FormatTime(true, true, Time(f.hours, f.minutes, f.seconds)) == s
  {
    var f := ParseClock(s).value;
    var t := Time(f.hours, f.minutes, f.seconds);
    FormatOfParsedFields(s, t);
  }

  lemma FormatOfParsedFields(s: string, t: Time)
    requires ParseClock(s) == Some(Fields(t.hour, t.minute, t.second))
    ensures FormatTime(true, true, t) == s
  {
    var r := FormatTime(true, true, t);
    FieldsOfFormat(true, t);
    Pad2RoundTrip(t.hour);
    Pad2RoundTrip(t.minute);
    Pad2RoundTrip(t.second);
    TwoDigitsDetermined(r[0..2], s[0..2]);
    TwoDigitsDetermined(r[3..5], s[3..5]);
    TwoDigitsDetermined(r[6..8], s[6..8]);
    ClockStringsEqual(r, s);
  }

  /** In either mode the display is the one clock string that reads back as
      the shown hour, the minute and the second. */
  lemma DisplayOfParsedFields(is24Hour: bool, t: Time, s: string)
    requires ParseClock(s) == Some(Fields(DisplayHour(is24Hour, t.hour), t.minute, t.second))
    ensures FormatTime(true, is24Hour, t) == s
  {
    TwelveHourIsTwentyFourOfHour12(t);
    FormatOfParsedFields(s, Time(DisplayHour(is24Hour, t.hour), t.minute, t.second));
  }

  /** An example run: 14:05:09 shows as "14:05:09"
      in 24-hour mode and as "02:05:09" in 12-hour mode, and a second later
      as "02:05:10". */
  lemma ExampleDisplays()
    ensures FormatTime(true, true, Time(14, 5, 9)) == "14:05:09"
    ensures FormatTime(true, false, Time(14, 5, 9)) == "02:05:09"
    ensures FormatTime(true, false, Time(14, 5, 10)) == "02:05:10"
  {
    DisplayOfParsedFields(true, Time(14, 5, 9), "14:05:09");
    DisplayOfParsedFields(false, Time(14, 5, 9), "02:05:09");
    DisplayOfParsedFields(false, Time(14, 5, 10), "02:05:10");
  }
}
