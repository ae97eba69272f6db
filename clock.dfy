/**
  Clock texts. A moment is an integer number of minutes after midnight of
  the base day; `strftime` only looks at its time of day. This module holds
  the two formats the bot writes (`%H:%M` for the schedule it prints and
  logs, `%I:%M%p` for the booking form) and the one it reads (`%H:%M`,
  through `strptime`), each with its inverse.
 */
module Clock {
  import opened Wrappers
  import opened Text

  const MinutesPerHour: int := 60
  const MinutesPerDay: int := 1440
  const Noon: int := 720

  /** The time of day of a moment, as `datetime.time()` would give it. */
  function TimeOfDay(t: int): (m: int)
    ensures 0 <= m < MinutesPerDay
    ensures (t - m) % MinutesPerDay == 0
  {
    t % MinutesPerDay
  }

  predicate IsDigit(c: char) {
    '0' <= c <= '9'
  }

  function DigitValue(c: char): (d: nat)
    requires IsDigit(c)
    ensures d < 10
  {
    (c as int) - ('0' as int)
  }

  function DigitChar(d: nat): (c: char)
    requires d < 10
    ensures IsDigit(c) && DigitValue(c) == d
  {
    (d + '0' as int) as char
  }

  /** Two zero-padded digits, as `%H`, `%I` and `%M` print them. */
  function Pad2(n: nat): (s: string)
    requires n < 100
    ensures |s| == 2 && IsDigit(s[0]) && IsDigit(s[1])
    ensures 10 * DigitValue(s[0]) + DigitValue(s[1]) == n
  {
    [DigitChar(n / 10), DigitChar(n % 10)]
  }

  /** A field that `strptime`'s `%H` (max 23) or `%M` (max 59) accepts when
      it must reach the next literal: one or two decimal digits whose value
      is at most `max`. */
  function NumberField(f: string, max: nat): (r: Option<nat>)
    ensures r.Some? <==> 1 <= |f| <= 2 && (forall k | 0 <= k < |f| :: IsDigit(f[k])) &&
                         (if |f| == 1 then DigitValue(f[0]) else 10 * DigitValue(f[0]) + DigitValue(f[1])) <= max
    ensures r.Some? ==> r.value <= max
    ensures r.Some? ==> r.value == if |f| == 1 then DigitValue(f[0]) else 10 * DigitValue(f[0]) + DigitValue(f[1])
  {
    if |f| == 1 && IsDigit(f[0]) && DigitValue(f[0]) <= max then
      Some(DigitValue(f[0]))
    else if |f| == 2 && IsDigit(f[0]) && IsDigit(f[1]) && 10 * DigitValue(f[0]) + DigitValue(f[1]) <= max then
      Some(10 * DigitValue(f[0]) + DigitValue(f[1]))
    else
      None
  }

  /** `strptime(field, "%H:%M")` on a stripped field, giving the minutes after
      midnight; None where `strptime` raises `ValueError`. */
  function ParseClock(s: string): (r: Option<int>)
    ensures r.Some? ==> 0 <= r.value < MinutesPerDay
    ensures r.Some? ==> ':' in s && 3 <= |s| <= 5
  {
    match IndexOf(s, ':')
    case None => None
    case Some(i) =>
      var hour, minute := NumberField(s[..i], 23), NumberField(s[i + 1..], 59);
      if hour.Some? && minute.Some? then Some(hour.value * MinutesPerHour + minute.value) else None
  }

  /** What `%H:%M` makes of a text with one colon after a colon-free hour
      field: hour times 60 plus minutes when both fields are accepted,
      otherwise a `ValueError`. Unpadded fields count: `9:5` is 09:05. */
  lemma ClockFields(hs: string, ms: string)
    requires ':' !in hs
    ensures ParseClock(hs + ":" + ms)
            == if NumberField(hs, 23).Some? && NumberField(ms, 59).Some?
               then Some(NumberField(hs, 23).value * MinutesPerHour + NumberField(ms, 59).value)
               else None
  {
    var s := hs + ":" + ms;
    IndexOfJoined(hs, ms);
    assert s[..|hs|] == hs && s[|hs| + 1..] == ms;
  }

  lemma {:induction false} IndexOfJoined(hs: string, ms: string)
    requires ':' !in hs
    ensures IndexOf(hs + ":" + ms, ':') == Some(|hs|)
  {
    if |hs| > 0 {
      assert (hs + ":" + ms)[1..] == hs[1..] + ":" + ms;
      IndexOfJoined(hs[1..], ms);
    }
  }

  /** An unpadded side: `9:5` reads as five past nine. */
  lemma UnpaddedExample()
    ensures ParseClock("9:5") == Some(545)
  {
    ClockFields("9", "5");
  }

  /** `strftime("%H:%M")`. */
  function FormatClock(t: int): (s: string)
    ensures |s| == 5 && s[2] == ':'
    ensures forall k | 0 <= k < 5 && k != 2 :: IsDigit(s[k])
  {
    var tod := TimeOfDay(t);
    Pad2(tod / MinutesPerHour) + ":" + Pad2(tod % MinutesPerHour)
  }

  /** Reading back what `strftime("%H:%M")` wrote gives the time of day. */
  lemma ClockRoundTrip(t: int)
    ensures ParseClock(FormatClock(t)) == Some(TimeOfDay(t))
  {
    var tod := TimeOfDay(t);
    var h, m := Pad2(tod / MinutesPerHour), Pad2(tod % MinutesPerHour);
    var s := h + ":" + m;
    assert s == FormatClock(t);
    assert ':' !in s[..2];
    assert IndexOf(s, ':') == Some(2);
    assert s[..2] == h && s[3..] == m;
    assert NumberField(h, 23) == Some(tod / MinutesPerHour);
    assert NumberField(m, 59) == Some(tod % MinutesPerHour);
  }

  /** `%I`: the hour on a 12-hour clock, with 12 standing for 0. */
  function Hour12(hour: nat): (r: nat)
    requires hour < 24
    ensures 1 <= r <= 12
    ensures r % 12 == hour % 12
  {
    if hour % 12 == 0 then 12 else hour % 12
  }

  /** `%p` in the C locale. */
  function Meridiem(t: int): (s: string)
    ensures |s| == 2
  {
    if TimeOfDay(t) < Noon then "AM" else "PM"
  }

  /** `convert_to_12hour_format`: `strftime("%I:%M%p")`, as typed into the
      booking form's start and end fields. */
  function TwelveHourText(t: int): (s: string)
    ensures |s| == 7 && s[2] == ':'
  {
    var tod := TimeOfDay(t);
    Pad2(Hour12(tod / MinutesPerHour)) + ":" + Pad2(tod % MinutesPerHour) + Meridiem(t)
  }

  /** The hour field of the 12-hour text, case by case: 0 reads 12AM, 1..11
      read as themselves with AM, 12 reads 12PM, 13..23 read 1..11PM; the
      minutes are copied and the suffix is AM exactly before noon. */
  lemma TwelveHourFields(t: int)
    ensures var s := TwelveHourText(t);
            var hour := TimeOfDay(t) / MinutesPerHour;
            && s[3..5] == Pad2(TimeOfDay(t) % MinutesPerHour)
            && (s[5..] == "AM" <==> hour < 12)
            && (s[5..] == "PM" <==> hour >= 12)
            && (hour == 0 ==> s[..2] == "12")
            && (1 <= hour <= 12 ==> s[..2] == Pad2(hour))
            && (13 <= hour ==> s[..2] == Pad2(hour - 12))
  {
    var s := TwelveHourText(t);
    var hour := TimeOfDay(t) / MinutesPerHour;
    assert s[..2] == Pad2(Hour12(hour));
    assert s[5..] == Meridiem(t);
    assert Pad2(12) == "12";
  }

  /** A reference reader that inverts `%I:%M%p`: `hh:mmAM` or `hh:mmPM`
      with `hh` in 01..12, read back into minutes after midnight. */
  function ParseTwelveHour(s: string): (r: Option<int>)
    ensures r.Some? ==> 0 <= r.value < MinutesPerDay
    ensures r.Some? ==> |s| == 7 && (r.value < Noon <==> s[5..] == "AM")
  {
    if |s| == 7 && s[2] == ':' && (s[5..] == "AM" || s[5..] == "PM") then
      var hour, minute := NumberField(s[..2], 12), NumberField(s[3..5], 59);
      if hour.Some? && minute.Some? && hour.value != 0 then
        Some((hour.value % 12 + (if s[5..] == "PM" then 12 else 0)) * MinutesPerHour + minute.value)
      else
        None
    else
      None
  }

  /** No information is lost in the 12-hour conversion: the form reads back
      the session's time of day. */
  lemma TwelveHourRoundTrip(t: int)
    ensures ParseTwelveHour(TwelveHourText(t)) == Some(TimeOfDay(t))
  {
    var tod := TimeOfDay(t);
    var hour := tod / MinutesPerHour;
    var s := TwelveHourText(t);
    var hh, mm := Pad2(Hour12(hour)), Pad2(tod % MinutesPerHour);
    assert s == hh + ":" + mm + Meridiem(t);
    assert s[..2] == hh && s[3..5] == mm && s[5..] == Meridiem(t);
    assert NumberField(hh, 12) == Some(Hour12(hour));
    assert NumberField(mm, 59) == Some(tod % MinutesPerHour);
    assert Hour12(hour) % 12 + (if hour < 12 then 0 else 12) == hour;
  }
}
