/**
  `_parse_time_range` and the day selection in front of it
  (`book_parking_sessions`, lines 418-423). A window is measured in minutes
  after midnight of the base day: the target date when there is one, today
  otherwise.
 */
module TimeRange {
  import opened Wrappers
  import opened Text
  import opened Clock
  import opened Sessions

  /** The `ValueError`s the parser raises, told apart by their cause. */
  datatype RangeError =
    | MissingSeparator   // no `-` in the text
    | NotTwoParts        // more than one `-`: the two-name unpacking fails
    | BadClock           // a side that `strptime("%H:%M")` rejects
    | EndNotAfterStart   // end <= start on an explicit target date

  /** A target date that is not today. Its calendar value does not matter to
      the model: moments are counted from its midnight. */
  datatype TargetDay = Tomorrow | OnDate(text: string)

  datatype Window = Window(start: int, end: int)

  /** The two sides of the range, each stripped and read as `%H:%M`. */
  function Fields(text: string): (r: Option<(int, int)>)
    ensures r.Some? ==> |Split(text, '-')| == 2
    ensures r.Some? ==> 0 <= r.value.0 < MinutesPerDay && 0 <= r.value.1 < MinutesPerDay
    ensures r.Some? <==> |Split(text, '-')| == 2 && ParseClock(Strip(Split(text, '-')[0])).Some?
                                                 && ParseClock(Strip(Split(text, '-')[1])).Some?
  {
    var parts := Split(text, '-');
    if |parts| != 2 then None
    else
      var start, end := ParseClock(Strip(parts[0])), ParseClock(Strip(parts[1]));
      if start.Some? && end.Some? then Some((start.value, end.value)) else None
  }

  /** `_parse_time_range(text, target)`: the separator check, the two-way
      split, the two clock readings, then the ordering rule. */
  function ParseTimeRange(text: string, target: Option<TargetDay>): (r: Result<Window, RangeError>)
    ensures r.Success? ==> 0 <= r.value.start < MinutesPerDay
    ensures r.Success? ==> 0 < r.value.end - r.value.start <= MinutesPerDay
    ensures r.Success? && target.Some? ==> r.value.end < MinutesPerDay
  {
    if '-' !in text then Failure(MissingSeparator)
    else if |Split(text, '-')| != 2 then Failure(NotTwoParts)
    else match Fields(text)
      case None => Failure(BadClock)
      case Some((s, e)) => Order(s, e, target)
  }

  /** The ordering rule on two clock readings of the base day: an end not
      after the start moves to the next day when there is no target date and
      is an error when there is one. */
  function Order(s: int, e: int, target: Option<TargetDay>): (r: Result<Window, RangeError>)
    requires 0 <= s < MinutesPerDay && 0 <= e < MinutesPerDay
    ensures r.Success? ==> r.value.start == s && TimeOfDay(r.value.end) == e
    ensures r.Success? ==> 0 < r.value.end - r.value.start <= MinutesPerDay
    ensures r.Success? && target.Some? ==> r.value.end < MinutesPerDay
    ensures r.Failure? <==> target.Some? && e <= s
    ensures r.Failure? ==> r.error == EndNotAfterStart
  {
    NextDayClock(e);
    if e <= s then
      if target.None? then Success(Window(s, e + MinutesPerDay))
      else Failure(EndNotAfterStart)
    else Success(Window(s, e))
  }

  lemma NextDayClock(e: int)
    requires 0 <= e < MinutesPerDay
    ensures TimeOfDay(e) == e && TimeOfDay(e + MinutesPerDay) == e
  {
  }

  /** A text whose two sides read as `s` and `e` is decided by the ordering
      rule alone. */
  lemma ParseByFields(text: string, target: Option<TargetDay>, s: int, e: int)
    requires Fields(text) == Some((s, e))
    ensures 0 <= s < MinutesPerDay && 0 <= e < MinutesPerDay
    ensures ParseTimeRange(text, target) == Order(s, e, target)
  {
    assert '-' in text by {
      if '-' !in text {
        SplitJoin(text, '-');
      }
    }
  }

  /** Each `ValueError` is raised exactly for its cause. */
  lemma RangeErrors(text: string, target: Option<TargetDay>)
    ensures var r := ParseTimeRange(text, target);
            && (r == Failure(MissingSeparator) <==> '-' !in text)
            && (r == Failure(NotTwoParts) <==> |Split(text, '-')| > 2)
            && (r == Failure(BadClock) <==> '-' in text && |Split(text, '-')| == 2 && Fields(text).None?)
            && (r == Failure(EndNotAfterStart) <==> target.Some? && Fields(text).Some? && Fields(text).value.1 <= Fields(text).value.0)
  {
    if Fields(text).Some? {
      ParseByFields(text, target, Fields(text).value.0, Fields(text).value.1);
    }
  }

  /** The ordering rule in full: an end after the start is kept; an end not
      after it runs to the same clock time on the next day (a whole day when
      the two are equal) without a target date, and is refused with one. */
  lemma RolloverRule(s: int, e: int, target: Option<TargetDay>)
    requires 0 <= s < MinutesPerDay && 0 <= e < MinutesPerDay
    ensures s < e ==> Order(s, e, target) == Success(Window(s, e))
    ensures e <= s && target.None? ==> Order(s, e, target) == Success(Window(s, e + MinutesPerDay))
    ensures e <= s && target.Some? ==> Order(s, e, target) == Failure(EndNotAfterStart)
    ensures s == e && target.None? ==> Order(s, e, target).value.end - s == MinutesPerDay
  {
  }

  /** The day argument of `book_parking_sessions`: nothing or an empty text,
      and `today` in any letter case, mean no target date; `tomorrow` in any
      letter case means the next day; anything else is a date. */
  function ResolveTargetDay(arg: Option<string>): (r: Option<TargetDay>)
    ensures r == Some(Tomorrow) <==> arg.Some? && Lower(arg.value) == "tomorrow"
    ensures r.None? <==> arg.None? || arg.value == [] || Lower(arg.value) == "today"
    ensures r.Some? && r.value.OnDate? ==> r.value.text == arg.value
  {
    match arg
    case None => None
    case Some(word) =>
      if word == "" then None
      else if Lower(word) == "tomorrow" then Some(Tomorrow)
      else if Lower(word) != "today" then Some(OnDate(word))
      else None
  }

  /** What the day word does to a range crossing midnight: `today` lets it
      roll over to the next day, `tomorrow` rejects it. */
  lemma DayWordRollover(word: string, text: string, s: int, e: int)
    requires Fields(text) == Some((s, e)) && e <= s
    ensures Lower(word) == "today" ==>
              ParseTimeRange(text, ResolveTargetDay(Some(word))) == Success(Window(s, e + MinutesPerDay))
    ensures Lower(word) == "tomorrow" ==>
              ParseTimeRange(text, ResolveTargetDay(Some(word))) == Failure(EndNotAfterStart)
  {
    ParseByFields(text, ResolveTargetDay(Some(word)), s, e);
  }

  /** A side of a range that needs no stripping, holds no `-` and reads as `minutes`. */
  predicate CleanSide(side: string, minutes: int) {
    '-' !in side && Strip(side) == side && ParseClock(side) == Some(minutes)
  }

  /** What `strftime("%H:%M")` writes is a clean side. */
  lemma ClockSide(t: int)
    ensures CleanSide(FormatClock(t), TimeOfDay(t))
  {
    assert IsDigit(FormatClock(t)[0]) && IsDigit(FormatClock(t)[4]);
    ClockRoundTrip(t);
  }

  /** Two clean sides joined by `-` give their two fields back. */
  lemma JoinedFields(text: string, a: string, s: int, b: string, e: int)
    requires text == a + ['-'] + b
    requires CleanSide(a, s) && CleanSide(b, e)
    ensures Fields(text) == Some((s, e))
  {
    SplitTwo(a, '-', b);
    FieldsOfParts(text, a, s, b, e);
  }

  lemma FieldsOfParts(text: string, a: string, s: int, b: string, e: int)
    requires Split(text, '-') == [a, b]
    requires ParseClock(Strip(a)) == Some(s) && ParseClock(Strip(b)) == Some(e)
    ensures Fields(text) == Some((s, e))
  {
  }

  lemma SessionTextShape(session: ParkingSession)
    ensures SessionText(session) == FormatClock(session.startTime) + ['-'] + FormatClock(session.endTime)
  {
  }

  /** The two `%H:%M` sides of a session's text read back as its two times of day. */
  lemma SessionTextFields(session: ParkingSession)
    ensures Fields(SessionText(session)) == Some((TimeOfDay(session.startTime), TimeOfDay(session.endTime)))
  {
    SessionTextShape(session);
    ClockSide(session.startTime);
    ClockSide(session.endTime);
    JoinedFields(SessionText(session), FormatClock(session.startTime), TimeOfDay(session.startTime),
                 FormatClock(session.endTime), TimeOfDay(session.endTime));
  }

  /** A positive duration of at most one day is recovered from the two times
      of day alone, adding a day when the end's clock is not after the start's. */
  lemma DurationFromClocks(start: int, end: int)
    requires 0 < end - start <= MinutesPerDay
    ensures TimeOfDay(start) < TimeOfDay(end) ==> TimeOfDay(end) - TimeOfDay(start) == end - start
    ensures TimeOfDay(end) <= TimeOfDay(start) ==> TimeOfDay(end) + MinutesPerDay - TimeOfDay(start) == end - start
  {
    var s, e := TimeOfDay(start), TimeOfDay(end);
    var k := end / MinutesPerDay - start / MinutesPerDay;
    assert start == MinutesPerDay * (start / MinutesPerDay) + s;
    assert end == MinutesPerDay * (end / MinutesPerDay) + e;
    assert end - start == MinutesPerDay * k + (e - s);
    if s < e {
      assert k == 0;
    } else {
      assert k == 1;
    }
  }

  /** Parsing what `ParkingSession.__str__` printed gives back the session,
      moved to the base day: its start's time of day and its duration. */
  lemma SessionTextRoundTrip(session: ParkingSession)
    requires 0 < session.DurationMinutes() <= MinutesPerDay
    ensures ParseTimeRange(SessionText(session), None)
            == Success(Window(TimeOfDay(session.startTime), TimeOfDay(session.startTime) + (session.endTime - session.startTime)))
  {
    SessionTextFields(session);
    RangeOfClocks(SessionText(session), session.startTime, session.endTime);
  }

  /** A text whose fields are the times of day of two moments at most a day
      apart parses, without a target date, to the first moment's time of day
      and the distance between them. */
  lemma RangeOfClocks(text: string, start: int, end: int)
    requires 0 < end - start <= MinutesPerDay
    requires Fields(text) == Some((TimeOfDay(start), TimeOfDay(end)))
    ensures ParseTimeRange(text, None) == Success(Window(TimeOfDay(start), TimeOfDay(start) + (end - start)))
  {
    ParseByFields(text, None, TimeOfDay(start), TimeOfDay(end));
    OrderOfClocks(start, end);
  }

  /** The ordering rule recovers two moments at most a day apart from their
      times of day, up to whole days. */
  lemma OrderOfClocks(start: int, end: int)
    requires 0 < end - start <= MinutesPerDay
    ensures Order(TimeOfDay(start), TimeOfDay(end), None) == Success(Window(TimeOfDay(start), TimeOfDay(start) + (end - start)))
  {
    DurationFromClocks(start, end);
  }

  /** A range within one afternoon, read for `today`. */
  lemma SameDayExample()
    ensures ParseTimeRange("13:00-14:00", ResolveTargetDay(Some("today"))) == Success(Window(780, 840))
  {
    assert Lower("today") == "today";
    assert SessionText(ParkingSession(780, 840)) == "13:00-14:00";
    SessionTextRoundTrip(ParkingSession(780, 840));
  }

  /** A range across midnight, read without a date: a 45-minute window
      ending on the next day. */
  lemma OvernightExample()
    ensures ParseTimeRange("23:30-00:15", None) == Success(Window(1410, 1455))
  {
    assert SessionText(ParkingSession(1410, 1455)) == "23:30-00:15";
    SessionTextRoundTrip(ParkingSession(1410, 1455));
  }

  /** The same range for `Tomorrow` is refused. */
  lemma OvernightTomorrowExample()
    ensures ParseTimeRange("23:30-00:15", ResolveTargetDay(Some("Tomorrow"))) == Failure(EndNotAfterStart)
  {
    assert Lower("Tomorrow") == "tomorrow";
    assert SessionText(ParkingSession(1410, 1455)) == "23:30-00:15";
    SessionTextFields(ParkingSession(1410, 1455));
    DayWordRollover("Tomorrow", "23:30-00:15", 1410, 15);
  }
}
