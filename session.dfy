/** `ParkingSession`: one booked slot, an immutable start/end pair of moments
    (minutes after midnight of the base day). */
module Sessions {
  import opened Clock

  datatype ParkingSession = ParkingSession(startTime: int, endTime: int) {

    /** `duration_minutes`: the whole minutes between start and end. */
    function DurationMinutes(): (d: int)
      ensures startTime + d == endTime
      ensures d > 0 <==> startTime < endTime
    {
      endTime - startTime
    }
  }

  /** `__str__`: both ends as `%H:%M`, joined by `-`. */
  function SessionText(s: ParkingSession): (text: string)
    ensures |text| == 11 && text[5] == '-'
  {
    FormatClock(s.startTime) + "-" + FormatClock(s.endTime)
  }
}
