/**
  `_calculate_sessions`: the greedy split of a parking window into sessions
  of at most `sessionMinutes`, separated by breaks of exactly
  `maxBreakMinutes`. A short remainder at the end is not redistributed: the
  loop stops early and the last session may end before the window does.
 */
module Partition {
  import opened Sessions

  function Min(a: int, b: int): (m: int)
    ensures m <= a && m <= b && (m == a || m == b)
  {
    if a <= b then a else b
  }

  /** The inputs on which the loop stops: a session and a break together
      move `current_time` forward, or the first pass already breaks out
      (or never starts). `Stalls` shows that the loop runs forever on the
      others. */
  predicate Ends(current: int, end: int, sessionMinutes: int, maxBreakMinutes: int) {
    sessionMinutes + maxBreakMinutes > 0 || current >= end || current + 2 * sessionMinutes >= end
  }

  /** Outside `Ends` the loop never stops: the first pass appends a session
      and does not break out, and the next pass starts no later than this
      one, again outside `Ends`. */
  lemma Stalls(current: int, end: int, sessionMinutes: int, maxBreakMinutes: int)
    requires !Ends(current, end, sessionMinutes, maxBreakMinutes)
    ensures current < end
    ensures Min(current + sessionMinutes, end) < end
    ensures end - Min(current + sessionMinutes, end) > sessionMinutes
    ensures Min(current + sessionMinutes, end) + maxBreakMinutes <= current
    ensures !Ends(Min(current + sessionMinutes, end) + maxBreakMinutes, end, sessionMinutes, maxBreakMinutes)
  {
  }

  /** The sessions the loop emits once `current_time` has reached `current`. */
  function Schedule(current: int, end: int, sessionMinutes: int, maxBreakMinutes: int): (r: seq<ParkingSession>)
    requires Ends(current, end, sessionMinutes, maxBreakMinutes)
    ensures |r| > 0 <==> current < end
    ensures |r| > 0 ==> r[0] == ParkingSession(current, Min(current + sessionMinutes, end))
    decreases end - current
  {
    if current >= end then []
    else
      var sessionEnd := Min(current + sessionMinutes, end);
      var session := ParkingSession(current, sessionEnd);
      if sessionEnd >= end || end - sessionEnd <= sessionMinutes then [session]
      else [session] + Schedule(sessionEnd + maxBreakMinutes, end, sessionMinutes, maxBreakMinutes)
  }

  /** The `while` loop itself, proved to emit exactly `Schedule`. */
  method CalculateSessions(start: int, end: int, sessionMinutes: int, maxBreakMinutes: int)
    returns (sessions: seq<ParkingSession>)
    requires Ends(start, end, sessionMinutes, maxBreakMinutes)
    ensures sessions == Schedule(start, end, sessionMinutes, maxBreakMinutes)
  {
    sessions := [];
    var current := start;
    while current < end
      invariant Ends(current, end, sessionMinutes, maxBreakMinutes)
      invariant sessions + Schedule(current, end, sessionMinutes, maxBreakMinutes)
                == Schedule(start, end, sessionMinutes, maxBreakMinutes)
      decreases end - current
    {
      var sessionEnd := Min(current + sessionMinutes, end);
      ghost var emitted := sessions;
      sessions := sessions + [ParkingSession(current, sessionEnd)];
      if sessionEnd >= end {
        break;
      }
      var remaining := end - sessionEnd;
      if remaining <= sessionMinutes {
        break;
      }
      ghost var rest := Schedule(sessionEnd + maxBreakMinutes, end, sessionMinutes, maxBreakMinutes);
      assert Schedule(current, end, sessionMinutes, maxBreakMinutes) == [ParkingSession(current, sessionEnd)] + rest;
      AppendAssociates(emitted, [ParkingSession(current, sessionEnd)], rest);
      current := sessionEnd + maxBreakMinutes;
    }
  }

  lemma AppendAssociates<T>(a: seq<T>, b: seq<T>, c: seq<T>)
    ensures a + (b + c) == (a + b) + c
  {
  }

  /** Where every session of `r` sits: inside the window from `current`,
      running for `sessionMinutes` clipped to the end. */
  predicate Placed(r: seq<ParkingSession>, current: int, end: int, sessionMinutes: int) {
    forall k | 0 <= k < |r| ::
      current <= r[k].startTime < end && r[k].endTime == Min(r[k].startTime + sessionMinutes, end)
  }

  /** How the sessions of `r` follow each other: every session but the last
      is a full one, leaves more than `sessionMinutes` of the window after
      it, and is followed by the next exactly `maxBreakMinutes` later. */
  predicate Chained(r: seq<ParkingSession>, end: int, sessionMinutes: int, maxBreakMinutes: int) {
    forall k | 0 <= k < |r| - 1 ::
      && r[k].endTime == r[k].startTime + sessionMinutes
      && end - r[k].endTime > sessionMinutes
      && r[k + 1].startTime == r[k].endTime + maxBreakMinutes
  }

  lemma {:induction false} Placement(current: int, end: int, sessionMinutes: int, maxBreakMinutes: int)
    requires Ends(current, end, sessionMinutes, maxBreakMinutes)
    ensures Placed(Schedule(current, end, sessionMinutes, maxBreakMinutes), current, end, sessionMinutes)
    decreases end - current
  {
    var r := Schedule(current, end, sessionMinutes, maxBreakMinutes);
    if current < end {
      var sessionEnd := Min(current + sessionMinutes, end);
      if !(sessionEnd >= end || end - sessionEnd <= sessionMinutes) {
        var next := sessionEnd + maxBreakMinutes;
        Placement(next, end, sessionMinutes, maxBreakMinutes);
        var rest := Schedule(next, end, sessionMinutes, maxBreakMinutes);
        assert r == [ParkingSession(current, sessionEnd)] + rest;
        forall k | 1 <= k < |r|
          ensures current <= r[k].startTime < end && r[k].endTime == Min(r[k].startTime + sessionMinutes, end)
        {
          assert r[k] == rest[k - 1];
        }
      }
    }
  }

  lemma {:induction false} Chaining(current: int, end: int, sessionMinutes: int, maxBreakMinutes: int)
    requires Ends(current, end, sessionMinutes, maxBreakMinutes)
    ensures Chained(Schedule(current, end, sessionMinutes, maxBreakMinutes), end, sessionMinutes, maxBreakMinutes)
    decreases end - current
  {
    var r := Schedule(current, end, sessionMinutes, maxBreakMinutes);
    if current < end {
      var sessionEnd := Min(current + sessionMinutes, end);
      if !(sessionEnd >= end || end - sessionEnd <= sessionMinutes) {
        var next := sessionEnd + maxBreakMinutes;
        Chaining(next, end, sessionMinutes, maxBreakMinutes);
        var rest := Schedule(next, end, sessionMinutes, maxBreakMinutes);
        assert r == [ParkingSession(current, sessionEnd)] + rest;
        forall k | 0 <= k < |r| - 1
          ensures r[k].endTime == r[k].startTime + sessionMinutes
          ensures end - r[k].endTime > sessionMinutes
          ensures r[k + 1].startTime == r[k].endTime + maxBreakMinutes
        {
          assert r[k + 1] == rest[k];
          if k > 0 {
            assert r[k] == rest[k - 1];
          }
        }
      }
    }
  }

  /** Every session lies inside the window, lasts between one minute and
      `sessionMinutes`, and all but the last last exactly `sessionMinutes`
      and end before the window does: a session reaching the end is the
      last one. */
  lemma SessionsWithinWindow(start: int, end: int, sessionMinutes: int, maxBreakMinutes: int)
    requires sessionMinutes >= 1 && maxBreakMinutes >= 1
    ensures var r := Schedule(start, end, sessionMinutes, maxBreakMinutes);
            && (forall k | 0 <= k < |r| ::
                  start <= r[k].startTime < r[k].endTime <= end && 1 <= r[k].DurationMinutes() <= sessionMinutes)
            && (forall k | 0 <= k < |r| - 1 :: r[k].DurationMinutes() == sessionMinutes && r[k].endTime < end)
            && (forall k | 0 <= k < |r| && r[k].endTime == end :: k == |r| - 1)
  {
    Placement(start, end, sessionMinutes, maxBreakMinutes);
    Chaining(start, end, sessionMinutes, maxBreakMinutes);
  }

  /** The sessions are in order and never overlap or touch: each ends before
      any later one starts. */
  predicate InOrder(r: seq<ParkingSession>) {
    forall j, k | 0 <= j < k < |r| :: r[j].endTime < r[k].startTime
  }

  lemma {:induction false} Ordered(current: int, end: int, sessionMinutes: int, maxBreakMinutes: int)
    requires sessionMinutes >= 1 && maxBreakMinutes >= 1
    ensures InOrder(Schedule(current, end, sessionMinutes, maxBreakMinutes))
    decreases end - current
  {
    var r := Schedule(current, end, sessionMinutes, maxBreakMinutes);
    if current < end {
      var sessionEnd := Min(current + sessionMinutes, end);
      if !(sessionEnd >= end || end - sessionEnd <= sessionMinutes) {
        var next := sessionEnd + maxBreakMinutes;
        Ordered(next, end, sessionMinutes, maxBreakMinutes);
        Placement(next, end, sessionMinutes, maxBreakMinutes);
        var rest := Schedule(next, end, sessionMinutes, maxBreakMinutes);
        assert r == [ParkingSession(current, sessionEnd)] + rest;
        forall j, k | 0 <= j < k < |r|
          ensures r[j].endTime < r[k].startTime
        {
          assert r[k] == rest[k - 1];
          if j > 0 {
            assert r[j] == rest[j - 1];
          }
        }
      }
    }
  }

  /** The breaks: each session starts exactly `maxBreakMinutes` after the
      previous one ended, so the sessions are in order and never overlap. */
  lemma ExactBreaks(start: int, end: int, sessionMinutes: int, maxBreakMinutes: int)
    requires sessionMinutes >= 1 && maxBreakMinutes >= 1
    ensures var r := Schedule(start, end, sessionMinutes, maxBreakMinutes);
            forall k | 0 <= k < |r| - 1 :: r[k + 1].startTime == r[k].endTime + maxBreakMinutes
    ensures InOrder(Schedule(start, end, sessionMinutes, maxBreakMinutes))
  {
    Chaining(start, end, sessionMinutes, maxBreakMinutes);
    Ordered(start, end, sessionMinutes, maxBreakMinutes);
  }

  /** What is left of the window after the last session: nothing when it
      reached the end, at most `sessionMinutes` when the loop stopped early,
      and otherwise more than `sessionMinutes` but at most `maxBreakMinutes`,
      because the next start jumped past the end. */
  lemma {:induction false} Tail(current: int, end: int, sessionMinutes: int, maxBreakMinutes: int)
    requires Ends(current, end, sessionMinutes, maxBreakMinutes)
    requires current < end
    ensures var r := Schedule(current, end, sessionMinutes, maxBreakMinutes);
            var tail := end - r[|r| - 1].endTime;
            tail == 0 || 0 < tail <= sessionMinutes || sessionMinutes < tail <= maxBreakMinutes
    decreases end - current
  {
    var sessionEnd := Min(current + sessionMinutes, end);
    if !(sessionEnd >= end || end - sessionEnd <= sessionMinutes) {
      var next := sessionEnd + maxBreakMinutes;
      if next < end {
        Tail(next, end, sessionMinutes, maxBreakMinutes);
      }
    }
  }

  /** The minutes booked, summed over the sessions. */
  function TotalMinutes(sessions: seq<ParkingSession>): int
  {
    if |sessions| == 0 then 0 else sessions[0].DurationMinutes() + TotalMinutes(sessions[1..])
  }

  /** Every minute of the window is accounted for: booked, spent in one of
      the breaks, or in the uncovered tail after the last session. */
  lemma {:induction false} Accounting(current: int, end: int, sessionMinutes: int, maxBreakMinutes: int)
    requires Ends(current, end, sessionMinutes, maxBreakMinutes)
    requires current < end
    ensures var r := Schedule(current, end, sessionMinutes, maxBreakMinutes);
            TotalMinutes(r) + (|r| - 1) * maxBreakMinutes + (end - r[|r| - 1].endTime) == end - current
    decreases end - current
  {
    var r := Schedule(current, end, sessionMinutes, maxBreakMinutes);
    var sessionEnd := Min(current + sessionMinutes, end);
    if !(sessionEnd >= end || end - sessionEnd <= sessionMinutes) {
      var next := sessionEnd + maxBreakMinutes;
      var rest := Schedule(next, end, sessionMinutes, maxBreakMinutes);
      if next < end {
        Accounting(next, end, sessionMinutes, maxBreakMinutes);
        assert r == [r[0]] + rest;
        assert r[1..] == rest;
        assert r[|r| - 1] == rest[|rest| - 1];
        assert (|r| - 1) * maxBreakMinutes == (|rest| - 1) * maxBreakMinutes + maxBreakMinutes;
      } else {
        assert r == [r[0]];
      }
    } else {
      assert r == [r[0]];
    }
  }

  /** One hour in sessions of 10 minutes with 5-minute breaks: four sessions,
      the last ending five minutes before the hour is over. */
  lemma HourExample()
    ensures Schedule(0, 60, 10, 5) == [ParkingSession(0, 10), ParkingSession(15, 25),
                                       ParkingSession(30, 40), ParkingSession(45, 55)]
  {
    assert Schedule(45, 60, 10, 5) == [ParkingSession(45, 55)];
    assert Schedule(30, 60, 10, 5) == [ParkingSession(30, 40), ParkingSession(45, 55)];
    assert Schedule(15, 60, 10, 5) == [ParkingSession(15, 25), ParkingSession(30, 40), ParkingSession(45, 55)];
  }
}
