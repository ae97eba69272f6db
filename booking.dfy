/**
  The booking loop of `book_parking_sessions` (lines 448-478): every session
  in schedule order, up to `max_retries` attempts each, exponential backoff
  after a raised error, and the balance error that abandons the run. The
  browser step `_book_single_session` is an executor passed in as a
  function of the session's position and the attempt number; the sleeps
  are recorded as events of a ghost trace instead of being performed.
 */
module Booking {
  import opened Wrappers
  import opened Sessions
  import opened Partition
  import opened TimeRange
  import Text

  /** What one call of the executor does: return True, return False, raise
      some exception, or raise `InsufficientBalanceError`. */
  datatype Outcome = Booked | NotBooked | Raised | RaisedBalance

  /** An executor answers every attempt at every position. Any executor
      whose answers follow from what it was asked before is one of these. */
  type Executor = (nat, nat) -> Outcome

  /** What the loop does, in order: call the executor for a session and an
      attempt, sleep for a backoff, or pause between two sessions (counted in
      half seconds, so that `min(2 + i * 0.5, 5)` seconds stays whole). */
  datatype Event =
    | Call(session: nat, attempt: nat)
    | Backoff(seconds: nat)
    | Pace(halfSeconds: nat)

  /** How the attempts at one session end: booked, out of attempts, or
      stopped by the balance error. */
  datatype Verdict = Succeeded | Exhausted | Halted

  datatype SessionLog = SessionLog(verdict: Verdict, events: seq<Event>)

  function Pow2(n: nat): (p: nat)
    ensures p >= 1
  {
    if n == 0 then 1 else 2 * Pow2(n - 1)
  }

  /** `wait_time = 2 * (2 ** attempt)`: two seconds after the first
      attempt, doubling with every further one. */
  function BackoffSeconds(attempt: nat): (seconds: nat)
    ensures seconds >= 2
    ensures attempt == 0 ==> seconds == 2
  {
    2 * Pow2(attempt)
  }

  /** Each backoff is twice the one before. */
  lemma BackoffDoubles(attempt: nat)
    ensures BackoffSeconds(attempt + 1) == 2 * BackoffSeconds(attempt)
  {
  }

  function Max0(n: int): nat {
    if n > 0 then n else 0
  }

  /** The sleep after an attempt that the loop retries: `2 * 2^attempt`
      seconds after an ordinary exception when another attempt follows,
      nothing otherwise. */
  function Pause(o: Outcome, attempt: nat, retries: int): (p: seq<Event>)
    ensures |p| <= 1
    ensures |p| == 1 <==> o == Raised && attempt < retries - 1
  {
    if o == Raised && attempt < retries - 1 then [Backoff(BackoffSeconds(attempt))] else []
  }

  /** An answer after which the loop tries again. */
  predicate Retried(o: Outcome) {
    o == NotBooked || o == Raised
  }

  /** The inner `for attempt in range(max_retries)` loop from `attempt` on,
      for the session at position `i`. */
  function Attempts(book: Executor, i: nat, attempt: nat, retries: int): (log: SessionLog)
    ensures attempt < retries ==> |log.events| > 0 && log.events[0] == Call(i, attempt)
    decreases retries - attempt
  {
    if attempt >= retries then SessionLog(Exhausted, [])
    else
      var o := book(i, attempt);
      if o == Booked then SessionLog(Succeeded, [Call(i, attempt)])
      else if o == RaisedBalance then SessionLog(Halted, [Call(i, attempt)])
      else
        var rest := Attempts(book, i, attempt + 1, retries);
        SessionLog(rest.verdict, [Call(i, attempt)] + Pause(o, attempt, retries) + rest.events)
  }

  /** The attempt numbers of the executor calls among `events`, in order. */
  function Attempted(events: seq<Event>): seq<nat> {
    if |events| == 0 then []
    else (if events[0].Call? then [events[0].attempt] else []) + Attempted(events[1..])
  }

  lemma {:induction false} AttemptedAppend(a: seq<Event>, b: seq<Event>)
    ensures Attempted(a + b) == Attempted(a) + Attempted(b)
  {
    if |a| == 0 {
      assert a + b == b;
    } else {
      var h := if a[0].Call? then [a[0].attempt] else [];
      assert (a + b)[0] == a[0];
      assert (a + b)[1..] == a[1..] + b;
      AttemptedAppend(a[1..], b);
      AppendAssociates(h, Attempted(a[1..]), Attempted(b));
    }
  }

  /** One attempt that the loop retries adds its own number in front of the
      later ones. */
  lemma AttemptedStep(book: Executor, i: nat, attempt: nat, retries: int)
    requires attempt < retries && Retried(book(i, attempt))
    ensures Attempted(Attempts(book, i, attempt, retries).events)
            == [attempt] + Attempted(Attempts(book, i, attempt + 1, retries).events)
  {
    var o := book(i, attempt);
    var rest := Attempts(book, i, attempt + 1, retries).events;
    AttemptedAppend([Call(i, attempt)], Pause(o, attempt, retries));
    AttemptedAppend([Call(i, attempt)] + Pause(o, attempt, retries), rest);
    assert Attempted(Pause(o, attempt, retries)) == [];
  }

  /** The attempts at one session are numbered consecutively from `attempt`
      and are no more than the attempts left. */
  predicate Numbered(tried: seq<nat>, attempt: nat, retries: int) {
    && |tried| <= Max0(retries - attempt)
    && forall j | 0 <= j < |tried| :: tried[j] == attempt + j
  }

  lemma {:induction false} AttemptsNumbered(book: Executor, i: nat, attempt: nat, retries: int)
    ensures Numbered(Attempted(Attempts(book, i, attempt, retries).events), attempt, retries)
    decreases retries - attempt
  {
    if attempt < retries {
      if Retried(book(i, attempt)) {
        AttemptsNumbered(book, i, attempt + 1, retries);
        AttemptedStep(book, i, attempt, retries);
      } else {
        assert Attempted(Attempts(book, i, attempt, retries).events) == [attempt];
      }
    }
  }

  /** How the attempts at one session end: every attempt but the last was
      retried, the verdict is read off the last answer, and a session runs
      out of attempts only after using all of them. */
  predicate Concluded(log: SessionLog, book: Executor, i: nat, attempt: nat, retries: int) {
    var tried := Attempted(log.events);
    && (forall j | 0 <= j < |tried| - 1 :: Retried(book(i, tried[j])))
    && (log.verdict == Succeeded <==> |tried| > 0 && book(i, tried[|tried| - 1]) == Booked)
    && (log.verdict == Halted <==> |tried| > 0 && book(i, tried[|tried| - 1]) == RaisedBalance)
    && (log.verdict == Exhausted <==> |tried| == Max0(retries - attempt) && (|tried| == 0 || Retried(book(i, tried[|tried| - 1]))))
  }

  lemma {:induction false} AttemptsConcluded(book: Executor, i: nat, attempt: nat, retries: int)
    ensures Concluded(Attempts(book, i, attempt, retries), book, i, attempt, retries)
    decreases retries - attempt
  {
    if attempt < retries {
      if Retried(book(i, attempt)) {
        AttemptsConcluded(book, i, attempt + 1, retries);
        AttemptedStep(book, i, attempt, retries);
        AttemptsNumbered(book, i, attempt + 1, retries);
      } else {
        assert Attempted(Attempts(book, i, attempt, retries).events) == [attempt];
      }
    }
  }

  /** The backoff rule on the events of one session: a backoff of
      `2 * 2^a` seconds directly follows the call for attempt `a` exactly
      when that call raised an ordinary error and was not the last attempt,
      and the call for the next attempt directly follows it. */
  predicate BackoffRule(events: seq<Event>, book: Executor, i: nat, retries: int) {
    && (forall j | 0 <= j < |events| && events[j].Backoff? :: BackoffAt(events, j, book, i, retries))
    && (forall j | 0 <= j < |events| && events[j].Call? :: CallAt(events, j, book, i, retries))
  }

  /** The backoff at `j` follows a raised call that was not the last attempt,
      lasts the backoff for that attempt and is followed by the next attempt. */
  predicate BackoffAt(events: seq<Event>, j: nat, book: Executor, i: nat, retries: int)
    requires j < |events| && events[j].Backoff?
  {
    && 0 < j < |events| - 1
    && events[j - 1].Call?
    && book(i, events[j - 1].attempt) == Raised
    && events[j - 1].attempt < retries - 1
    && events[j].seconds == BackoffSeconds(events[j - 1].attempt)
    && events[j + 1] == Call(i, events[j - 1].attempt + 1)
  }

  /** The call at `j` is for session `i`, and is followed by its backoff when
      it raised an ordinary error and was not the last attempt. */
  predicate CallAt(events: seq<Event>, j: nat, book: Executor, i: nat, retries: int)
    requires j < |events| && events[j].Call?
  {
    && events[j].session == i
    && (book(i, events[j].attempt) == Raised && events[j].attempt < retries - 1 ==>
          j + 1 < |events| && events[j + 1] == Backoff(BackoffSeconds(events[j].attempt)))
  }

  lemma {:induction false} AttemptsBackoff(book: Executor, i: nat, attempt: nat, retries: int)
    ensures BackoffRule(Attempts(book, i, attempt, retries).events, book, i, retries)
    decreases retries - attempt
  {
    var events := Attempts(book, i, attempt, retries).events;
    if attempt < retries {
      var o := book(i, attempt);
      if Retried(o) {
        var head := [Call(i, attempt)] + Pause(o, attempt, retries);
        var rest := Attempts(book, i, attempt + 1, retries).events;
        AttemptsBackoff(book, i, attempt + 1, retries);
        assert events == head + rest;
        ShiftedBackoffs(head, rest, book, i, retries);
        ShiftedCalls(head, rest, book, i, retries);
      } else {
        assert events == [Call(i, attempt)];
        assert CallAt(events, 0, book, i, retries);
      }
    }
  }

  /** The shape of the events that one retried attempt puts in front of the
      later ones. */
  predicate RetriedHead(head: seq<Event>, rest: seq<Event>, book: Executor, i: nat, retries: int) {
    && (|head| == 1 || |head| == 2)
    && head[0].Call? && head[0].session == i
    && (|head| == 2 <==> book(i, head[0].attempt) == Raised && head[0].attempt < retries - 1)
    && (|head| == 2 ==> && head[1] == Backoff(BackoffSeconds(head[0].attempt))
                        && |rest| > 0 && rest[0] == Call(i, head[0].attempt + 1))
  }

  lemma ShiftedBackoffs(head: seq<Event>, rest: seq<Event>, book: Executor, i: nat, retries: int)
    requires RetriedHead(head, rest, book, i, retries)
    requires forall j | 0 <= j < |rest| && rest[j].Backoff? :: BackoffAt(rest, j, book, i, retries)
    ensures forall j | 0 <= j < |head + rest| && (head + rest)[j].Backoff? :: BackoffAt(head + rest, j, book, i, retries)
  {
    var events := head + rest;
    forall j | 0 <= j < |events| && events[j].Backoff?
      ensures BackoffAt(events, j, book, i, retries)
    {
      if j > |head| {
        assert BackoffAt(rest, j - |head|, book, i, retries);
        assert events[j - 1] == rest[j - 1 - |head|];
        assert events[j + 1] == rest[j + 1 - |head|];
      }
    }
  }

  lemma ShiftedCalls(head: seq<Event>, rest: seq<Event>, book: Executor, i: nat, retries: int)
    requires RetriedHead(head, rest, book, i, retries)
    requires forall j | 0 <= j < |rest| && rest[j].Call? :: CallAt(rest, j, book, i, retries)
    ensures forall j | 0 <= j < |head + rest| && (head + rest)[j].Call? :: CallAt(head + rest, j, book, i, retries)
  {
    var events := head + rest;
    forall j | 0 <= j < |events| && events[j].Call?
      ensures CallAt(events, j, book, i, retries)
    {
      if j >= |head| {
        assert CallAt(rest, j - |head|, book, i, retries);
        assert events[j] == rest[j - |head|];
        if j + 1 < |events| {
          assert events[j + 1] == rest[j + 1 - |head|];
        }
      }
    }
  }

  /** One attempt that the loop retries, then the attempts after it. */
  lemma AttemptsStep(book: Executor, i: nat, attempt: nat, retries: int)
    requires attempt < retries && Retried(book(i, attempt))
    ensures Attempts(book, i, attempt, retries).verdict == Attempts(book, i, attempt + 1, retries).verdict
    ensures Attempts(book, i, attempt, retries).events
            == [Call(i, attempt)] + Pause(book(i, attempt), attempt, retries) + Attempts(book, i, attempt + 1, retries).events
  {
  }

  /** The retry loop, proved to do what `Attempts` describes. */
  method TrySession(book: Executor, i: nat, retries: int) returns (verdict: Verdict, ghost events: seq<Event>)
    ensures verdict == Attempts(book, i, 0, retries).verdict
    ensures events == Attempts(book, i, 0, retries).events
  {
    events := [];
    var attempt: nat := 0;
    while attempt < retries
      invariant Attempts(book, i, 0, retries).verdict == Attempts(book, i, attempt, retries).verdict
      invariant Attempts(book, i, 0, retries).events == events + Attempts(book, i, attempt, retries).events
      decreases retries - attempt
    {
      var outcome := book(i, attempt);
      if outcome == Booked {
        events := events + [Call(i, attempt)];
        return Succeeded, events;
      } else if outcome == RaisedBalance {
        events := events + [Call(i, attempt)];
        return Halted, events;
      }
      ghost var before := events;
      events := events + [Call(i, attempt)];
      if outcome == Raised && attempt < retries - 1 {
        events := events + [Backoff(BackoffSeconds(attempt))];
      }
      ghost var step := [Call(i, attempt)] + Pause(outcome, attempt, retries);
      assert events == before + step;
      AttemptsStep(book, i, attempt, retries);
      AppendAssociates(before, step, Attempts(book, i, attempt + 1, retries).events);
      attempt := attempt + 1;
    }
    return Exhausted, events;
  }

  /** The pause after the `k`-th session (counted from 0) when another one
      follows: `min(2 + i * 0.5, 5)` seconds with `i = k + 1`, in half
      seconds. */
  function Pacing(k: nat, count: nat): (p: seq<Event>)
    ensures |p| <= 1
    ensures |p| == 1 <==> k + 1 < count
    ensures |p| == 1 ==> p[0].Pace? && 5 <= p[0].halfSeconds <= 10
  {
    if k + 1 < count then [Pace(Min(5 + k, 10))] else []
  }

  /** The lists `successful` and `failed` of `book_parking_sessions`,
      whether the balance error stopped the run, and the trace of calls and
      sleeps. */
  datatype Run = Run(successful: seq<ParkingSession>, failed: seq<ParkingSession>, halted: bool, events: seq<Event>)

  /** The verdict of the attempts at the `k`-th session. */
  function VerdictAt(book: Executor, k: nat, retries: int): Verdict {
    Attempts(book, k, 0, retries).verdict
  }

  /** The outer `for` loop after its first `k` passes; once the balance error
      has stopped it, nothing more happens. */
  function Progress(sessions: seq<ParkingSession>, retries: int, book: Executor, k: nat): (run: Run)
    requires k <= |sessions|
    ensures |run.successful| + |run.failed| == if run.halted then |sessions| else k
  {
    if k == 0 then Run([], [], false, [])
    else
      var prev := Progress(sessions, retries, book, k - 1);
      if prev.halted then prev else Step(sessions, retries, book, k - 1, prev)
  }

  /** One pass of the outer loop, for the `k`-th session: the balance error
      marks it and every later session failed; otherwise the session goes to
      `successful` or `failed` and the pause before the next one follows. */
  function Step(sessions: seq<ParkingSession>, retries: int, book: Executor, k: nat, prev: Run): (run: Run)
    requires k < |sessions|
    ensures run.halted <==> VerdictAt(book, k, retries) == Halted
    ensures |run.successful| + |run.failed|
            == |prev.successful| + |prev.failed| + if run.halted then |sessions| - k else 1
  {
    var log := Attempts(book, k, 0, retries);
    match log.verdict
    case Halted => Run(prev.successful, prev.failed + sessions[k..], true, prev.events + log.events)
    case Succeeded =>
      Run(prev.successful + [sessions[k]], prev.failed, false, prev.events + log.events + Pacing(k, |sessions|))
    case Exhausted =>
      Run(prev.successful, prev.failed + [sessions[k]], false, prev.events + log.events + Pacing(k, |sessions|))
  }

  /** A pass only adds to the lists and the trace: nothing recorded is taken back. */
  lemma StepExtends(sessions: seq<ParkingSession>, retries: int, book: Executor, k: nat, prev: Run)
    requires k < |sessions|
    ensures prev.successful <= Step(sessions, retries, book, k, prev).successful
    ensures prev.failed <= Step(sessions, retries, book, k, prev).failed
    ensures prev.events <= Step(sessions, retries, book, k, prev).events
  {
  }

  /** The outer loop of `book_parking_sessions`, proved to do what
      `Progress` describes. */
  method BookSessions(sessions: seq<ParkingSession>, retries: int, book: Executor)
    returns (successful: seq<ParkingSession>, failed: seq<ParkingSession>, halted: bool, ghost events: seq<Event>)
    ensures successful == Progress(sessions, retries, book, |sessions|).successful
    ensures failed == Progress(sessions, retries, book, |sessions|).failed
    ensures halted == Progress(sessions, retries, book, |sessions|).halted
    ensures events == Progress(sessions, retries, book, |sessions|).events
  {
    successful, failed, halted, events := [], [], false, [];
    var k := 0;
    while k < |sessions|
      invariant k <= |sessions|
      invariant !Progress(sessions, retries, book, k).halted
      invariant Progress(sessions, retries, book, k).successful == successful
      invariant Progress(sessions, retries, book, k).failed == failed
      invariant Progress(sessions, retries, book, k).events == events
    {
      ghost var before := events;
      var verdict, log := TrySession(book, k, retries);
      events := events + log;
      if verdict == Halted {
        failed := failed + sessions[k..];
        Halts(sessions, retries, book, k);
        return successful, failed, true, events;
      }
      if verdict == Succeeded {
        successful := successful + [sessions[k]];
      } else {
        failed := failed + [sessions[k]];
      }
      if k + 1 < |sessions| {
        events := events + [Pace(Min(5 + k, 10))];
      }
      assert events == before + log + Pacing(k, |sessions|);
      Passed(sessions, retries, book, k);
      k := k + 1;
    }
  }

  /** A pass without the balance error records the session under its
      verdict and adds its attempts and the pause to the trace. */
  lemma Passed(sessions: seq<ParkingSession>, retries: int, book: Executor, k: nat)
    requires k < |sessions| && !Progress(sessions, retries, book, k).halted
    requires VerdictAt(book, k, retries) != Halted
    ensures var prev, next := Progress(sessions, retries, book, k), Progress(sessions, retries, book, k + 1);
            && !next.halted
            && next.successful == prev.successful + (if VerdictAt(book, k, retries) == Succeeded then [sessions[k]] else [])
            && next.failed == prev.failed + (if VerdictAt(book, k, retries) == Exhausted then [sessions[k]] else [])
            && next.events == prev.events + Attempts(book, k, 0, retries).events + Pacing(k, |sessions|)
  {
  }

  /** A pass with the balance error ends the run: the session and every
      later one are failed, and its attempts close the trace. */
  lemma Halts(sessions: seq<ParkingSession>, retries: int, book: Executor, k: nat)
    requires k < |sessions| && !Progress(sessions, retries, book, k).halted
    requires VerdictAt(book, k, retries) == Halted
    ensures var prev, last := Progress(sessions, retries, book, k), Progress(sessions, retries, book, |sessions|);
            && last.halted
            && last.successful == prev.successful
            && last.failed == prev.failed + sessions[k..]
            && last.events == prev.events + Attempts(book, k, 0, retries).events
  {
    var prev := Progress(sessions, retries, book, k);
    var log := Attempts(book, k, 0, retries);
    assert log.verdict == Halted;
    assert Step(sessions, retries, book, k, prev) == Run(prev.successful, prev.failed + sessions[k..], true, prev.events + log.events);
    assert Progress(sessions, retries, book, k + 1) == Step(sessions, retries, book, k, prev);
    HaltPersists(sessions, retries, book, k + 1, |sessions|);
  }

  /** Once stopped, the run stays as it is. */
  lemma {:induction false} HaltPersists(sessions: seq<ParkingSession>, retries: int, book: Executor, k: nat, n: nat)
    requires k <= n <= |sessions|
    requires Progress(sessions, retries, book, k).halted
    ensures Progress(sessions, retries, book, n) == Progress(sessions, retries, book, k)
    decreases n - k
  {
    if k < n {
      HaltPersists(sessions, retries, book, k + 1, n);
    }
  }

  /** No balance error among the first `n` sessions. */
  predicate NoHalt(retries: int, book: Executor, n: nat) {
    forall k | 0 <= k < n :: VerdictAt(book, k, retries) != Halted
  }

  /** The first `n` sessions whose attempts ended with `verdict`, in order. */
  function Kept(sessions: seq<ParkingSession>, retries: int, book: Executor, verdict: Verdict, n: nat): seq<ParkingSession>
    requires n <= |sessions|
  {
    if n == 0 then []
    else Kept(sessions, retries, book, verdict, n - 1)
         + (if VerdictAt(book, n - 1, retries) == verdict then [sessions[n - 1]] else [])
  }

  /** Without the balance error, the first `n` passes put each session in
      `successful` or `failed` by its own verdict, in schedule order. */
  lemma {:induction false} Sorted(sessions: seq<ParkingSession>, retries: int, book: Executor, n: nat)
    requires n <= |sessions|
    requires NoHalt(retries, book, n)
    ensures !Progress(sessions, retries, book, n).halted
    ensures Progress(sessions, retries, book, n).successful == Kept(sessions, retries, book, Succeeded, n)
    ensures Progress(sessions, retries, book, n).failed == Kept(sessions, retries, book, Exhausted, n)
  {
    if n > 0 {
      Sorted(sessions, retries, book, n - 1);
      assert VerdictAt(book, n - 1, retries) != Halted;
      var prev := Progress(sessions, retries, book, n - 1);
      assert Progress(sessions, retries, book, n) == Step(sessions, retries, book, n - 1, prev);
    }
  }

  /** The balance error at session `h`: the run stops there, keeps what the
      earlier sessions achieved, and counts `h` and every later session as
      failed. */
  lemma Stopped(sessions: seq<ParkingSession>, retries: int, book: Executor, h: nat)
    requires h < |sessions|
    requires NoHalt(retries, book, h) && VerdictAt(book, h, retries) == Halted
    ensures Progress(sessions, retries, book, |sessions|).halted
    ensures Progress(sessions, retries, book, |sessions|).successful == Kept(sessions, retries, book, Succeeded, h)
    ensures Progress(sessions, retries, book, |sessions|).failed
            == Kept(sessions, retries, book, Exhausted, h) + sessions[h..]
  {
    Sorted(sessions, retries, book, h);
    HaltPersists(sessions, retries, book, h + 1, |sessions|);
  }

  /** The session positions of the executor calls among `events`, in order. */
  function Visited(events: seq<Event>): seq<nat> {
    if |events| == 0 then []
    else (if events[0].Call? then [events[0].session] else []) + Visited(events[1..])
  }

  lemma {:induction false} VisitedAppend(a: seq<Event>, b: seq<Event>)
    ensures Visited(a + b) == Visited(a) + Visited(b)
  {
    if |a| == 0 {
      assert a + b == b;
    } else {
      var h := if a[0].Call? then [a[0].session] else [];
      assert (a + b)[0] == a[0];
      assert (a + b)[1..] == a[1..] + b;
      VisitedAppend(a[1..], b);
      AppendAssociates(h, Visited(a[1..]), Visited(b));
    }
  }

  /** Events that call the executor for session `i` only. */
  lemma {:induction false} VisitedOnly(events: seq<Event>, i: nat)
    requires forall j | 0 <= j < |events| && events[j].Call? :: events[j].session == i
    ensures forall j | 0 <= j < |Visited(events)| :: Visited(events)[j] == i
  {
    if |events| > 0 {
      VisitedOnly(events[1..], i);
    }
  }

  /** Sessions visited one after the other, none of them at `bound` or later. */
  predicate InSessionOrder(v: seq<nat>, bound: nat) {
    && (forall j | 0 <= j < |v| :: v[j] < bound)
    && (forall j, k | 0 <= j < k < |v| :: v[j] <= v[k])
  }

  lemma OrderExtends(v: seq<nat>, w: seq<nat>, m: nat)
    requires InSessionOrder(v, m)
    requires forall j | 0 <= j < |w| :: w[j] == m
    ensures InSessionOrder(v + w, m + 1)
  {
  }

  /** One pass adds the calls of its own session's attempts to the trace. */
  lemma StepVisited(sessions: seq<ParkingSession>, retries: int, book: Executor, k: nat, prev: Run)
    requires k < |sessions|
    ensures Visited(Step(sessions, retries, book, k, prev).events)
            == Visited(prev.events) + Visited(Attempts(book, k, 0, retries).events)
  {
    var log := Attempts(book, k, 0, retries);
    var pacing := if log.verdict == Halted then [] else Pacing(k, |sessions|);
    assert Step(sessions, retries, book, k, prev).events == prev.events + log.events + pacing;
    VisitedAppend(prev.events, log.events);
    VisitedAppend(prev.events + log.events, pacing);
    assert Visited(pacing) == [];
  }

  /** The attempts at the `k`-th session call the executor for that session only. */
  lemma OwnVisits(book: Executor, k: nat, retries: int)
    ensures forall j | 0 <= j < |Visited(Attempts(book, k, 0, retries).events)| ::
              Visited(Attempts(book, k, 0, retries).events)[j] == k
  {
    var events := Attempts(book, k, 0, retries).events;
    AttemptsBackoff(book, k, 0, retries);
    assert forall j | 0 <= j < |events| && events[j].Call? :: CallAt(events, j, book, k, retries);
    VisitedOnly(events, k);
  }

  /** The executor is called for the sessions in schedule order, and only
      for the first `n` of them during the first `n` passes. */
  lemma {:induction false} CallsInOrder(sessions: seq<ParkingSession>, retries: int, book: Executor, n: nat)
    requires n <= |sessions|
    ensures InSessionOrder(Visited(Progress(sessions, retries, book, n).events), n)
  {
    if n > 0 {
      var prev := Progress(sessions, retries, book, n - 1);
      CallsInOrder(sessions, retries, book, n - 1);
      if prev.halted {
        assert Progress(sessions, retries, book, n) == prev;
      } else {
        assert Progress(sessions, retries, book, n) == Step(sessions, retries, book, n - 1, prev);
        StepInOrder(sessions, retries, book, n - 1, prev);
      }
    }
  }

  /** A pass for the `k`-th session keeps the trace in schedule order. */
  lemma StepInOrder(sessions: seq<ParkingSession>, retries: int, book: Executor, k: nat, prev: Run)
    requires k < |sessions| && InSessionOrder(Visited(prev.events), k)
    ensures InSessionOrder(Visited(Step(sessions, retries, book, k, prev).events), k + 1)
  {
    StepVisited(sessions, retries, book, k, prev);
    OwnVisits(book, k, retries);
    OrderExtends(Visited(prev.events), Visited(Attempts(book, k, 0, retries).events), k);
  }

  /** After the balance error at session `h`, no later session is tried. */
  lemma NothingAfterHalt(sessions: seq<ParkingSession>, retries: int, book: Executor, h: nat)
    requires h < |sessions|
    requires NoHalt(retries, book, h) && VerdictAt(book, h, retries) == Halted
    ensures InSessionOrder(Visited(Progress(sessions, retries, book, |sessions|).events), h + 1)
  {
    Sorted(sessions, retries, book, h);
    CallsInOrder(sessions, retries, book, h + 1);
    HaltPersists(sessions, retries, book, h + 1, |sessions|);
  }

  /** A balance error somewhere among the first `n` sessions has a first
      occurrence. */
  lemma {:induction false} FirstHalt(retries: int, book: Executor, n: nat) returns (h: nat)
    requires !NoHalt(retries, book, n)
    ensures h < n && NoHalt(retries, book, h) && VerdictAt(book, h, retries) == Halted
  {
    if NoHalt(retries, book, n - 1) {
      h := n - 1;
    } else {
      h := FirstHalt(retries, book, n - 1);
    }
  }

  /** A verdict is missing from the first `n` sessions exactly when none of
      them reached it. */
  lemma {:induction false} KeptNone(sessions: seq<ParkingSession>, retries: int, book: Executor, verdict: Verdict, n: nat)
    requires n <= |sessions|
    ensures |Kept(sessions, retries, book, verdict, n)| == 0 <==> forall k | 0 <= k < n :: VerdictAt(book, k, retries) != verdict
  {
    if n > 0 {
      KeptNone(sessions, retries, book, verdict, n - 1);
    }
  }

  /** An executor that never raises, as `_book_single_session` is written:
      it turns every exception into False. */
  ghost predicate Swallows(book: Executor) {
    forall i: nat, attempt: nat :: book(i, attempt) == Booked || book(i, attempt) == NotBooked
  }

  /** With such an executor the balance error never stops the run and no
      attempt is followed by a backoff: a failed attempt is retried at once. */
  lemma SwallowingExecutor(retries: int, book: Executor, n: nat)
    requires Swallows(book)
    ensures NoHalt(retries, book, n)
    ensures forall k: nat, j | 0 <= j < |Attempts(book, k, 0, retries).events| :: !Attempts(book, k, 0, retries).events[j].Backoff?
  {
    forall k: nat | k < n
      ensures VerdictAt(book, k, retries) != Halted
    {
      AttemptsConcluded(book, k, 0, retries);
      AttemptsNumbered(book, k, 0, retries);
    }
    forall k: nat, j | 0 <= j < |Attempts(book, k, 0, retries).events|
      ensures !Attempts(book, k, 0, retries).events[j].Backoff?
    {
      AttemptsBackoff(book, k, 0, retries);
    }
  }

  /** The settings `book_parking_sessions` takes from its configuration. */
  datatype Config = Config(sessionMinutes: int, maxBreakMinutes: int, maxRetries: int)

  /** `session_duration_minutes`, `max_break_minutes` and `max_retries` when
      the configuration file leaves them out. */
  const Defaults: Config := Config(10, 5, 3)

  /** `value or default` on an optional integer: nothing and 0 both fall
      back. */
  function OrDefault(arg: Option<int>, fallback: int): (v: int)
    ensures arg.Some? && arg.value != 0 ==> v == arg.value
    ensures arg.None? || arg.value == 0 ==> v == fallback
  {
    if arg.Some? && arg.value != 0 then arg.value else fallback
  }

  /** The two loops stop on what the time range parses to. */
  predicate PlanEnds(timeRange: string, target: Option<TargetDay>, sessionMinutes: int, maxBreakMinutes: int) {
    var parsed := ParseTimeRange(timeRange, target);
    parsed.Success? ==> Ends(parsed.value.start, parsed.value.end, sessionMinutes, maxBreakMinutes)
  }

  /** The time range parsed and split into sessions, or the parse error. */
  function Plan(timeRange: string, target: Option<TargetDay>, sessionMinutes: int, maxBreakMinutes: int)
    : (r: Result<seq<ParkingSession>, RangeError>)
    requires PlanEnds(timeRange, target, sessionMinutes, maxBreakMinutes)
    ensures r.Failure? <==> ParseTimeRange(timeRange, target).Failure?
    ensures r.Success? ==> |r.value| >= 1
  {
    match ParseTimeRange(timeRange, target)
    case Failure(e) => Failure(e)
    case Success(w) => Success(Schedule(w.start, w.end, sessionMinutes, maxBreakMinutes))
  }

  /** The arguments of `book_parking_sessions`. */
  datatype Request = Request(timeRange: string, sessionArg: Option<int>, breakArg: Option<int>, dayArg: Option<string>)

  /** The session and break lengths a request asks for. */
  function Lengths(req: Request, config: Config): (int, int) {
    (OrDefault(req.sessionArg, config.sessionMinutes), OrDefault(req.breakArg, config.maxBreakMinutes))
  }

  function Planned(req: Request, config: Config): Result<seq<ParkingSession>, RangeError>
    requires BookingEnds(req, config)
  {
    Plan(req.timeRange, ResolveTargetDay(req.dayArg), Lengths(req, config).0, Lengths(req, config).1)
  }

  predicate BookingEnds(req: Request, config: Config) {
    PlanEnds(req.timeRange, ResolveTargetDay(req.dayArg), Lengths(req, config).0, Lengths(req, config).1)
  }

  /** A day that is neither `today` nor `tomorrow` and that `%Y-%m-%d` does
      not read as a calendar date. */
  predicate DateRejected(req: Request, isDate: string -> bool) {
    var target := ResolveTargetDay(req.dayArg);
    target.Some? && target.value.OnDate? && !isDate(target.value.text)
  }

  /** The dictionary `book_parking_sessions` returns, without the cost. */
  datatype Stats = Stats(total: nat, successful: nat, failed: nat)

  /** `book_parking_sessions`: None when the day or the range is refused,
      the browser cannot be set up or logged in, or the balance error stops
      the run; the counts of the run otherwise. */
  function Booking(req: Request, config: Config, isDate: string -> bool, setupFails: bool, book: Executor)
    : (result: Option<Stats>)
    requires BookingEnds(req, config)
    ensures result.Some? ==> result.value.total >= 1
    ensures result.Some? ==> result.value.successful + result.value.failed == result.value.total
  {
    if DateRejected(req, isDate) then None
    else match Planned(req, config)
      case Failure(_) => None
      case Success(sessions) =>
        if setupFails then None
        else
          var run := Progress(sessions, config.maxRetries, book, |sessions|);
          if run.halted then None else Some(Stats(|sessions|, |run.successful|, |run.failed|))
  }

  /** `book_parking_sessions` step by step: the day, the range, the split,
      the browser set-up, then the booking loop. */
  method BookParkingSessions(req: Request, config: Config, isDate: string -> bool, setupFails: bool, book: Executor)
    returns (result: Option<Stats>)
    requires BookingEnds(req, config)
    ensures result == Booking(req, config, isDate, setupFails, book)
  {
    var target := ResolveTargetDay(req.dayArg);
    if target.Some? && target.value.OnDate? && !isDate(target.value.text) {
      return None;
    }
    var sessionMinutes := OrDefault(req.sessionArg, config.sessionMinutes);
    var maxBreakMinutes := OrDefault(req.breakArg, config.maxBreakMinutes);
    var parsed := ParseTimeRange(req.timeRange, target);
    if parsed.Failure? {
      return None;
    }
    var sessions := CalculateSessions(parsed.value.start, parsed.value.end, sessionMinutes, maxBreakMinutes);
    if setupFails {
      return None;
    }
    var successful, failed, halted, events := BookSessions(sessions, config.maxRetries, book);
    if halted {
      return None;
    }
    return Some(Stats(|sessions|, |successful|, |failed|));
  }

  /** The exit status `main` gives a booking result. */
  function ExitCode(result: Option<Stats>): (code: int)
    ensures code == 1 <==> result.None?
    ensures code == 2 <==> result.Some? && result.value.failed > 0
    ensures code == 0 <==> result.Some? && result.value.failed == 0
  {
    match result
    case None => 1
    case Some(stats) => if stats.failed > 0 then 2 else 0
  }

  /** Exit status 1 when the day, the range or the browser fails, or the
      balance runs out; otherwise 0 when every session was booked and 2 when
      some session used up its attempts. */
  lemma ExitCodes(req: Request, config: Config, isDate: string -> bool, setupFails: bool, book: Executor)
    requires BookingEnds(req, config)
    ensures var code := ExitCode(Booking(req, config, isDate, setupFails, book));
            var plan := Planned(req, config);
            var proceeds := !DateRejected(req, isDate) && plan.Success? && !setupFails;
            && (code == 1 <==> !proceeds || !NoHalt(config.maxRetries, book, |plan.value|))
            && (code == 0 <==> proceeds && forall k | 0 <= k < |plan.value| :: VerdictAt(book, k, config.maxRetries) == Succeeded)
            && (code == 2 <==> proceeds && NoHalt(config.maxRetries, book, |plan.value|)
                               && exists k | 0 <= k < |plan.value| :: VerdictAt(book, k, config.maxRetries) == Exhausted)
  {
    var plan := Planned(req, config);
    if !DateRejected(req, isDate) && plan.Success? && !setupFails {
      var sessions := plan.value;
      var retries := config.maxRetries;
      if NoHalt(retries, book, |sessions|) {
        Sorted(sessions, retries, book, |sessions|);
        KeptNone(sessions, retries, book, Exhausted, |sessions|);
      } else {
        var h := FirstHalt(retries, book, |sessions|);
        Stopped(sessions, retries, book, h);
      }
    }
  }

  /** With the default configuration and arguments that are absent or not
      negative, sessions and breaks last at least a minute, so the split
      stops on every range and the booking precondition always holds. */
  lemma DefaultsEnd(req: Request)
    requires req.sessionArg.None? || req.sessionArg.value >= 0
    requires req.breakArg.None? || req.breakArg.value >= 0
    ensures Lengths(req, Defaults).0 >= 1 && Lengths(req, Defaults).1 >= 1
    ensures BookingEnds(req, Defaults)
  {
  }

  /** The command line of `main`. */
  datatype Command = Command(timeRange: string, sessionArg: Option<int>, breakArg: Option<int>, tomorrow: bool, dryRun: bool)

  /** The booking request `main` makes: `--tomorrow` is the only day it can
      ask for. */
  function RequestOf(cmd: Command): Request {
    Request(cmd.timeRange, cmd.sessionArg, cmd.breakArg, if cmd.tomorrow then Some("tomorrow") else None)
  }

  /** The lengths a dry run uses, and that the loop stops on its window. */
  predicate DryRunEnds(cmd: Command, config: Config) {
    PlanEnds(cmd.timeRange, None, OrDefault(cmd.sessionArg, config.sessionMinutes), OrDefault(cmd.breakArg, config.maxBreakMinutes))
  }

  /** `--dry-run`: the range is read for today whatever the day option says,
      and split into sessions; nothing is booked. */
  method DryRun(cmd: Command, config: Config) returns (r: Result<seq<ParkingSession>, RangeError>)
    requires DryRunEnds(cmd, config)
    ensures r == Plan(cmd.timeRange, None, OrDefault(cmd.sessionArg, config.sessionMinutes), OrDefault(cmd.breakArg, config.maxBreakMinutes))
  {
    var parsed := ParseTimeRange(cmd.timeRange, None);
    if parsed.Failure? {
      return Failure(parsed.error);
    }
    var sessions := CalculateSessions(parsed.value.start, parsed.value.end,
                                      OrDefault(cmd.sessionArg, config.sessionMinutes),
                                      OrDefault(cmd.breakArg, config.maxBreakMinutes));
    return Success(sessions);
  }

  predicate MainEnds(cmd: Command, config: Config) {
    if cmd.dryRun then DryRunEnds(cmd, config) else BookingEnds(RequestOf(cmd), config)
  }

  /** The exit status of `main`: a dry run exits 0 after printing the
      sessions and 1 when the range is refused; a booking run exits with the
      status of its result. */
  function MainExit(cmd: Command, config: Config, setupFails: bool, book: Executor): (code: int)
    requires MainEnds(cmd, config)
    ensures code == 0 || code == 1 || code == 2
    ensures cmd.dryRun ==> code != 2
  {
    if cmd.dryRun then
      match Plan(cmd.timeRange, None, OrDefault(cmd.sessionArg, config.sessionMinutes), OrDefault(cmd.breakArg, config.maxBreakMinutes))
      case Failure(_) => 1
      case Success(_) => 0
    else
      ExitCode(Booking(RequestOf(cmd), config, d => true, setupFails, book))
  }

  /** A dry run never touches the browser: its status depends on the range
      alone, and `--tomorrow` does not change it. */
  lemma DryRunExit(cmd: Command, config: Config, setupFails: bool, book: Executor)
    requires cmd.dryRun && MainEnds(cmd, config)
    ensures MainExit(cmd, config, setupFails, book) == 0 <==> ParseTimeRange(cmd.timeRange, None).Success?
    ensures MainExit(cmd, config, setupFails, book) == 1 <==> ParseTimeRange(cmd.timeRange, None).Failure?
  {
  }

  /** A range crossing midnight: a dry run accepts it even with
      `--tomorrow`, while the booking run with `--tomorrow` refuses it. */
  lemma TomorrowOvernight(cmd: Command, config: Config, setupFails: bool, book: Executor, s: int, e: int)
    requires cmd.tomorrow && Fields(cmd.timeRange) == Some((s, e)) && e <= s
    requires MainEnds(cmd, config)
    ensures cmd.dryRun ==> MainExit(cmd, config, setupFails, book) == 0
    ensures !cmd.dryRun ==> MainExit(cmd, config, setupFails, book) == 1
  {
    if cmd.dryRun {
      ParseByFields(cmd.timeRange, None, s, e);
    } else {
      TomorrowTarget(cmd);
      ParseByFields(cmd.timeRange, Some(Tomorrow), s, e);
    }
  }

  lemma TomorrowTarget(cmd: Command)
    requires cmd.tomorrow
    ensures ResolveTargetDay(RequestOf(cmd).dayArg) == Some(Tomorrow)
  {
    assert Text.Lower("tomorrow") == "tomorrow";
  }
}
