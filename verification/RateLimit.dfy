/**
 The fixed-window rate limiter with lockout (server/core/security.py, check_rate_limit).
 */
module RateLimit {
  import opened Common

  datatype Row = Row(attempts: int, windowStart: int, lockedUntil: Option<int>)

  /** Both limits of one limiter: attempts per window, and the window's length in seconds. */
  datatype Limit = Limit(max: int, window: int)

  /** A null or zero lock is no lock. */
  predicate Locked(row: Row, now: int)
  {
    row.lockedUntil.Some? && row.lockedUntil.value != 0 && now < row.lockedUntil.value
  }

  /** INSERT ... ON CONFLICT DO UPDATE. */
  function Upserted(row: Option<Row>, now: int, limit: Limit): Row
  {
    match row
    case None => Row(1, now, None)
    case Some(r) =>
      if now - r.windowStart > limit.window then Row(1, now, None)
      else Row(r.attempts + 1, r.windowStart, if r.attempts + 1 > limit.max then Some(now + limit.window) else None)
  }

  /** The verdict read back from the row just written. */
  predicate Admitted(row: Row, now: int, limit: Limit)
  {
    !Locked(row, now) && row.attempts <= limit.max
  }

  function Limited(row: Option<Row>, now: int, limit: Limit): (Option<Row>, bool)
  {
    if row.Some? && Locked(row.value, now) then (row, false)
    else
      var r := Upserted(row, now, limit);
      (Some(r), Admitted(r, now, limit))
  }

  class RateLimiter {
    var rows: map<string, Row>

    function RowOf(key: string): Option<Row>
      reads this
    {
      if key in rows then Some(rows[key]) else None
    }

    method CheckRateLimit(key: string, limit: Limit, now: int) returns (allowed: bool)
      modifies this
      ensures (RowOf(key), allowed) == Limited(old(RowOf(key)), now, limit)
      ensures forall other :: other != key ==> RowOf(other) == old(RowOf(other))
    {
      if key in rows && Locked(rows[key], now) {
        return false;
      }
      if key !in rows {
        rows := rows[key := Row(1, now, None)];
      } else {
        var r := rows[key];
        var inWindow := now - r.windowStart <= limit.window;
        rows := rows[key := Row(
          if inWindow then r.attempts + 1 else 1,
          if inWindow then r.windowStart else now,
          if inWindow && r.attempts + 1 > limit.max then Some(now + limit.window) else None)];
      }
      var row := rows[key];
      if Locked(row, now) {
        return false;
      }
      return row.attempts <= limit.max;
    }
  }

  // ---------------------------------------------------------------- runs of upserts

  /** An allowed request and the window it was counted in. */
  datatype Grant = Grant(at: int, window: int)

  datatype Trace = Trace(row: Option<Row>, log: seq<Grant>)

  function Written(t: Trace, now: int, limit: Limit): Trace
  {
    var r := Upserted(t.row, now, limit);
    Trace(Some(r), if Admitted(r, now, limit) then t.log + [Grant(now, r.windowStart)] else t.log)
  }

  /** Upserts one after the other, at clock readings in any order. */
  function WriteRun(nows: seq<int>, limit: Limit): Trace
  {
    if nows == [] then Trace(None, [])
    else Written(WriteRun(nows[..|nows| - 1], limit), nows[|nows| - 1], limit)
  }

  /** The last n grants are those of the current window; all others are more than a window older. */
  ghost predicate TailIsCurrent(t: Trace, n: nat, limit: Limit)
  {
    && n <= |t.log|
    && (t.row.None? ==> t.log == [])
    && (t.row.Some? ==>
          && n <= t.row.value.attempts && 1 <= t.row.value.attempts
          && (t.log != [] ==> 1 <= limit.max)
          && (forall i :: 0 <= i < |t.log| - n ==> t.log[i].window + limit.window < t.row.value.windowStart)
          && (forall i :: |t.log| - n <= i < |t.log| ==> t.log[i].window == t.row.value.windowStart))
  }

  /** Grants that are `max` apart lie in windows more than a window's length apart. */
  ghost predicate Spaced(log: seq<Grant>, limit: Limit)
  {
    forall i, j :: 0 <= i < |log| && 0 <= j < |log| && j == i + limit.max ==>
      log[i].window + limit.window < log[j].window
  }

  lemma TailMoves(t: Trace, n: nat, now: int, limit: Limit) returns (n': nat)
    requires limit.window >= 0 && TailIsCurrent(t, n, limit) && (limit.max >= 0 ==> n <= limit.max)
    requires Spaced(t.log, limit)
    ensures TailIsCurrent(Written(t, now, limit), n', limit)
    ensures limit.max >= 0 ==> n' <= limit.max
    ensures Spaced(Written(t, now, limit).log, limit)
  {
    var t' := Written(t, now, limit);
    n' := if t.row.None? || now - t.row.value.windowStart > limit.window then 0 else n;
    if Admitted(t'.row.value, now, limit) {
      n' := n' + 1;
    }
  }

  lemma {:induction false} WriteRunIsSpaced(nows: seq<int>, limit: Limit) returns (n: nat)
    requires limit.window >= 0
    ensures TailIsCurrent(WriteRun(nows, limit), n, limit)
    ensures limit.max >= 0 ==> n <= limit.max
    ensures Spaced(WriteRun(nows, limit).log, limit)
  {
    if nows == [] {
      n := 0;
    } else {
      n := WriteRunIsSpaced(nows[..|nows| - 1], limit);
      n := TailMoves(WriteRun(nows[..|nows| - 1], limit), n, nows[|nows| - 1], limit);
    }
  }

  /** Whatever the order of clock readings, no window admits more than `max` requests. */
  lemma MaxPerWindow(nows: seq<int>, limit: Limit, window: int)
    requires limit.window >= 0 && limit.max >= 0
    ensures |set i | 0 <= i < |WriteRun(nows, limit).log| && WriteRun(nows, limit).log[i].window == window|
            <= limit.max
  {
    var log := WriteRun(nows, limit).log;
    var n := WriteRunIsSpaced(nows, limit);
    var inWindow := set i | 0 <= i < |log| && log[i].window == window;
    forall i, j | i in inWindow && j in inWindow
      ensures j < i + limit.max
    {
      if j >= i + limit.max {
        WindowsGrow(nows, limit, i + limit.max, j);
      }
    }
    CountOfSpread(inWindow, limit.max);
  }

  /** The window start only ever moves forward, and then by more than a window. */
  lemma {:induction false} WindowStartNeverRepeats(nows: seq<int>, limit: Limit, m: nat)
    requires limit.window >= 0 && 0 < m <= |nows|
    ensures
      var early, late := WriteRun(nows[..m], limit).row, WriteRun(nows, limit).row;
      && early.Some? && late.Some?
      && (late.value.windowStart == early.value.windowStart
          || late.value.windowStart > early.value.windowStart + limit.window)
  {
    if m < |nows| {
      WindowStartNeverRepeats(nows[..|nows| - 1], limit, m);
      assert nows[..|nows| - 1][..m] == nows[..m];
    } else {
      assert nows[..m] == nows;
    }
  }

  lemma {:induction false} WindowsGrow(nows: seq<int>, limit: Limit, i: nat, j: nat)
    requires limit.window >= 0 && i <= j < |WriteRun(nows, limit).log|
    ensures WriteRun(nows, limit).log[i].window <= WriteRun(nows, limit).log[j].window
  {
    var init := nows[..|nows| - 1];
    if j < |WriteRun(init, limit).log| {
      WindowsGrow(init, limit, i, j);
    } else {
      var n := WriteRunIsSpaced(nows, limit);
    }
  }

  // ---------------------------------------------------------------- sequential calls

  predicate NonDecreasing(s: seq<int>)
  {
    forall i, j :: 0 <= i < j < |s| ==> s[i] <= s[j]
  }

  /** Whole calls one after the other. */
  function CallRun(times: seq<int>, limit: Limit): Trace
  {
    if times == [] then Trace(None, [])
    else
      var t, now := CallRun(times[..|times| - 1], limit), times[|times| - 1];
      var (row, allowed) := Limited(t.row, now, limit);
      Trace(row, if allowed then t.log + [Grant(now, row.value.windowStart)] else t.log)
  }

  /** The calls that get past the fast path are a run of upserts. */
  lemma {:induction false} CallsAreWrites(times: seq<int>, limit: Limit) returns (nows: seq<int>)
    requires NonDecreasing(times)
    ensures CallRun(times, limit) == WriteRun(nows, limit)
    ensures NonDecreasing(nows)
    ensures forall i :: 0 <= i < |nows| ==> times != [] && nows[i] <= times[|times| - 1]
  {
    if times == [] {
      nows := [];
    } else {
      var t, now := CallRun(times[..|times| - 1], limit), times[|times| - 1];
      nows := CallsAreWrites(times[..|times| - 1], limit);
      AppendingALater(nows, now);
      if !(t.row.Some? && Locked(t.row.value, now)) {
        nows := nows + [now];
      }
    }
  }

  lemma AppendingALater(nows: seq<int>, now: int)
    requires NonDecreasing(nows) && forall i :: 0 <= i < |nows| ==> nows[i] <= now
    ensures NonDecreasing(nows + [now]) && (nows + [now])[..|nows|] == nows
    ensures forall i :: 0 <= i <= |nows| ==> (nows + [now])[i] <= now
  {
  }

  /** Grants lie within their windows, and come in order of time. */
  ghost predicate Timely(log: seq<Grant>, limit: Limit)
  {
    && (forall i :: 0 <= i < |log| ==> log[i].window <= log[i].at <= log[i].window + limit.window)
    && (forall i, j :: 0 <= i < j < |log| ==> log[i].at <= log[j].at)
  }

  lemma {:induction false} GrantsFollowTheClock(nows: seq<int>, limit: Limit)
    requires NonDecreasing(nows) && limit.window >= 0
    ensures
      var t := WriteRun(nows, limit);
      && (t.row.Some? ==> nows != [] && t.row.value.windowStart <= nows[|nows| - 1])
      && (forall i :: 0 <= i < |t.log| ==> t.log[i].at <= nows[|nows| - 1])
      && Timely(t.log, limit)
  {
    if nows != [] {
      GrantsFollowTheClock(nows[..|nows| - 1], limit);
    }
  }

  /** k strides of `max` grants take the window forward by more than k window lengths. */
  lemma {:induction false} Strides(log: seq<Grant>, limit: Limit, i: nat, k: nat)
    requires Spaced(log, limit) && limit.max >= 0 && i + k * limit.max < |log|
    ensures log[i].window + k * (limit.window + 1) <= log[i + k * limit.max].window
  {
    if k > 0 {
      var mid := i + (k - 1) * limit.max;
      assert mid + limit.max == i + k * limit.max;
      Strides(log, limit, i, k - 1);
      assert log[mid].window + limit.window < log[mid + limit.max].window;
    }
  }

  lemma StridesOutrunWindows(k: nat, window: nat)
    ensures k * window + window < (k + 1) * (window + 1)
  {
    assert (k + 1) * (window + 1) == k * window + k + window + 1;
  }

  /** Grants (k + 1) * max apart are more than k window lengths apart in time. */
  lemma GrantsSpread(log: seq<Grant>, limit: Limit, i: nat, j: nat, k: nat)
    requires Spaced(log, limit) && Timely(log, limit) && limit.window >= 0 && limit.max >= 0
    requires i + (k + 1) * limit.max <= j < |log|
    ensures log[i].at + k * limit.window < log[j].at
  {
    var mid := i + (k + 1) * limit.max;
    Strides(log, limit, i, k + 1);
    StridesOutrunWindows(k, limit.window);
    assert log[mid].at <= log[j].at;
  }

  /** The grants of a closed time interval. */
  function GrantsIn(log: seq<Grant>, from: int, to: int): set<int>
  {
    set i | 0 <= i < |log| && from <= log[i].at <= to
  }

  lemma FewGrantsInside(log: seq<Grant>, limit: Limit, from: int, k: nat)
    requires Spaced(log, limit) && Timely(log, limit) && limit.window >= 0 && limit.max >= 0
    ensures |GrantsIn(log, from, from + k * limit.window)| <= (k + 1) * limit.max
  {
    var inside, bound := GrantsIn(log, from, from + k * limit.window), (k + 1) * limit.max;
    assert 0 <= bound;
    forall i, j | i in inside && j in inside
      ensures j < i + bound
    {
      if j >= i + bound {
        GrantsSpread(log, limit, i, j, k);
      }
    }
    CountOfSpread(inside, bound);
  }

  /**
   With a clock that does not run backwards, any closed interval of k windows' length holds at most
   (k + 1) * max allowed requests.
   */
  lemma IntervalBound(times: seq<int>, limit: Limit, from: int, k: nat)
    requires NonDecreasing(times) && limit.window >= 0 && limit.max >= 0
    ensures |GrantsIn(CallRun(times, limit).log, from, from + k * limit.window)| <= (k + 1) * limit.max
  {
    var nows := CallsAreWrites(times, limit);
    var n := WriteRunIsSpaced(nows, limit);
    GrantsFollowTheClock(nows, limit);
    FewGrantsInside(CallRun(times, limit).log, limit, from, k);
  }

  // ---------------------------------------------------------------- lockout

  /** A lock in the row stands for exhausted attempts, whatever the order of clock readings. */
  lemma {:induction false} WrittenLockMeansExhausted(nows: seq<int>, limit: Limit)
    ensures
      var row := WriteRun(nows, limit).row;
      row.Some? && row.value.lockedUntil.Some? ==> row.value.attempts > limit.max
  {
    if nows != [] {
      WrittenLockMeansExhausted(nows[..|nows| - 1], limit);
    }
  }

  /** A locked row records exhausted attempts. */
  lemma {:induction false} LockMeansExhausted(times: seq<int>, limit: Limit)
    ensures
      var row := CallRun(times, limit).row;
      row.Some? && row.value.lockedUntil.Some? ==> row.value.attempts > limit.max
  {
    if times != [] {
      LockMeansExhausted(times[..|times| - 1], limit);
    }
  }

  /**
   Once a call at time t has set a lock, nothing is allowed while the clock reads less than t plus the
   window, and the first call after that is allowed exactly when it comes more than a window after the
   start of the window.
   */
  lemma Lockout(times: seq<int>, limit: Limit, t: int, now: int)
    requires limit.max >= 1 && now >= 0
    requires CallRun(times, limit).row.Some?
    requires CallRun(times, limit).row.value.lockedUntil == Some(t + limit.window)
    ensures
      var row := CallRun(times, limit).row;
      var (row', allowed) := Limited(row, now, limit);
      && (now < t + limit.window ==> !allowed && row' == row)
      && (now >= t + limit.window ==> (allowed <==> now > row.value.windowStart + limit.window))
  {
    LockMeansExhausted(times, limit);
  }

  /** However many calls come while the lock holds, all are refused and the row stays as it is. */
  lemma {:induction false} LockedCallsChangeNothing(times: seq<int>, more: seq<int>, limit: Limit, until: int)
    requires CallRun(times, limit).row.Some?
    requires CallRun(times, limit).row.value.lockedUntil == Some(until)
    requires forall i :: 0 <= i < |more| ==> 0 <= more[i] < until
    ensures CallRun(times + more, limit) == CallRun(times, limit)
  {
    if more == [] {
      assert times + more == times;
    } else {
      var init := more[..|more| - 1];
      LockedCallsChangeNothing(times, init, limit, until);
      assert (times + more)[..|times + more| - 1] == times + init;
    }
  }

  // ---------------------------------------------------------------- interleaved calls

  /** A call reads the clock and takes the fast path in one step; its upsert and read-back are another. */
  datatype Event = Arrive(caller: nat, now: int) | Commit(caller: nat)

  datatype Interleaved = Interleaved(trace: Trace, waiting: map<nat, int>)

  function Happen(s: Interleaved, e: Event, limit: Limit): Interleaved
  {
    match e
    case Arrive(caller, now) =>
      if s.trace.row.Some? && Locked(s.trace.row.value, now) then s
      else s.(waiting := s.waiting[caller := now])
    case Commit(caller) =>
      if caller !in s.waiting then s
      else Interleaved(Written(s.trace, s.waiting[caller], limit), s.waiting - {caller})
  }

  function EventRun(events: seq<Event>, limit: Limit): Interleaved
  {
    if events == [] then Interleaved(Trace(None, []), map[])
    else Happen(EventRun(events[..|events| - 1], limit), events[|events| - 1], limit)
  }

  lemma {:induction false} SchedulesAreWrites(events: seq<Event>, limit: Limit) returns (nows: seq<int>)
    ensures EventRun(events, limit).trace == WriteRun(nows, limit)
  {
    if events == [] {
      nows := [];
    } else {
      var init, e := events[..|events| - 1], events[|events| - 1];
      var s := EventRun(init, limit);
      nows := SchedulesAreWrites(init, limit);
      if e.Commit? && e.caller in s.waiting {
        var more := nows + [s.waiting[e.caller]];
        assert more[..|more| - 1] == nows;
        nows := more;
      }
    }
  }

  /** Every schedule of concurrent calls keeps each window to `max` allowed requests. */
  lemma MaxPerWindowUnderInterleaving(events: seq<Event>, limit: Limit, window: int)
    requires limit.window >= 0 && limit.max >= 0
    ensures
      |set i | 0 <= i < |EventRun(events, limit).trace.log| && EventRun(events, limit).trace.log[i].window == window|
      <= limit.max
  {
    var nows := SchedulesAreWrites(events, limit);
    MaxPerWindow(nows, limit, window);
  }

  /** Under interleaving, too, the window start only ever moves forward, and then by more than a window. */
  lemma {:induction false} WindowStartNeverRepeatsUnderInterleaving(events: seq<Event>, limit: Limit, m: nat)
    requires limit.window >= 0 && m <= |events| && EventRun(events[..m], limit).trace.row.Some?
    ensures
      var early, late := EventRun(events[..m], limit).trace.row, EventRun(events, limit).trace.row;
      && late.Some?
      && (late.value.windowStart == early.value.windowStart
          || late.value.windowStart > early.value.windowStart + limit.window)
  {
    if m < |events| {
      assert events[..|events| - 1][..m] == events[..m];
      WindowStartNeverRepeatsUnderInterleaving(events[..|events| - 1], limit, m);
    } else {
      assert events[..m] == events;
    }
  }

  // ---------------------------------------------------------------- locks under interleaving

  /** A commit of a call that got past the fast path. */
  predicate TakesEffect(s: Interleaved, e: Event)
  {
    e.Commit? && e.caller in s.waiting
  }

  /**
   What a commit does to a row that carries a lock, whether or not the lock has run out. It is granted if
   and only if its clock reading is more than a window past the start of the window; otherwise a lock is
   set that ends a window after that reading, be it earlier or later than the old one.
   */
  lemma LockIsEscapedExactlyWhen(events: seq<Event>, caller: nat, limit: Limit)
    requires limit.max >= 1 && caller in EventRun(events, limit).waiting
    requires EventRun(events, limit).trace.row.Some?
    requires EventRun(events, limit).trace.row.value.lockedUntil.Some?
    ensures
      var s := EventRun(events, limit);
      var now, row := s.waiting[caller], s.trace.row.value;
      Happen(s, Commit(caller), limit).trace
      == if now > row.windowStart + limit.window
         then Trace(Some(Row(1, now, None)), s.trace.log + [Grant(now, now)])
         else Trace(Some(Row(row.attempts + 1, row.windowStart, Some(now + limit.window))), s.trace.log)
  {
    var nows := SchedulesAreWrites(events, limit);
    WrittenLockMeansExhausted(nows, limit);
  }

  lemma EventRunStep(events: seq<Event>, e: Event, limit: Limit)
    ensures EventRun(events + [e], limit) == Happen(EventRun(events, limit), e, limit)
  {
    assert (events + [e])[..|events|] == events;
  }

  /** Event i of the continuation takes effect with a clock reading beyond the bound. */
  predicate LateAt(events: seq<Event>, more: seq<Event>, i: nat, bound: int, limit: Limit)
  {
    i < |more| &&
    var s := EventRun(events + more[..i], limit);
    TakesEffect(s, more[i]) && s.waiting[more[i].caller] > bound
  }

  ghost predicate SomeLate(events: seq<Event>, more: seq<Event>, bound: int, limit: Limit)
  {
    exists i: nat :: LateAt(events, more, i, bound, limit)
  }

  lemma LateMoves(events: seq<Event>, init: seq<Event>, last: Event, bound: int, limit: Limit)
    ensures SomeLate(events, init + [last], bound, limit)
        <==> SomeLate(events, init, bound, limit) || LateAt(events, init + [last], |init|, bound, limit)
  {
    forall i: nat | i < |init|
      ensures LateAt(events, init + [last], i, bound, limit) <==> LateAt(events, init, i, bound, limit)
    {
      assert (init + [last])[..i] == init[..i];
    }
    if SomeLate(events, init, bound, limit) {
      var i: nat :| LateAt(events, init, i, bound, limit);
      assert LateAt(events, init + [last], i, bound, limit);
    }
    if SomeLate(events, init + [last], bound, limit) {
      var i: nat :| LateAt(events, init + [last], i, bound, limit);
    }
  }

  lemma LogsGrow(s: Interleaved, e: Event, limit: Limit)
    ensures |s.trace.log| <= |Happen(s, e, limit).trace.log|
  {
  }

  /** The row carries a lock in the window that began at `start`. */
  predicate LockedIn(s: Interleaved, start: int)
  {
    s.trace.row.Some? && s.trace.row.value.lockedUntil.Some? && s.trace.row.value.windowStart == start
  }

  /** One more event grants nothing and keeps the row locked in its window, unless it takes effect late. */
  lemma LockedStep(events: seq<Event>, e: Event, start: int, limit: Limit)
    requires limit.max >= 1 && LockedIn(EventRun(events, limit), start)
    ensures
      var s := EventRun(events, limit);
      var s' := Happen(s, e, limit);
      if TakesEffect(s, e) && s.waiting[e.caller] > start + limit.window
      then s'.trace.log == s.trace.log + [Grant(s.waiting[e.caller], s.waiting[e.caller])]
      else LockedIn(s', start) && s'.trace.log == s.trace.log
  {
    if TakesEffect(EventRun(events, limit), e) {
      LockIsEscapedExactlyWhen(events, e.caller, limit);
    }
  }

  lemma {:induction false} LockHoldsAlong(events: seq<Event>, more: seq<Event>, start: int, limit: Limit)
    requires limit.max >= 1 && LockedIn(EventRun(events, limit), start)
    ensures
      var s, s' := EventRun(events, limit), EventRun(events + more, limit);
      if SomeLate(events, more, start + limit.window, limit) then |s'.trace.log| > |s.trace.log|
      else LockedIn(s', start) && s'.trace.log == s.trace.log
  {
    if more == [] {
      assert events + more == events;
    } else {
      var init, last := more[..|more| - 1], more[|more| - 1];
      assert more == init + [last] && events + more == (events + init) + [last];
      LockHoldsAlong(events, init, start, limit);
      EventRunStep(events + init, last, limit);
      LateMoves(events, init, last, start + limit.window, limit);
      assert more[..|init|] == init;
      LogsGrow(EventRun(events + init, limit), last, limit);
      if !SomeLate(events, init, start + limit.window, limit) {
        LockedStep(events + init, last, start, limit);
      }
    }
  }

  /**
   How long a lock lasts. Once the row carries a lock, in any schedule, nothing is granted by what follows
   if and only if no commit takes effect with a clock reading more than a window past the window's start;
   and until one does, the row stays locked in that window, if perhaps with another end of the lock.
   */
  lemma LockHoldsExactlyUntilALateCommit(events: seq<Event>, more: seq<Event>, limit: Limit)
    requires limit.max >= 1 && EventRun(events, limit).trace.row.Some?
    requires EventRun(events, limit).trace.row.value.lockedUntil.Some?
    ensures
      var s, s' := EventRun(events, limit), EventRun(events + more, limit);
      var start := s.trace.row.value.windowStart;
      && (s'.trace.log == s.trace.log <==> !SomeLate(events, more, start + limit.window, limit))
      && (!SomeLate(events, more, start + limit.window, limit) ==> LockedIn(s', start))
  {
    LockHoldsAlong(events, more, EventRun(events, limit).trace.row.value.windowStart, limit);
  }

  // ---------------------------------------------------------------- which calls are granted

  /** The clock reading that began the current window. */
  function StartAfter(nows: seq<int>, limit: Limit): int
    requires nows != []
  {
    var now := nows[|nows| - 1];
    if |nows| == 1 || now > StartAfter(nows[..|nows| - 1], limit) + limit.window then now
    else StartAfter(nows[..|nows| - 1], limit)
  }

  /** How many writes the current window has seen. */
  function CountAfter(nows: seq<int>, limit: Limit): nat
    requires nows != []
  {
    var init, now := nows[..|nows| - 1], nows[|nows| - 1];
    if init == [] || now > StartAfter(init, limit) + limit.window then 1 else CountAfter(init, limit) + 1
  }

  /** The lock that the last write has set: a window from then, if it is not the first and one too many. */
  function LockAfter(nows: seq<int>, limit: Limit): Option<int>
    requires nows != []
  {
    if CountAfter(nows, limit) > 1 && CountAfter(nows, limit) > limit.max
    then Some(nows[|nows| - 1] + limit.window) else None
  }

  lemma {:induction false} RowCounts(nows: seq<int>, limit: Limit)
    requires nows != []
    ensures
      var row := WriteRun(nows, limit).row;
      && row.Some? && row.value.windowStart == StartAfter(nows, limit) && row.value.attempts == CountAfter(nows, limit)
      && row.value.lockedUntil == LockAfter(nows, limit)
  {
    if |nows| > 1 {
      RowCounts(nows[..|nows| - 1], limit);
    } else {
      assert nows[..0] == [];
    }
  }

  /** The clock readings of the commits that took effect, in their order. */
  function ReadingsOf(events: seq<Event>, limit: Limit): seq<int>
  {
    if events == [] then []
    else
      var init, last := events[..|events| - 1], events[|events| - 1];
      var s := EventRun(init, limit);
      if TakesEffect(s, last) then ReadingsOf(init, limit) + [s.waiting[last.caller]] else ReadingsOf(init, limit)
  }

  lemma {:induction false} RunIsOfItsReadings(events: seq<Event>, limit: Limit)
    ensures EventRun(events, limit).trace == WriteRun(ReadingsOf(events, limit), limit)
  {
    if events != [] {
      var init, last := events[..|events| - 1], events[|events| - 1];
      RunIsOfItsReadings(init, limit);
      var nows, nows' := ReadingsOf(init, limit), ReadingsOf(events, limit);
      if TakesEffect(EventRun(init, limit), last) {
        assert nows'[..|nows'| - 1] == nows;
      }
    }
  }

  /**
   Which calls are granted. In any schedule a commit that takes effect is granted if and only if it is
   among the first `max` to do so in its window; locks decide nothing but who gets past the fast path.
   */
  lemma GrantedExactlyWhenAmongTheFirst(events: seq<Event>, caller: nat, limit: Limit)
    requires caller in EventRun(events, limit).waiting
    ensures
      var s := EventRun(events, limit);
      var now := s.waiting[caller];
      Happen(s, Commit(caller), limit).trace.log
      == if CountAfter(ReadingsOf(events, limit) + [now], limit) <= limit.max
         then s.trace.log + [Grant(now, StartAfter(ReadingsOf(events, limit) + [now], limit))] else s.trace.log
  {
    var nows, now := ReadingsOf(events, limit), EventRun(events, limit).waiting[caller];
    RunIsOfItsReadings(events, limit);
    assert (nows + [now])[..|nows|] == nows;
    RowCounts(nows + [now], limit);
  }

  // ---------------------------------------------------------------- sequential calls, exactly

  /** Each call arrives and commits before the next one arrives. */
  function Sequential(times: seq<int>): seq<Event>
  {
    if times == [] then []
    else Sequential(times[..|times| - 1]) + [Arrive(0, times[|times| - 1])] + [Commit(0)]
  }

  /** A sequential call does what its two steps do, one right after the other. */
  lemma {:induction false} SequentialCallsAreASchedule(times: seq<int>, limit: Limit)
    ensures EventRun(Sequential(times), limit) == Interleaved(CallRun(times, limit), map[])
  {
    if times != [] {
      var init, now := times[..|times| - 1], times[|times| - 1];
      SequentialCallsAreASchedule(init, limit);
      EventRunStep(Sequential(init), Arrive(0, now), limit);
      EventRunStep(Sequential(init) + [Arrive(0, now)], Commit(0), limit);
    }
  }

  /** A call at this time falls under the lock that the last of these writes has set. */
  predicate LockedOut(nows: seq<int>, now: int, limit: Limit)
  {
    nows != [] &&
    match LockAfter(nows, limit)
    case None => false
    case Some(until) => until != 0 && now < until
  }

  /** The calls that are not locked out. */
  function AdmittedToWrite(times: seq<int>, limit: Limit): seq<int>
  {
    if times == [] then []
    else
      var nows, now := AdmittedToWrite(times[..|times| - 1], limit), times[|times| - 1];
      if LockedOut(nows, now, limit) then nows else nows + [now]
  }

  lemma WriteRunStep(nows: seq<int>, now: int, limit: Limit)
    ensures WriteRun(nows + [now], limit) == Written(WriteRun(nows, limit), now, limit)
  {
    assert (nows + [now])[..|nows|] == nows;
  }

  lemma LockedOutMeansLocked(nows: seq<int>, now: int, limit: Limit)
    ensures LockedOut(nows, now, limit)
        <==> WriteRun(nows, limit).row.Some? && Locked(WriteRun(nows, limit).row.value, now)
  {
    if nows != [] {
      RowCounts(nows, limit);
    }
  }

  lemma {:induction false} CallRunIsOfTheAdmitted(times: seq<int>, limit: Limit)
    ensures CallRun(times, limit) == WriteRun(AdmittedToWrite(times, limit), limit)
  {
    if times != [] {
      var init, now := times[..|times| - 1], times[|times| - 1];
      CallRunIsOfTheAdmitted(init, limit);
      LockedOutMeansLocked(AdmittedToWrite(init, limit), now, limit);
      WriteRunStep(AdmittedToWrite(init, limit), now, limit);
    }
  }

  /**
   Which sequential calls are granted. After any calls, the next one is granted if and only if it does not
   fall under a lock and is among the first `max` writes of its window.
   */
  lemma SequentialCallIsGrantedExactlyWhen(times: seq<int>, now: int, limit: Limit)
    ensures
      var nows := AdmittedToWrite(times, limit);
      Limited(CallRun(times, limit).row, now, limit).1
      <==> !LockedOut(nows, now, limit) && CountAfter(nows + [now], limit) <= limit.max
  {
    var nows := AdmittedToWrite(times, limit);
    CallRunIsOfTheAdmitted(times, limit);
    LockedOutMeansLocked(nows, now, limit);
    WriteRunStep(nows, now, limit);
    RowCounts(nows + [now], limit);
  }

  /** Event i of the continuation takes effect with a reading before `until`, among the first of its window. */
  predicate InsideAt(events: seq<Event>, more: seq<Event>, i: nat, until: int, limit: Limit)
  {
    i < |more| && InsideNow(events + more[..i], more[i], until, limit)
  }

  predicate InsideNow(run: seq<Event>, e: Event, until: int, limit: Limit)
  {
    var s := EventRun(run, limit);
    && TakesEffect(s, e) && s.waiting[e.caller] < until
    && CountAfter(ReadingsOf(run, limit) + [s.waiting[e.caller]], limit) <= limit.max
  }

  ghost predicate SomeInside(events: seq<Event>, more: seq<Event>, until: int, limit: Limit)
  {
    exists i: nat :: InsideAt(events, more, i, until, limit)
  }

  lemma InsideMoves(events: seq<Event>, init: seq<Event>, last: Event, until: int, limit: Limit)
    ensures SomeInside(events, init + [last], until, limit)
        <==> SomeInside(events, init, until, limit) || InsideAt(events, init + [last], |init|, until, limit)
  {
    forall i: nat | i < |init|
      ensures InsideAt(events, init + [last], i, until, limit) <==> InsideAt(events, init, i, until, limit)
    {
      assert (init + [last])[..i] == init[..i];
    }
    if SomeInside(events, init, until, limit) {
      var i: nat :| InsideAt(events, init, i, until, limit);
      assert InsideAt(events, init + [last], i, until, limit);
    }
    if SomeInside(events, init + [last], until, limit) {
      var i: nat :| InsideAt(events, init + [last], i, until, limit);
    }
  }

  /** From entry n on, every grant was read off the clock at `until` or later. */
  predicate NoneBefore(log: seq<Grant>, n: nat, until: int)
  {
    forall i :: n <= i < |log| ==> log[i].at >= until
  }

  lemma InsideStep(run: seq<Event>, e: Event, n: nat, until: int, limit: Limit)
    requires n <= |EventRun(run, limit).trace.log|
    ensures
      var log, log' := EventRun(run, limit).trace.log, Happen(EventRun(run, limit), e, limit).trace.log;
      && |log| <= |log'|
      && (NoneBefore(log', n, until) <==> NoneBefore(log, n, until) && !InsideNow(run, e, until, limit))
  {
    var s := EventRun(run, limit);
    if TakesEffect(s, e) {
      var now := s.waiting[e.caller];
      GrantedExactlyWhenAmongTheFirst(run, e.caller, limit);
      OneGrantMore(s.trace.log, Grant(now, StartAfter(ReadingsOf(run, limit) + [now], limit)), n, until);
    }
  }

  lemma OneGrantMore(log: seq<Grant>, g: Grant, n: nat, until: int)
    requires n <= |log|
    ensures NoneBefore(log + [g], n, until) <==> NoneBefore(log, n, until) && g.at >= until
  {
    var log' := log + [g];
    assert log'[|log|] == g;
    assert forall i :: 0 <= i < |log| ==> log'[i] == log[i];
  }

  /**
   Exactly when an interval stays free of grants, such as that of a lock up to the time `until` it was set
   to last. In any schedule, nothing that follows is granted at a clock reading before `until` if and only
   if no commit takes effect with such a reading among the first `max` of its window.
   */
  lemma {:induction false} NothingIsGrantedBeforeExactlyWhen(
    events: seq<Event>, more: seq<Event>, until: int, limit: Limit)
    ensures
      var log, log' := EventRun(events, limit).trace.log, EventRun(events + more, limit).trace.log;
      |log| <= |log'| && (NoneBefore(log', |log|, until) <==> !SomeInside(events, more, until, limit))
  {
    if more == [] {
      assert events + more == events;
    } else {
      var init, last := more[..|more| - 1], more[|more| - 1];
      assert more == init + [last] && events + more == (events + init) + [last] && more[..|init|] == init;
      NothingIsGrantedBeforeExactlyWhen(events, init, until, limit);
      EventRunStep(events + init, last, limit);
      InsideStep(events + init, last, |EventRun(events, limit).trace.log|, until, limit);
      InsideMoves(events, init, last, until, limit);
    }
  }

  /**
   The lockout is a property of sequential calls: a call that read the row before the lock was set can
   be allowed inside the locked interval [5, 15).
   */
  lemma StaleFastPathEscapesTheLock()
    ensures
      var limit := Limit(1, 10);
      var before := EventRun([Arrive(0, 0)] + [Commit(0)] + [Arrive(1, 5)] + [Arrive(2, 11)] + [Commit(1)], limit);
      var after := Happen(before, Commit(2), limit);
      before.trace.row == Some(Row(2, 0, Some(15))) && after.trace.log == before.trace.log + [Grant(11, 11)]
  {
    var limit := Limit(1, 10);
    var e1 := [Arrive(0, 0)];
    var e2 := e1 + [Commit(0)];
    var e3 := e2 + [Arrive(1, 5)];
    var e4 := e3 + [Arrive(2, 11)];
    assert EventRun(e1, limit) == Interleaved(Trace(None, []), map[0 := 0]) by {
      assert e1[..0] == [];
    }
    EventRunStep(e1, Commit(0), limit);
    EventRunStep(e2, Arrive(1, 5), limit);
    EventRunStep(e3, Arrive(2, 11), limit);
    EventRunStep(e4, Commit(1), limit);
    assert EventRun(e4, limit).waiting[1] == 5 && EventRun(e4, limit).waiting[2] == 11;
  }

  /**
   And a stale commit can shorten a lock: the row is locked until 18, a call that read 5 commits and sets
   the lock to 15, and a call that arrives at 16 gets past the fast path and is granted inside [8, 18).
   */
  lemma StaleCommitShortensALock()
    ensures
      var limit := Limit(1, 10);
      var locked := [Arrive(0, 0)] + [Commit(0)] + [Arrive(1, 5)] + [Arrive(2, 8)] + [Commit(2)];
      var after := locked + [Commit(1)] + [Arrive(3, 16)] + [Commit(3)];
      && EventRun(locked, limit).trace == Trace(Some(Row(2, 0, Some(18))), [Grant(0, 0)])
      && EventRun(after, limit).trace == Trace(Some(Row(1, 16, None)), [Grant(0, 0), Grant(16, 16)])
  {
    var limit := Limit(1, 10);
    var e1 := [Arrive(0, 0)];
    var e2 := e1 + [Commit(0)];
    var e3 := e2 + [Arrive(1, 5)];
    var e4 := e3 + [Arrive(2, 8)];
    var e5 := e4 + [Commit(2)];
    assert EventRun(e1, limit) == Interleaved(Trace(None, []), map[0 := 0]) by {
      assert e1[..0] == [];
    }
    EventRunStep(e1, Commit(0), limit);
    EventRunStep(e2, Arrive(1, 5), limit);
    EventRunStep(e3, Arrive(2, 8), limit);
    assert EventRun(e4, limit) == Interleaved(Trace(Some(Row(1, 0, None)), [Grant(0, 0)]), map[1 := 5, 2 := 8]);
    EventRunStep(e4, Commit(2), limit);
    ShortenedLock(e5);
  }

  lemma ShortenedLock(locked: seq<Event>)
    requires EventRun(locked, Limit(1, 10))
          == Interleaved(Trace(Some(Row(2, 0, Some(18))), [Grant(0, 0)]), map[1 := 5])
    ensures EventRun(locked + [Commit(1)] + [Arrive(3, 16)] + [Commit(3)], Limit(1, 10)).trace
         == Trace(Some(Row(1, 16, None)), [Grant(0, 0), Grant(16, 16)])
  {
    EventRunStep(locked, Commit(1), Limit(1, 10));
    EventRunStep(locked + [Commit(1)], Arrive(3, 16), Limit(1, 10));
    EventRunStep(locked + [Commit(1)] + [Arrive(3, 16)], Commit(3), Limit(1, 10));
  }
}
