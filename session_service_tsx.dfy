/**
 * The integer-division variant of the session service: a duration is the
 * whole hours and the minutes within the hour of a millisecond interval, and
 * the grand total sums every session's interval plus the live elapsed time.
 */
module SessionServiceTsx {
  import opened Wrappers
  import opened DurationText

  /** A work session as this variant sees it; `endTime` absent means still open. */
  datatype Session = Session(id: string, startTime: int, endTime: Option<int>, duration: string)

  /** `calculateDuration(start, end)` */
  function CalculateDuration(start: int, end: int): (r: string)
    ensures end >= start ==>
      r == FormatHM(((end - start) / MsPerMinute) / 60, ((end - start) / MsPerMinute) % 60)
  {
    FloorFormat(end - start)
  }

  /** What one session adds to the total: up to its end, or up to `now` while open. */
  function Interval(s: Session, now: int): int {
    s.endTime.GetOr(now) - s.startTime
  }

  /** Reference sum of the intervals, independent of how the source folds them. */
  function SumIntervals(sessions: seq<Session>, now: int): int {
    if sessions == [] then 0 else Interval(sessions[0], now) + SumIntervals(sessions[1..], now)
  }

  /** `sessions.reduce((acc, session) => acc + (end - start), acc)`, a left fold. */
  function ReduceIntervals(acc: int, sessions: seq<Session>, now: int): int
    decreases |sessions|
  {
    if sessions == [] then acc
    else ReduceIntervals(acc + Interval(sessions[0], now), sessions[1..], now)
  }

  /**
   * `calculateTotalDuration(sessions, currentElapsed)`, with `Date.now()` passed
   * as `now`: the text of every session's interval plus the live elapsed time.
   */
  function CalculateTotalDuration(sessions: seq<Session>, currentElapsed: int, now: int): (r: string)
    ensures r == FloorFormat(SumIntervals(sessions, now) + currentElapsed)
  {
    ReduceIsSum(0, sessions, now);
    var totalMilliseconds := ReduceIntervals(0, sessions, now) + currentElapsed;
    FloorFormat(totalMilliseconds)
  }

  lemma {:induction false} ReduceIsSum(acc: int, sessions: seq<Session>, now: int)
    ensures ReduceIntervals(acc, sessions, now) == acc + SumIntervals(sessions, now)
    decreases |sessions|
  {
    if sessions != [] {
      ReduceIsSum(acc + Interval(sessions[0], now), sessions[1..], now);
    }
  }

  lemma TotalOfNothing(now: int)
    ensures CalculateTotalDuration([], 0, now) == "0h 0m"
  {
    assert FloorHours(0) == 0 && FloorMinutes(0) == 0;
    assert Decimal.IntToString(0) == "0";
  }

  /** A total over one closed session and no live time is that session's duration. */
  lemma TotalOfOneClosedSession(s: Session, now: int)
    requires s.endTime.Some?
    ensures CalculateTotalDuration([s], 0, now) == CalculateDuration(s.startTime, s.endTime.value)
  {
    assert SumIntervals([s], now) == Interval(s, now);
  }

  lemma {:induction false} SumConcat(a: seq<Session>, b: seq<Session>, now: int)
    ensures SumIntervals(a + b, now) == SumIntervals(a, now) + SumIntervals(b, now)
    decreases |a|
  {
    if a != [] {
      assert (a + b)[0] == a[0];
      assert (a + b)[1..] == a[1..] + b;
      SumConcat(a[1..], b, now);
    } else {
      assert a + b == b;
    }
  }

  /** Removing one session from a list removes exactly its interval from the sum. */
  lemma SumRemoveAt(b: seq<Session>, k: nat, now: int)
    requires k < |b|
    ensures SumIntervals(b, now) == Interval(b[k], now) + SumIntervals(b[..k] + b[k + 1..], now)
  {
    assert b == b[..k] + ([b[k]] + b[k + 1..]);
    SumConcat(b[..k], [b[k]] + b[k + 1..], now);
    assert ([b[k]] + b[k + 1..])[1..] == b[k + 1..];
    SumConcat(b[..k], b[k + 1..], now);
  }

  lemma MultisetRemoveAt(b: seq<Session>, k: nat)
    requires k < |b|
    ensures multiset(b[..k] + b[k + 1..]) == multiset(b) - multiset{b[k]}
  {
    assert b == b[..k] + [b[k]] + b[k + 1..];
  }

  lemma RestsMatch(a: seq<Session>, b: seq<Session>, k: nat)
    requires multiset(a) == multiset(b) && a != [] && k < |b| && b[k] == a[0]
    ensures multiset(a[1..]) == multiset(b[..k] + b[k + 1..])
  {
    MultisetRemoveAt(b, k);
    assert a == [a[0]] + a[1..];
  }

  lemma {:induction false} SumPermutation(a: seq<Session>, b: seq<Session>, now: int)
    requires multiset(a) == multiset(b)
    ensures SumIntervals(a, now) == SumIntervals(b, now)
    decreases |a|
  {
    if a != [] {
      assert a[0] in multiset(b);
      var k :| 0 <= k < |b| && b[k] == a[0];
      var rest := b[..k] + b[k + 1..];
      SumRemoveAt(b, k, now);
      RestsMatch(a, b, k);
      SumPermutation(a[1..], rest, now);
    } else {
      assert b == [];
    }
  }

  /** The grand total does not depend on the order in which the sessions are listed. */
  lemma TotalIgnoresOrder(a: seq<Session>, b: seq<Session>, currentElapsed: int, now: int)
    requires multiset(a) == multiset(b)
    ensures CalculateTotalDuration(a, currentElapsed, now) == CalculateTotalDuration(b, currentElapsed, now)
  {
    SumPermutation(a, b, now);
    var total := SumIntervals(a, now) + currentElapsed;
    assert CalculateTotalDuration(a, currentElapsed, now) == FloorFormat(total);
    assert CalculateTotalDuration(b, currentElapsed, now) == FloorFormat(total);
  }

  /** An open session counts up to `now`. */
  lemma OpenSessionCountsToNow(s: Session, now: int)
    requires s.endTime.None?
    ensures CalculateTotalDuration([s], 0, now) == CalculateDuration(s.startTime, now)
  {
    assert SumIntervals([s], now) == Interval(s, now);
  }

  lemma ThirtyMinutesText()
    ensures FloorFormat(30 * MsPerMinute) == "0h 30m"
  {
    assert FloorHours(30 * MsPerMinute) == 0;
    assert FloorMinutes(30 * MsPerMinute) == 30;
    assert Decimal.NatToString(30) == Decimal.NatToString(3) + "0";
  }

  lemma TwoHoursText()
    ensures FloorFormat(120 * MsPerMinute) == "2h 0m"
  {
    assert FloorHours(120 * MsPerMinute) == 2;
    assert FloorMinutes(120 * MsPerMinute) == 0;
  }

  /** Worked example: 10:00 to 10:30 is "0h 30m"; with 90 live minutes added, "2h 0m". */
  lemma HalfHourExample(s: Session, now: int)
    requires s.endTime == Some(s.startTime + 30 * MsPerMinute)
    ensures CalculateTotalDuration([s], 0, now) == "0h 30m"
    ensures CalculateTotalDuration([s], 90 * MsPerMinute, now) == "2h 0m"
  {
    assert SumIntervals([s], now) == 30 * MsPerMinute;
    ThirtyMinutesText();
    TwoHoursText();
  }

  /** Worked example: 10:00:00 to 12:45:30 is "2h 45m"; the leftover seconds are dropped. */
  lemma TwoHoursFortyFiveExample(start: int)
    ensures CalculateDuration(start, start + 165 * MsPerMinute + 30 * 1000) == "2h 45m"
  {
    var elapsed := 165 * MsPerMinute + 30 * 1000;
    assert elapsed / MsPerMinute == 165;
    assert Decimal.NatToString(45) == Decimal.NatToString(4) + "5";
  }
}
