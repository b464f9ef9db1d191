/**
 * Grouping of sessions by the day they started on, and the display defaults
 * of one listed session. The calendar day of an instant (dayjs's local
 * "YYYY-MM-DD") and the clock text of an instant ("HH:mm") are parameters.
 */
module SessionsByDay {
  import opened Wrappers
  import SS = SessionService

  /** The sessions of `sessions` that started on `day`, in their input order. */
  function SessionsOn(sessions: seq<SS.Session>, day: string, dayOf: int -> string): (r: seq<SS.Session>)
    ensures |r| <= |sessions|
    ensures forall i :: 0 <= i < |r| ==> dayOf(r[i].startTime) == day
  {
    if sessions == [] then []
    else
      var last := sessions[|sessions| - 1];
      SessionsOn(sessions[..|sessions| - 1], day, dayOf) + (if dayOf(last.startTime) == day then [last] else [])
  }

  /** The distinct start days, in the order of each day's first session. */
  function DaysInOrder(sessions: seq<SS.Session>, dayOf: int -> string): seq<string> {
    if sessions == [] then []
    else
      var days := DaysInOrder(sessions[..|sessions| - 1], dayOf);
      var day := dayOf(sessions[|sessions| - 1].startTime);
      if day in days then days else days + [day]
  }

  /**
   * `groupSessionsByDate`: a reduce over the sessions that creates a day's
   * bucket on first sight and pushes each session into its bucket. `order` is
   * the order in which the buckets were created, which is the order
   * `Object.entries` renders them in.
   */
  method GroupSessionsByDate(sessions: seq<SS.Session>, dayOf: int -> string)
    returns (groups: map<string, seq<SS.Session>>, order: seq<string>)
    ensures order == DaysInOrder(sessions, dayOf)
    ensures groups.Keys == set d | d in order
    ensures forall d :: d in groups ==> groups[d] == SessionsOn(sessions, d, dayOf)
  {
    groups, order := map[], [];
    var i := 0;
    while i < |sessions|
      invariant 0 <= i <= |sessions|
      invariant Grouped(groups, order, sessions[..i], dayOf)
    {
      var session := sessions[i];
      var date := dayOf(session.startTime);
      assert sessions[..i + 1] == sessions[..i] + [session];
      GroupStep(groups, order, sessions[..i], session, dayOf);
      if date !in groups {
        groups := groups[date := []];
        order := order + [date];
      }
      groups := groups[date := groups[date] + [session]];
      i := i + 1;
    }
    assert sessions[..i] == sessions;
  }

  /** The loop's invariant: the buckets so far are those of the sessions `done`. */
  ghost predicate Grouped(groups: map<string, seq<SS.Session>>, order: seq<string>,
                          done: seq<SS.Session>, dayOf: int -> string)
  {
    && order == DaysInOrder(done, dayOf)
    && groups.Keys == set d | d in order
    && forall d :: d in groups ==> groups[d] == SessionsOn(done, d, dayOf)
  }

  /** One step of the reduce keeps the buckets equal to those of the sessions seen. */
  lemma GroupStep(groups: map<string, seq<SS.Session>>, order: seq<string>,
                  done: seq<SS.Session>, x: SS.Session, dayOf: int -> string)
    requires Grouped(groups, order, done, dayOf)
    ensures var date := dayOf(x.startTime);
      var g := if date in groups then groups else groups[date := []];
      var o := if date in groups then order else order + [date];
      Grouped(g[date := g[date] + [x]], o, done + [x], dayOf)
  {
    if dayOf(x.startTime) in groups {
      KnownDayStep(groups, order, done, x, dayOf);
    } else {
      NewDayStep(groups, order, done, x, dayOf);
    }
  }

  lemma KnownDayStep(groups: map<string, seq<SS.Session>>, order: seq<string>,
                     done: seq<SS.Session>, x: SS.Session, dayOf: int -> string)
    requires Grouped(groups, order, done, dayOf) && dayOf(x.startTime) in groups
    ensures var date := dayOf(x.startTime);
      Grouped(groups[date := groups[date] + [x]], order, done + [x], dayOf)
  {
    SnocUnfolds(done, x, dayOf);
  }

  lemma NewDayStep(groups: map<string, seq<SS.Session>>, order: seq<string>,
                   done: seq<SS.Session>, x: SS.Session, dayOf: int -> string)
    requires Grouped(groups, order, done, dayOf) && dayOf(x.startTime) !in groups
    ensures var date := dayOf(x.startTime);
      Grouped(groups[date := [x]], order + [date], done + [x], dayOf)
  {
    var date := dayOf(x.startTime);
    SnocUnfolds(done, x, dayOf);
    AbsentDayHasNoSessions(done, date, dayOf);
    assert (set d | d in order + [date]) == (set d | d in order) + {date};
  }

  /** Both specification functions, one session further. */
  lemma SnocUnfolds(done: seq<SS.Session>, x: SS.Session, dayOf: int -> string)
    ensures forall d :: SessionsOn(done + [x], d, dayOf)
                     == SessionsOn(done, d, dayOf) + (if dayOf(x.startTime) == d then [x] else [])
    ensures var days := DaysInOrder(done, dayOf);
      DaysInOrder(done + [x], dayOf) == if dayOf(x.startTime) in days then days else days + [dayOf(x.startTime)]
  {
    assert (done + [x])[..|done|] == done;
  }

  lemma {:induction false} AbsentDayHasNoSessions(sessions: seq<SS.Session>, day: string, dayOf: int -> string)
    requires day !in DaysInOrder(sessions, dayOf)
    ensures SessionsOn(sessions, day, dayOf) == []
    decreases |sessions|
  {
    if sessions != [] {
      AbsentDayHasNoSessions(sessions[..|sessions| - 1], day, dayOf);
    }
  }

  /** The group keys are exactly the start days of the sessions. */
  lemma {:induction false} DaysAreStartDays(sessions: seq<SS.Session>, dayOf: int -> string, day: string)
    ensures day in DaysInOrder(sessions, dayOf) <==>
      exists i :: 0 <= i < |sessions| && dayOf(sessions[i].startTime) == day
    decreases |sessions|
  {
    if sessions != [] {
      var init := sessions[..|sessions| - 1];
      DaysAreStartDays(init, dayOf, day);
      if exists i :: 0 <= i < |init| && dayOf(init[i].startTime) == day {
        var i :| 0 <= i < |init| && dayOf(init[i].startTime) == day;
        assert sessions[i] == init[i];
      }
      if exists i :: 0 <= i < |sessions| && dayOf(sessions[i].startTime) == day {
        var i :| 0 <= i < |sessions| && dayOf(sessions[i].startTime) == day;
        if i < |init| {
          assert init[i] == sessions[i];
        }
      }
    }
  }

  predicate Distinct(days: seq<string>) {
    forall i, j :: 0 <= i < j < |days| ==> days[i] != days[j]
  }

  /** Each day appears once among the groups. */
  lemma {:induction false} DaysDistinct(sessions: seq<SS.Session>, dayOf: int -> string)
    ensures Distinct(DaysInOrder(sessions, dayOf))
    decreases |sessions|
  {
    if sessions != [] {
      var init := DaysInOrder(sessions[..|sessions| - 1], dayOf);
      DaysDistinct(sessions[..|sessions| - 1], dayOf);
      var day := dayOf(sessions[|sessions| - 1].startTime);
      if day !in init {
        var days := init + [day];
        forall i, j | 0 <= i < j < |days| ensures days[i] != days[j] {
          assert days[i] == init[i];
          if j == |init| {
            assert days[j] == day;
          } else {
            assert days[j] == init[j];
            assert init[i] != init[j];
          }
        }
        assert DaysInOrder(sessions, dayOf) == days;
      }
    }
  }

  /** Every session lies in the group of the day it started on. */
  lemma {:induction false} SessionInItsDay(sessions: seq<SS.Session>, dayOf: int -> string, k: nat)
    requires k < |sessions|
    ensures sessions[k] in SessionsOn(sessions, dayOf(sessions[k].startTime), dayOf)
    decreases |sessions|
  {
    var init := sessions[..|sessions| - 1];
    if k < |init| {
      assert init[k] == sessions[k];
      SessionInItsDay(init, dayOf, k);
    }
  }

  /** Splitting the input splits every group the same way: within a group, input order is kept. */
  lemma {:induction false} SessionsOnConcat(a: seq<SS.Session>, b: seq<SS.Session>, day: string, dayOf: int -> string)
    ensures SessionsOn(a + b, day, dayOf) == SessionsOn(a, day, dayOf) + SessionsOn(b, day, dayOf)
    decreases |b|
  {
    if b == [] {
      assert a + b == a;
    } else {
      var b' := b[..|b| - 1];
      assert (a + b)[..|a + b| - 1] == a + b';
      assert (a + b)[|a + b| - 1] == b[|b| - 1];
      SessionsOnConcat(a, b', day, dayOf);
    }
  }

  /** Sum of the sizes of the groups of `days`. */
  function GroupSizes(sessions: seq<SS.Session>, days: seq<string>, dayOf: int -> string): nat {
    if days == [] then 0 else |SessionsOn(sessions, days[0], dayOf)| + GroupSizes(sessions, days[1..], dayOf)
  }

  lemma {:induction false} GroupSizesAppend(sessions: seq<SS.Session>, x: SS.Session, days: seq<string>, dayOf: int -> string)
    requires Distinct(days)
    ensures GroupSizes(sessions + [x], days, dayOf)
         == GroupSizes(sessions, days, dayOf) + (if dayOf(x.startTime) in days then 1 else 0)
    decreases |days|
  {
    if days != [] {
      SessionsOnConcat(sessions, [x], days[0], dayOf);
      assert SessionsOn([x], days[0], dayOf) == (if dayOf(x.startTime) == days[0] then [x] else []) by {
        assert [x][..0] == [];
      }
      GroupSizesAppend(sessions, x, days[1..], dayOf);
      if dayOf(x.startTime) == days[0] {
        assert dayOf(x.startTime) !in days[1..];
      }
      assert dayOf(x.startTime) in days <==> dayOf(x.startTime) == days[0] || dayOf(x.startTime) in days[1..];
    }
  }

  lemma {:induction false} GroupSizesSnoc(sessions: seq<SS.Session>, days: seq<string>, day: string, dayOf: int -> string)
    ensures GroupSizes(sessions, days + [day], dayOf)
         == GroupSizes(sessions, days, dayOf) + |SessionsOn(sessions, day, dayOf)|
    decreases |days|
  {
    if days == [] {
      assert [day][1..] == [];
    } else {
      assert (days + [day])[1..] == days[1..] + [day];
      GroupSizesSnoc(sessions, days[1..], day, dayOf);
    }
  }

  /** The group sizes add up to the number of sessions: each session is in exactly one group. */
  lemma {:induction false} GroupSizesSumToLength(sessions: seq<SS.Session>, dayOf: int -> string)
    ensures GroupSizes(sessions, DaysInOrder(sessions, dayOf), dayOf) == |sessions|
    decreases |sessions|
  {
    if sessions != [] {
      var init := sessions[..|sessions| - 1];
      var x := sessions[|sessions| - 1];
      var days := DaysInOrder(init, dayOf);
      var day := dayOf(x.startTime);
      assert sessions == init + [x];
      GroupSizesSumToLength(init, dayOf);
      DaysDistinct(init, dayOf);
      GroupSizesAppend(init, x, days, dayOf);
      if day !in days {
        GroupSizesSnoc(sessions, days, day, dayOf);
        AbsentDayHasNoSessions(init, day, dayOf);
        SessionsOnConcat(init, [x], day, dayOf);
        assert [x][..0] == [];
      }
    }
  }

  /** Each session belongs to the one group of its start day and to no other. */
  lemma OnlyInItsDay(sessions: seq<SS.Session>, dayOf: int -> string, x: SS.Session, day: string)
    requires x in SessionsOn(sessions, day, dayOf)
    ensures day == dayOf(x.startTime)
  {
  }

  /** An empty list gives no groups. */
  lemma NoSessionsNoGroups(dayOf: int -> string)
    ensures DaysInOrder([], dayOf) == []
  {
  }

  /** `SessionItem`'s end column: "Ativo" while the session is open. */
  function EndLabel(s: SS.Session, clockText: int -> string): (r: string)
    ensures s.endTime.None? ==> r == "Ativo"
    ensures s.endTime.Some? ==> r == clockText(s.endTime.value)
  {
    if s.endTime.Some? then clockText(s.endTime.value) else "Ativo"
  }

  /** `SessionItem`'s duration column: `session.duration || "N/A"`. */
  function DurationLabel(s: SS.Session): (r: string)
    ensures r != ""
    ensures s.duration.Some? && s.duration.value != "" ==> r == s.duration.value
    ensures s.duration.None? || s.duration.value == "" ==> r == "N/A"
  {
    if s.duration.Some? && s.duration.value != "" then s.duration.value else "N/A"
  }
}
