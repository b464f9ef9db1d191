/**
 * The `useTimer(userCode)` hook: the per-user timer controller. It loads the
 * user's sessions and any saved start time, starts and stops the clock
 * (saving a session on stop), and on every tick recomputes the live elapsed
 * time and the grand total. Clock readings, the server's answers and the
 * browser storage are passed in; React's re-render and interval scheduling
 * become explicit method calls.
 */
module UseTimer {
  import opened Wrappers
  import opened DurationText
  import opened Decimal
  import SS = SessionService
  import TS = TimerStorage

  /** The text the clock shows before any tick and after a reset. */
  const ResetText: string := "0h 00m"

  function TrimStart(s: string): (r: string)
    ensures |r| <= |s| && r == s[|s| - |r|..]
    ensures forall i :: 0 <= i < |s| - |r| ==> IsJsWhiteSpace(s[i])
    ensures r != [] ==> !IsJsWhiteSpace(r[0])
  {
    if s != [] && IsJsWhiteSpace(s[0]) then
      var r := TrimStart(s[1..]);
      assert forall i :: 1 <= i < |s| - |r| ==> s[i] == s[1..][i - 1];
      r
    else s
  }

  function TrimEnd(s: string): (r: string)
    ensures |r| <= |s| && r == s[..|r|]
    ensures forall i :: |r| <= i < |s| ==> IsJsWhiteSpace(s[i])
    ensures r != [] ==> !IsJsWhiteSpace(r[|r| - 1])
  {
    if s != [] && IsJsWhiteSpace(s[|s| - 1]) then TrimEnd(s[..|s| - 1]) else s
  }

  function Trim(s: string): string {
    TrimEnd(TrimStart(s))
  }

  /** Trimming leaves something exactly when some character is not white space. */
  lemma TrimKeepsContent(s: string)
    ensures |Trim(s)| > 0 <==> exists i :: 0 <= i < |s| && !IsJsWhiteSpace(s[i])
  {
    var t := TrimStart(s);
    var k := |s| - |t|;
    if |Trim(s)| > 0 {
      assert s[k] == t[0];
    }
  }

  /** `isValidUserCode`: `userCode.trim().length > 0`, so a code is valid exactly when it is not blank. */
  function IsValidUserCode(userCode: string): (valid: bool)
    ensures valid <==> exists i :: 0 <= i < |userCode| && !IsJsWhiteSpace(userCode[i])
  {
    TrimKeepsContent(userCode);
    |Trim(userCode)| > 0
  }

  /** `calculatePreciseDuration(start, end)`, the integer-division formula. */
  function CalculatePreciseDuration(start: int, end: int): (r: string)
    ensures end >= start ==>
      r == FormatHM(((end - start) / MsPerMinute) / 60, ((end - start) / MsPerMinute) % 60)
  {
    var diffMs := end - start;
    FloorFormat(diffMs)
  }

  /** `formatSession`: the other fields kept, the duration measured to the end, or to `now` while open. */
  function FormatSession(s: SS.Session, now: int): (r: SS.Session)
    ensures r.id == s.id && r.startTime == s.startTime && r.endTime == s.endTime
    ensures r.duration == Some(CalculatePreciseDuration(s.startTime, s.endTime.GetOr(now)))
  {
    s.(duration := Some(CalculatePreciseDuration(s.startTime, s.endTime.GetOr(now))))
  }

  function FormatSessions(sessions: seq<SS.Session>, now: int): (r: seq<SS.Session>)
    ensures |r| == |sessions|
    ensures forall i :: 0 <= i < |r| ==> r[i] == FormatSession(sessions[i], now)
  {
    if sessions == [] then [] else [FormatSession(sessions[0], now)] + FormatSessions(sessions[1..], now)
  }

  /** What the hook returns to the page (the toggle action is the method `Toggle`). */
  datatype TimerView = TimerView(
    isClockRunning: bool,
    currentTime: string,
    totalDuration: string,
    sessions: seq<SS.Session>,
    loading: bool)

  /** The constant view returned for an empty or blank user code. */
  const StoppedView: TimerView := TimerView(false, ResetText, ResetText, [], false)

  class TimerController {
    const userCode: string
    /** `isValidUserCode`, computed once per hook call. */
    const isValidUserCode: bool
    const storage: TS.LocalStorage
    var isClockRunning: bool
    var startTime: Option<int>
    var currentTime: string
    var sessions: seq<SS.Session>
    var totalDuration: string
    var loading: bool

    /** The clock runs exactly when a start time is held. */
    ghost predicate Valid()
      reads this
    {
      isClockRunning <==> startTime.Some?
    }

    /** The saved start time is the one the controller holds: present exactly while running. */
    ghost predicate InSync()
      reads this, storage
    {
      TS.Lookup(storage.items, userCode) == startTime
    }

    /** The hook's first render: the initial `useState` values. */
    constructor (userCode: string, storage: TS.LocalStorage)
      ensures this.userCode == userCode && this.storage == storage
      ensures isValidUserCode == IsValidUserCode(userCode)
      ensures Valid() && !isClockRunning && startTime == None
      ensures currentTime == ResetText && totalDuration == ResetText && sessions == []
      ensures loading == isValidUserCode
    {
      this.userCode := userCode;
      this.storage := storage;
      isValidUserCode := IsValidUserCode(userCode);
      isClockRunning := false;
      startTime := None;
      currentTime := ResetText;
      sessions := [];
      totalDuration := ResetText;
      loading := isValidUserCode;
    }

    /** The effect on `[isClockRunning, startTime, sessions]`: while stopped, the total without live time. */
    method RefreshTotal()
      modifies this`totalDuration
      ensures !(isClockRunning && startTime.Some?) ==> totalDuration == SS.CalculateTotalDuration(sessions, 0)
      ensures isClockRunning && startTime.Some? ==> totalDuration == old(totalDuration)
    {
      if !(isClockRunning && startTime.Some?) {
        totalDuration := SS.CalculateTotalDuration(sessions, 0);
      }
    }

    /** `loadSessions`: on success the listed sessions, formatted; a failure is logged and ignored. */
    method LoadSessions(now: int, reply: SS.Reply<SS.ListingBody>)
      modifies this`sessions
      ensures var r := SS.FetchSessions(userCode, reply);
        sessions == if r.Success? then FormatSessions(r.value.sessions, now) else old(sessions)
    {
      var r := SS.FetchSessions(userCode, reply);
      if r.Success? {
        sessions := FormatSessions(r.value.sessions, now);
      }
    }

    /** `restoreTimerState`: a saved start time puts the clock back into the running state. */
    method RestoreTimerState()
      modifies this`startTime, this`isClockRunning
      ensures var saved := TS.Lookup(storage.items, userCode);
        if saved.Some? then startTime == saved && isClockRunning
        else startTime == old(startTime) && isClockRunning == old(isClockRunning)
    {
      var saved := storage.GetStartTime(userCode);
      if saved.Some? {
        startTime := saved;
        isClockRunning := true;
      }
    }

    /**
     * The mount effects: the total is computed for the initial render; with a
     * valid code `initializeTimer` then loads the sessions, restores the timer
     * and ends loading; with an invalid code only loading ends.
     */
    method Mount(now: int, reply: SS.Reply<SS.ListingBody>)
      requires Valid() && !isClockRunning
      modifies this
      ensures Valid() && !loading
      ensures currentTime == old(currentTime)
      ensures totalDuration == SS.CalculateTotalDuration(sessions, 0)
      ensures !isValidUserCode ==>
        sessions == old(sessions) && !isClockRunning && startTime == old(startTime)
      ensures isValidUserCode ==>
        var r := SS.FetchSessions(userCode, reply);
        sessions == (if r.Success? then FormatSessions(r.value.sessions, now) else old(sessions)) &&
        startTime == TS.Lookup(storage.items, userCode) &&
        (isClockRunning <==> TS.Key(userCode) in storage.items) &&
        InSync()
    {
      RefreshTotal();
      if isValidUserCode {
        LoadSessions(now, reply);
        ghost var loaded := sessions;
        RefreshTotal();
        assert totalDuration == SS.CalculateTotalDuration(loaded, 0);
        RestoreTimerState();
        assert sessions == loaded;
      }
      loading := false;
    }

    /** `startClock`: the clock starts at `now` and the start time is saved. */
    method StartClock(now: int)
      requires Valid()
      modifies this, storage
      ensures Valid() && InSync()
      ensures isClockRunning && startTime == Some(now)
      ensures storage.items == old(storage.items)[TS.Key(userCode) := now]
      ensures sessions == old(sessions) && currentTime == old(currentTime)
      ensures totalDuration == old(totalDuration) && loading == old(loading)
    {
      startTime := Some(now);
      isClockRunning := true;
      storage.SaveStartTime(userCode, now);
      RefreshTotal();
    }

    /** `resetClockState`: stopped, no start time, the clock text reset, the saved start cleared. */
    method ResetClockState()
      modifies this, storage
      ensures Valid() && InSync()
      ensures !isClockRunning && startTime == None && currentTime == ResetText
      ensures storage.items == old(storage.items) - {TS.Key(userCode)}
      ensures sessions == old(sessions) && totalDuration == old(totalDuration) && loading == old(loading)
    {
      isClockRunning := false;
      startTime := None;
      currentTime := ResetText;
      storage.ClearStartTime(userCode);
    }

    /**
     * `stopClock`: `saved` is how `saveSession` for [startTime, now] ended. A
     * saved session goes in front of the list; a failure is returned to the
     * caller. Either way the clock is reset.
     */
    method StopClock(now: int, saved: Result<SS.Session, string>) returns (error: Option<string>)
      requires Valid() && isClockRunning
      modifies this, storage
      ensures Valid() && InSync()
      ensures !isClockRunning && startTime == None && currentTime == ResetText
      ensures storage.items == old(storage.items) - {TS.Key(userCode)}
      ensures saved.Success? ==> sessions == [FormatSession(saved.value, now)] + old(sessions) && error == None
      ensures saved.Failure? ==> sessions == old(sessions) && error == Some(saved.error)
      ensures totalDuration == SS.CalculateTotalDuration(sessions, 0) && loading == old(loading)
    {
      if saved.Success? {
        sessions := [FormatSession(saved.value, now)] + sessions;
        error := None;
      } else {
        error := Some(saved.error);
      }
      ResetClockState();
      RefreshTotal();
    }

    /**
     * The `toggleClock` the hook hands out: stop when running, start when
     * stopped; for an invalid code it is the no-op `async () => {}`.
     */
    method ToggleClock(now: int, saved: Result<SS.Session, string>) returns (error: Option<string>)
      requires Valid()
      modifies this, storage
      ensures Valid()
      ensures !isValidUserCode ==> unchanged(this, storage) && error == None
      ensures isValidUserCode && !old(isClockRunning) ==>
        isClockRunning && startTime == Some(now) && InSync() && error == None &&
        storage.items == old(storage.items)[TS.Key(userCode) := now] &&
        sessions == old(sessions) && currentTime == old(currentTime) &&
        totalDuration == old(totalDuration) && loading == old(loading)
      ensures isValidUserCode && old(isClockRunning) ==>
        !isClockRunning && startTime == None && currentTime == ResetText && InSync() &&
        storage.items == old(storage.items) - {TS.Key(userCode)} &&
        (saved.Success? ==> sessions == [FormatSession(saved.value, now)] + old(sessions) && error == None) &&
        (saved.Failure? ==> sessions == old(sessions) && error == Some(saved.error)) &&
        totalDuration == SS.CalculateTotalDuration(sessions, 0) && loading == old(loading)
    {
      error := None;
      if !isValidUserCode {
        return;
      }
      if isClockRunning {
        error := StopClock(now, saved);
      } else {
        StartClock(now);
      }
    }

    /** `updateCurrentDuration`, the once-a-second tick while the clock runs. */
    method UpdateCurrentDuration(now: int)
      requires Valid() && isClockRunning
      modifies this`currentTime, this`totalDuration
      ensures currentTime == SS.CalculateDuration(startTime.value, now)
      ensures totalDuration == SS.CalculateTotalDuration(sessions, now - startTime.value)
    {
      var start := startTime.value;
      currentTime := SS.CalculateDuration(start, now);
      totalDuration := SS.CalculateTotalDuration(sessions, now - start);
    }

    /** The object the hook returns. */
    function View(): (v: TimerView)
      reads this
      ensures !isValidUserCode ==> v == StoppedView
      ensures isValidUserCode ==>
        v.isClockRunning == isClockRunning && v.sessions == sessions && v.loading == loading &&
        v.currentTime == currentTime && v.totalDuration == totalDuration
    {
      if isValidUserCode then
        TimerView(isClockRunning, currentTime, totalDuration, sessions, loading)
      else StoppedView
    }
  }

  /** A blank code is never valid, so its view is the constant stopped one. */
  lemma BlankCodeIsInvalid(userCode: string)
    requires forall i :: 0 <= i < |userCode| ==> IsJsWhiteSpace(userCode[i])
    ensures !IsValidUserCode(userCode)
  {
  }

  /**
   * The reset text "0h 00m" is not the text of any duration: every formatted
   * duration prints its minutes without a leading zero. So the clock shows
   * "0h 00m" only until the first tick or total recomputation replaces it.
   */
  lemma ResetTextIsNotADuration(hours: int, minutes: int)
    ensures FormatHM(hours, minutes) != ResetText
  {
    ParseFormatRoundTrip(hours, minutes);
    ResetTextReadsAsZero();
    assert IntToString(0) == "0";
    assert |FormatHM(0, 0)| == 5;
  }

  /** "0h 00m" reads back as zero hours and zero minutes. */
  lemma ResetTextReadsAsZero()
    ensures ParseHM(ResetText) == Some((0, 0))
  {
    assert IndexOf(ResetText, 'h') == 1;
    assert ResetText[..1] == "0" && ResetText[3..5] == "00";
    assert DigitsValue("00") == 0;
  }
}
