/**
 * The dayjs variant of the session service, the one the timer hook uses:
 * durations through dayjs's duration decomposition, a grand total over the
 * closed sessions only, and the client calls that list and save sessions,
 * with their input guards and the translation of failures into messages.
 */
module SessionService {
  import opened Wrappers
  import opened DurationText
  import Decimal

  /** A work session as the client holds it; `duration` is filled in on the client. */
  datatype Session = Session(id: string, startTime: int, endTime: Option<int>, duration: Option<string>)

  /** `calculateElapsedTime(startTime, endTime)`: up to the end, or up to `now` when there is none. */
  function CalculateElapsedTime(startTime: int, endTime: Option<int>, now: int): (r: int)
    ensures endTime.Some? ==> r + startTime == endTime.value
    ensures endTime.None? ==> r + startTime == now
  {
    var end := if endTime.Some? then endTime.value else now;
    end - startTime
  }

  /**
   * `formatDuration(dayjs.duration(ms))`: hours are `Math.floor(asHours())`;
   * `minutes()` is the minute component of dayjs's decomposition, which strips
   * whole years, months, days and hours (all whole multiples of an hour) with
   * truncating division, so it is the truncated minute count of the
   * millisecond remainder within the hour.
   */
  function FormatDuration(ms: int): (r: string)
    ensures ms >= 0 ==> r == FloorFormat(ms)
  {
    FormatHM(ms / MsPerHour, JsTruncDiv(JsRem(ms, MsPerHour), MsPerMinute))
  }

  /** `calculateDuration(start, end)` */
  function CalculateDuration(start: int, end: int): (r: string)
    ensures end >= start ==> r == FloorFormat(end - start)
    ensures end >= start ==>
      r == FormatHM(((end - start) / MsPerMinute) / 60, ((end - start) / MsPerMinute) % 60)
  {
    var elapsed := end - start;
    FormatDuration(elapsed)
  }

  /** Reference sum: the intervals of the sessions that have an end, in any order. */
  function ClosedSum(sessions: seq<Session>): int {
    if sessions == [] then 0
    else
      var s := sessions[0];
      (if s.endTime.Some? then s.endTime.value - s.startTime else 0) + ClosedSum(sessions[1..])
  }

  /** The source's `reduce`: open sessions are skipped, the others added to the accumulator. */
  function ReduceClosed(acc: int, sessions: seq<Session>): int
    decreases |sessions|
  {
    if sessions == [] then acc
    else
      var s := sessions[0];
      var acc' := if s.endTime.None? then acc else acc + CalculateElapsedTime(s.startTime, s.endTime, 0);
      ReduceClosed(acc', sessions[1..])
  }

  /**
   * `calculateTotalDuration(sessions, currentElapsed)`: the fold starts from
   * `currentElapsed`, so the total is the live time plus the closed intervals.
   */
  function CalculateTotalDuration(sessions: seq<Session>, currentElapsed: int): (r: string)
    ensures r == FormatDuration(currentElapsed + ClosedSum(sessions))
  {
    ReduceIsClosedSum(currentElapsed, sessions);
    FormatDuration(ReduceClosed(currentElapsed, sessions))
  }

  lemma {:induction false} ReduceIsClosedSum(acc: int, sessions: seq<Session>)
    ensures ReduceClosed(acc, sessions) == acc + ClosedSum(sessions)
    decreases |sessions|
  {
    if sessions != [] {
      var s := sessions[0];
      var acc' := if s.endTime.None? then acc else acc + CalculateElapsedTime(s.startTime, s.endTime, 0);
      ReduceIsClosedSum(acc', sessions[1..]);
    }
  }

  /** The total is the live elapsed time plus the intervals of the closed sessions, formatted. */
  predicate AllOpen(sessions: seq<Session>) {
    forall i :: 0 <= i < |sessions| ==> sessions[i].endTime.None?
  }

  lemma {:induction false} ClosedSumOfOpen(sessions: seq<Session>)
    requires AllOpen(sessions)
    ensures ClosedSum(sessions) == 0
    decreases |sessions|
  {
    if sessions != [] {
      ClosedSumOfOpen(sessions[1..]);
    }
  }

  /** Without closed sessions the total is just the formatted live elapsed time. */
  lemma TotalWithoutClosedSessions(sessions: seq<Session>, currentElapsed: int)
    requires AllOpen(sessions)
    ensures CalculateTotalDuration(sessions, currentElapsed) == FormatDuration(currentElapsed)
  {
    ClosedSumOfOpen(sessions);
  }

  lemma {:induction false} ClosedSumConcat(a: seq<Session>, b: seq<Session>)
    ensures ClosedSum(a + b) == ClosedSum(a) + ClosedSum(b)
    decreases |a|
  {
    if a == [] {
      assert a + b == b;
    } else {
      assert (a + b)[0] == a[0];
      assert (a + b)[1..] == a[1..] + b;
      ClosedSumConcat(a[1..], b);
    }
  }

  /** Adding a closed session in front adds exactly its interval to the total. */
  lemma TotalWithNewSession(s: Session, sessions: seq<Session>, currentElapsed: int)
    requires s.endTime.Some?
    ensures CalculateTotalDuration([s] + sessions, currentElapsed)
         == FormatDuration(currentElapsed + (s.endTime.value - s.startTime) + ClosedSum(sessions))
  {
    ClosedSumConcat([s], sessions);
  }

  // ---------------------------------------------------------------------------
  // Client calls. The HTTP exchange is a parameter: what the server answered.
  // ---------------------------------------------------------------------------

  /** How a request through the shared HTTP client ended. */
  datatype Reply<+T> =
    | Delivered(data: T)
      /** An HTTP or network failure; the server's `message`, if its error body had one. */
    | HttpFailure(serverMessage: Option<string>)
      /** Any other exception raised while the request was being handled. */
    | OtherFailure

  /** The `sessions` member of a listing reply, as found in the JSON body. */
  datatype SessionsField = Missing | NotAnArray | Items(items: seq<Session>)

  datatype ListingBody = ListingBody(sessions: SessionsField, total: Option<int>)

  datatype Listing = Listing(sessions: seq<Session>, total: int)

  datatype CreateSessionInput = CreateSessionInput(codeName: string, startTime: string, endTime: string)

  const EmptyCodeNameMessage := "CodeName não pode ser vazio."
  const UnknownFetchMessage := "Erro desconhecido ao buscar sessões."
  const ServerFetchMessage := "Erro ao buscar sessões no servidor."
  const IncompleteSessionMessage := "Dados da sessão estão incompletos."
  const UnknownSaveMessage := "Erro desconhecido ao salvar sessão."
  const ServerSaveMessage := "Erro ao salvar sessão no servidor."

  /** `error.response?.data?.message || fallback` */
  function ServerMessageOr(serverMessage: Option<string>, fallback: string): (m: string)
    ensures serverMessage.Some? && serverMessage.value != "" ==> m == serverMessage.value
    ensures serverMessage.None? || serverMessage.value == "" ==> m == fallback
  {
    if serverMessage.Some? && serverMessage.value != "" then serverMessage.value else fallback
  }

  /** Each listed session keeps its fields and gets a duration exactly when it has an end. */
  function WithDuration(s: Session): (r: Session)
    ensures r.id == s.id && r.startTime == s.startTime && r.endTime == s.endTime
    ensures r.duration.Some? <==> s.endTime.Some?
    ensures s.endTime.Some? ==> r.duration.value == CalculateDuration(s.startTime, s.endTime.value)
  {
    s.(duration := if s.endTime.Some? then Some(CalculateDuration(s.startTime, s.endTime.value)) else None)
  }

  function MapWithDuration(sessions: seq<Session>): (r: seq<Session>)
    ensures |r| == |sessions|
    ensures forall i :: 0 <= i < |r| ==> r[i] == WithDuration(sessions[i])
  {
    if sessions == [] then [] else [WithDuration(sessions[0])] + MapWithDuration(sessions[1..])
  }

  /**
   * `fetchSessions(codeName)`. An empty code fails before any request, whatever
   * the server would have answered; the result's error is the thrown message.
   */
  function FetchSessions(codeName: string, reply: Reply<ListingBody>): (r: Result<Listing, string>)
    ensures codeName == "" ==> r == Failure(EmptyCodeNameMessage)
    ensures codeName != "" && reply.Delivered? && reply.data.sessions.Items? ==>
      r.Success? && r.value.sessions == MapWithDuration(reply.data.sessions.items) &&
      r.value.total == reply.data.total.GetOr(0)
    ensures codeName != "" && reply.Delivered? && !reply.data.sessions.Items? ==>
      r == Failure(UnknownFetchMessage)
    ensures codeName != "" && reply.HttpFailure? ==>
      r == Failure(ServerMessageOr(reply.serverMessage, ServerFetchMessage))
    ensures codeName != "" && reply.OtherFailure? ==> r == Failure(UnknownFetchMessage)
  {
    if codeName == "" then Failure(EmptyCodeNameMessage)
    else
      match reply
      case Delivered(data) =>
        // the format check throws a plain Error, caught by the non-HTTP branch
        if !data.sessions.Items? then Failure(UnknownFetchMessage)
        else Success(Listing(MapWithDuration(data.sessions.items), data.total.GetOr(0)))
      case HttpFailure(msg) => Failure(ServerMessageOr(msg, ServerFetchMessage))
      case OtherFailure => Failure(UnknownFetchMessage)
  }

  /** `saveSession(session)`: an incomplete payload fails before any request. */
  function SaveSession(input: CreateSessionInput, reply: Reply<Session>): (r: Result<Session, string>)
    ensures (input.codeName == "" || input.startTime == "" || input.endTime == "") ==>
      r == Failure(IncompleteSessionMessage)
    ensures input.codeName != "" && input.startTime != "" && input.endTime != "" ==>
      match reply
      case Delivered(s) => r == Success(s)
      case HttpFailure(msg) => r == Failure(ServerMessageOr(msg, ServerSaveMessage))
      case OtherFailure => r == Failure(UnknownSaveMessage)
  {
    if input.codeName == "" || input.startTime == "" || input.endTime == "" then
      Failure(IncompleteSessionMessage)
    else
      match reply
      case Delivered(s) => Success(s)
      case HttpFailure(msg) => Failure(ServerMessageOr(msg, ServerSaveMessage))
      case OtherFailure => Failure(UnknownSaveMessage)
  }

  /** A rejected empty code never depends on the request: no request is made. */
  lemma EmptyCodeSendsNothing(r1: Reply<ListingBody>, r2: Reply<ListingBody>)
    ensures FetchSessions("", r1) == FetchSessions("", r2)
  {
  }
}
