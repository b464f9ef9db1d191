/**
 * The slice of a Next.js API route the handlers use: the request verb,
 * query-string values and JSON body members, and the status, JSON body and
 * `Allow` header of the response.
 */
module Http {
  import opened Wrappers
  import opened Db

  /** A query-string parameter: absent, given once, or repeated (an array). */
  datatype QueryValue = Absent | One(text: string) | Many(texts: seq<string>)

  /** Body members are modelled as strings only; an absent member is `None`. */
  datatype Request = Request(verb: string, query: map<string, QueryValue>, body: map<string, string>)

  datatype Body =
    | Message(text: string)                 // `{ message }`
    | NoBody                                // `res.end()`
    | NullStartTime                         // `{ start_time: null }`
    | Timer(timer: TimerRow)
    | SessionList(sessions: seq<WorkSession>)
    | SessionPage(items: seq<WorkSession>, total: nat, page: int, totalPages: int)
    | CreatedSession(session: WorkSession)
    | CreatedUser(user: UserRow)
    | Exists(found: bool)
    | Crash                                 // a rejection that escaped the handler: the framework's error page

  datatype Response = Response(status: int, body: Body, allow: seq<string>)

  function Json(status: int, body: Body): (r: Response)
    ensures r.status == status && r.body == body && r.allow == []
  {
    Response(status, body, [])
  }

  /** What Next.js answers when the handler's promise rejects. */
  const Crashed := Json(500, Crash)

  function Param(req: Request, name: string): (q: QueryValue)
    ensures name !in req.query ==> q == Absent
    ensures name in req.query ==> q == req.query[name]
  {
    if name in req.query then req.query[name] else Absent
  }

  function Field(req: Request, name: string): (v: Option<string>)
    ensures v.Some? <==> name in req.body
    ensures v.Some? ==> v.value == req.body[name]
  {
    if name in req.body then Some(req.body[name]) else None
  }

  /** JavaScript truthiness of a body member: present and not the empty string. */
  predicate Truthy(v: Option<string>) {
    v.Some? && v.value != ""
  }

  /** The guard `!value || typeof value !== "string"`: the text of a single non-empty value. */
  function SingleText(q: QueryValue): (r: Option<string>)
    ensures r.Some? <==> q.One? && q.text != ""
    ensures r.Some? ==> r.value == q.text
  {
    if q.One? && q.text != "" then Some(q.text) else None
  }

  /** `String(value)` of an array: its elements joined by commas. */
  function JoinWithCommas(texts: seq<string>): (r: string)
    ensures texts == [] ==> r == ""
    ensures |texts| == 1 ==> r == texts[0]
  {
    if texts == [] then ""
    else if |texts| == 1 then texts[0]
    else texts[0] + "," + JoinWithCommas(texts[1..])
  }

  /** The text `parseInt(value as string)` reads, with a destructuring default. */
  function TextOr(q: QueryValue, default: string): (r: string)
    ensures q.Absent? ==> r == default
    ensures q.One? ==> r == q.text
  {
    match q
    case Absent => default
    case One(t) => t
    case Many(ts) => JoinWithCommas(ts)
  }
}
