/**
 * The `/api/timer` route (src/pages/api/timer/index.api.ts): read, upsert and
 * remove the running-timer row of a user code. Its handlers are returned
 * without `await`, so a store rejection escapes the `try` and the framework
 * answers with its own error page (`Crashed`).
 */
module TimerIndexApi {
  import opened Wrappers
  import opened Db
  import opened Http

  const UserCodeRequired := "userCode é obrigatório"
  const InvalidData := "Dados inválidos"
  const NotAllowed := "Método não permitido"
  const TimerRemoved := "Timer removido com sucesso."
  const AllowedVerbs := ["GET", "POST", "DELETE"]

  /** GET: a missing timer is not an error, it reads as `{ start_time: null }`. */
  function HandleGet(timers: map<string, int>, req: Request): (res: Response)
    ensures SingleText(Param(req, "userCode")).None? ==> res == Json(400, Message(UserCodeRequired))
    ensures SingleText(Param(req, "userCode")).Some? ==> res.status == 200
    ensures res.status == 200 ==>
      var code := SingleText(Param(req, "userCode")).value;
      (code in timers ==> res.body == Timer(TimerRow(code, timers[code]))) &&
      (code !in timers ==> res.body == NullStartTime)
  {
    match SingleText(Param(req, "userCode"))
    case None => Json(400, Message(UserCodeRequired))
    case Some(code) =>
      match FindTimer(timers, code)
      case None => Json(200, NullStartTime)
      case Some(timer) => Json(200, Timer(timer))
  }

  /** The outcome of a POST, as a relation between the table before and after it. */
  ghost predicate PostDone(before: map<string, int>, after: map<string, int>, req: Request,
                           parse: string -> Option<int>, res: Response)
  {
    var code := Field(req, "userCode");
    var start := Field(req, "startTime");
    if !Truthy(code) || !Truthy(start) then
      res == Json(400, Message(InvalidData)) && after == before
    else if parse(start.value).None? then
      res == Crashed && after == before
    else
      after == before[code.value := parse(start.value).value] &&
      res == Json(200, Timer(TimerRow(code.value, parse(start.value).value)))
  }

  /** POST: upserts the start time `parse` reads from the body's `startTime`. */
  method HandlePost(t: TimerTable, req: Request, parse: string -> Option<int>) returns (res: Response)
    modifies t
    ensures PostDone(old(t.rows), t.rows, req, parse, res)
  {
    var code := Field(req, "userCode");
    var start := Field(req, "startTime");
    if !Truthy(code) || !Truthy(start) {
      return Json(400, Message(InvalidData));
    }
    var instant := parse(start.value);
    if instant.None? {
      // `new Date(startTime)` is an Invalid Date, which the store rejects
      return Crashed;
    }
    var timer := t.Upsert(code.value, instant.value);
    res := Json(200, Timer(timer));
  }

  ghost predicate DeleteDone(before: map<string, int>, after: map<string, int>, req: Request, res: Response) {
    var code := SingleText(Param(req, "userCode"));
    if code.None? then
      res == Json(400, Message(UserCodeRequired)) && after == before
    else if code.value !in before then
      res == Crashed && after == before
    else
      after == before - {code.value} && res == Json(200, Message(TimerRemoved))
  }

  /** DELETE: removes the row; deleting a row that is not there rejects. */
  method HandleDelete(t: TimerTable, req: Request) returns (res: Response)
    modifies t
    ensures DeleteDone(old(t.rows), t.rows, req, res)
  {
    var code := SingleText(Param(req, "userCode"));
    if code.None? {
      return Json(400, Message(UserCodeRequired));
    }
    var ok := t.Delete(code.value);
    if !ok {
      return Crashed;
    }
    res := Json(200, Message(TimerRemoved));
  }

  /** The route: GET, POST and DELETE are served; anything else is 405 with an `Allow` header. */
  method Handler(t: TimerTable, req: Request, parse: string -> Option<int>) returns (res: Response)
    modifies t
    ensures req.verb == "GET" ==> res == HandleGet(old(t.rows), req) && t.rows == old(t.rows)
    ensures req.verb == "POST" ==> PostDone(old(t.rows), t.rows, req, parse, res)
    ensures req.verb == "DELETE" ==> DeleteDone(old(t.rows), t.rows, req, res)
    ensures req.verb !in AllowedVerbs ==>
      res == Response(405, Message(NotAllowed), AllowedVerbs) && t.rows == old(t.rows)
  {
    if req.verb == "GET" {
      return HandleGet(t.rows, req);
    }
    if req.verb == "POST" {
      res := HandlePost(t, req, parse);
      return;
    }
    if req.verb == "DELETE" {
      res := HandleDelete(t, req);
      return;
    }
    res := Response(405, Message(NotAllowed), AllowedVerbs);
  }

  function GetRequest(userCode: string): Request {
    Request("GET", map["userCode" := One(userCode)], map[])
  }

  /** A successful POST is read back by a GET for the same code. */
  lemma GetAfterPost(before: map<string, int>, after: map<string, int>, req: Request,
                     parse: string -> Option<int>, res: Response)
    requires PostDone(before, after, req, parse, res) && res.status == 200
    ensures var code := Field(req, "userCode").value;
      HandleGet(after, GetRequest(code)) == Json(200, Timer(TimerRow(code, parse(Field(req, "startTime").value).value)))
  {
    var code := Field(req, "userCode").value;
    assert Param(GetRequest(code), "userCode") == One(code);
  }

  /** After a successful DELETE the code reads as having no timer. */
  lemma GetAfterDelete(before: map<string, int>, after: map<string, int>, req: Request, res: Response)
    requires DeleteDone(before, after, req, res) && res.status == 200
    ensures var code := SingleText(Param(req, "userCode")).value;
      HandleGet(after, GetRequest(code)) == Json(200, NullStartTime)
  {
    var code := SingleText(Param(req, "userCode")).value;
    assert Param(GetRequest(code), "userCode") == One(code);
  }

  /** A POST or DELETE touches no other user's row. */
  lemma OtherCodesUntouched(before: map<string, int>, after: map<string, int>, req: Request,
                            parse: string -> Option<int>, res: Response, other: string)
    requires PostDone(before, after, req, parse, res) || DeleteDone(before, after, req, res)
    requires Field(req, "userCode") != Some(other) && SingleText(Param(req, "userCode")) != Some(other)
    ensures other in after <==> other in before
    ensures other in before ==> after[other] == before[other]
  {
  }

  /** Posting twice for a code keeps only the second start time. */
  lemma SecondPostRebases(t0: map<string, int>, t1: map<string, int>, t2: map<string, int>,
                          req1: Request, req2: Request, parse: string -> Option<int>, r1: Response, r2: Response)
    requires PostDone(t0, t1, req1, parse, r1) && PostDone(t1, t2, req2, parse, r2)
    requires r1.status == 200 && r2.status == 200
    requires Field(req1, "userCode") == Field(req2, "userCode")
    ensures t2 == t0[Field(req2, "userCode").value := parse(Field(req2, "startTime").value).value]
  {
  }
}
