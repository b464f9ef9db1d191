/**
 * The variant timer route (src/pages/api/timer.api.ts). Its handlers are
 * awaited and catch store failures themselves: an absent timer is 404, a
 * delete answers 204, and a failed upsert or delete is a 500 with a message.
 */
module TimerApi {
  import opened Wrappers
  import opened Db
  import opened Http

  const FieldsRequired := "userCode e startTime são obrigatórios"
  const UserCodeRequired := "userCode é obrigatório"
  const TimerNotFound := "Timer não encontrado"
  const SaveFailed := "Erro ao salvar timer"
  const DeleteFailed := "Erro ao deletar timer"
  const NotAllowed := "Método não permitido"

  /** GET: unlike `/api/timer`, an absent timer is an error. */
  function HandleGet(timers: map<string, int>, req: Request): (res: Response)
    ensures SingleText(Param(req, "userCode")).None? ==> res == Json(400, Message(UserCodeRequired))
    ensures SingleText(Param(req, "userCode")).Some? ==>
      var code := SingleText(Param(req, "userCode")).value;
      (code !in timers ==> res == Json(404, Message(TimerNotFound))) &&
      (code in timers ==> res == Json(200, Timer(TimerRow(code, timers[code]))))
  {
    match SingleText(Param(req, "userCode"))
    case None => Json(400, Message(UserCodeRequired))
    case Some(code) =>
      match FindTimer(timers, code)
      case None => Json(404, Message(TimerNotFound))
      case Some(timer) => Json(200, Timer(timer))
  }

  ghost predicate PostDone(before: map<string, int>, after: map<string, int>, req: Request,
                           parse: string -> Option<int>, res: Response)
  {
    var code := Field(req, "userCode");
    var start := Field(req, "startTime");
    if !Truthy(code) || !Truthy(start) then
      res == Json(400, Message(FieldsRequired)) && after == before
    else if parse(start.value).None? then
      res == Json(500, Message(SaveFailed)) && after == before
    else
      after == before[code.value := parse(start.value).value] &&
      res == Json(200, Timer(TimerRow(code.value, parse(start.value).value)))
  }

  method HandlePost(t: TimerTable, req: Request, parse: string -> Option<int>) returns (res: Response)
    modifies t
    ensures PostDone(old(t.rows), t.rows, req, parse, res)
  {
    var code := Field(req, "userCode");
    var start := Field(req, "startTime");
    if !Truthy(code) || !Truthy(start) {
      return Json(400, Message(FieldsRequired));
    }
    var instant := parse(start.value);
    if instant.None? {
      // the store rejects an Invalid Date and the handler's own catch answers
      return Json(500, Message(SaveFailed));
    }
    var timer := t.Upsert(code.value, instant.value);
    res := Json(200, Timer(timer));
  }

  ghost predicate DeleteDone(before: map<string, int>, after: map<string, int>, req: Request, res: Response) {
    var code := SingleText(Param(req, "userCode"));
    if code.None? then
      res == Json(400, Message(UserCodeRequired)) && after == before
    else if code.value !in before then
      res == Json(500, Message(DeleteFailed)) && after == before
    else
      after == before - {code.value} && res == Json(204, NoBody)
  }

  method HandleDelete(t: TimerTable, req: Request) returns (res: Response)
    modifies t
    ensures DeleteDone(old(t.rows), t.rows, req, res)
  {
    var code := SingleText(Param(req, "userCode"));
    if code.None? {
      return Json(400, Message(UserCodeRequired));
    }
    var ok := t.Delete(code.value);
    if !ok {
      return Json(500, Message(DeleteFailed));
    }
    res := Json(204, NoBody);
  }

  method Handler(t: TimerTable, req: Request, parse: string -> Option<int>) returns (res: Response)
    modifies t
    ensures req.verb == "POST" ==> PostDone(old(t.rows), t.rows, req, parse, res)
    ensures req.verb == "GET" ==> res == HandleGet(old(t.rows), req) && t.rows == old(t.rows)
    ensures req.verb == "DELETE" ==> DeleteDone(old(t.rows), t.rows, req, res)
    ensures req.verb !in {"POST", "GET", "DELETE"} ==>
      res == Json(405, Message(NotAllowed)) && t.rows == old(t.rows)
  {
    match req.verb
    case "POST" => res := HandlePost(t, req, parse);
    case "GET" => res := HandleGet(t.rows, req);
    case "DELETE" => res := HandleDelete(t, req);
    case _ => res := Json(405, Message(NotAllowed));
  }

  function GetRequest(userCode: string): Request {
    Request("GET", map["userCode" := One(userCode)], map[])
  }

  /** A successful POST is read back by a GET for the same code. */
  lemma GetAfterPost(before: map<string, int>, after: map<string, int>, req: Request,
                     parse: string -> Option<int>, res: Response)
    requires PostDone(before, after, req, parse, res) && res.status == 200
    ensures var code := Field(req, "userCode").value;
      HandleGet(after, GetRequest(code)) == Json(200, Timer(TimerRow(code, parse(Field(req, "startTime").value).value)))
  {
    var code := Field(req, "userCode").value;
    assert Param(GetRequest(code), "userCode") == One(code);
  }

  /** After a successful DELETE, GET reports 404 and a second DELETE fails with 500. */
  lemma DeleteIsNotRepeatable(t0: map<string, int>, t1: map<string, int>, t2: map<string, int>,
                              req: Request, r1: Response, r2: Response)
    requires DeleteDone(t0, t1, req, r1) && r1.status == 204
    requires DeleteDone(t1, t2, req, r2)
    ensures HandleGet(t1, GetRequest(SingleText(Param(req, "userCode")).value)) == Json(404, Message(TimerNotFound))
    ensures r2 == Json(500, Message(DeleteFailed)) && t2 == t1
  {
    var code := SingleText(Param(req, "userCode")).value;
    assert Param(GetRequest(code), "userCode") == One(code);
  }
}
