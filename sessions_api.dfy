/**
 * The unpaged session route (src/pages/api/sessions.api.ts): list all of a
 * user's sessions, or record a finished one. Handlers are returned without
 * `await`, so a store rejection escapes as the framework's error page.
 */
module SessionsApi {
  import opened Wrappers
  import opened Db
  import opened Http

  const CodeNameRequired := "Code Name é obrigatório"
  const InvalidData := "Dados inválidos"
  const UnknownUser := "Usuário não encontrado"
  const NotAllowed := "Método não permitido"

  function UserNotFound(codeName: string): string {
    "Usuário com code_name " + codeName + " não encontrado."
  }

  /** GET: the user's sessions as the store relates them, in table order. */
  function HandleGet(users: seq<UserRow>, rows: seq<WorkSession>, req: Request): (res: Response)
    ensures SingleText(Param(req, "codeName")).None? ==> res == Json(400, Message(CodeNameRequired))
    ensures SingleText(Param(req, "codeName")).Some? ==>
      var code := SingleText(Param(req, "codeName")).value;
      (FindUser(users, code).None? ==> res == Json(404, Message(UserNotFound(code)))) &&
      (FindUser(users, code).Some? ==> res == Json(200, SessionList(SessionsOfUser(rows, FindUser(users, code).value.id))))
  {
    match SingleText(Param(req, "codeName"))
    case None => Json(400, Message(CodeNameRequired))
    case Some(code) =>
      match FindUser(users, code)
      case None => Json(404, Message(UserNotFound(code)))
      case Some(user) => Json(200, SessionList(SessionsOfUser(rows, user.id)))
  }

  /**
   * The outcome of a POST. Nothing checks that the end follows the start or
   * falls on the same day.
   */
  ghost predicate PostDone(users: seq<UserRow>, before: seq<WorkSession>, after: seq<WorkSession>,
                           req: Request, parse: string -> Option<int>, res: Response)
  {
    var code := Field(req, "codeName");
    var start := Field(req, "startTime");
    var end := Field(req, "endTime");
    if !Truthy(code) || !Truthy(start) || !Truthy(end) then
      res == Json(400, Message(InvalidData)) && after == before
    else if FindUser(users, code.value).None? then
      res == Json(404, Message(UnknownUser)) && after == before
    else if parse(start.value).None? || parse(end.value).None? then
      res == Crashed && after == before
    else
      var row := WorkSession(|before|, FindUser(users, code.value).value.id, parse(start.value).value, Some(parse(end.value).value));
      after == before + [row] && res == Json(201, CreatedSession(row))
  }

  method HandlePost(users: seq<UserRow>, sessions: SessionTable, req: Request, parse: string -> Option<int>)
    returns (res: Response)
    modifies sessions
    ensures PostDone(users, old(sessions.rows), sessions.rows, req, parse, res)
  {
    var code := Field(req, "codeName");
    var start := Field(req, "startTime");
    var end := Field(req, "endTime");
    if !Truthy(code) || !Truthy(start) || !Truthy(end) {
      return Json(400, Message(InvalidData));
    }
    var user := FindUser(users, code.value);
    if user.None? {
      return Json(404, Message(UnknownUser));
    }
    var startTime := parse(start.value);
    var endTime := parse(end.value);
    if startTime.None? || endTime.None? {
      // an Invalid Date makes the store reject the insert
      return Crashed;
    }
    var row := sessions.Create(user.value.id, startTime.value, Some(endTime.value));
    res := Json(201, CreatedSession(row));
  }

  method Handler(users: seq<UserRow>, sessions: SessionTable, req: Request, parse: string -> Option<int>)
    returns (res: Response)
    modifies sessions
    ensures req.verb == "GET" ==> res == HandleGet(users, old(sessions.rows), req) && sessions.rows == old(sessions.rows)
    ensures req.verb == "POST" ==> PostDone(users, old(sessions.rows), sessions.rows, req, parse, res)
    ensures req.verb !in {"GET", "POST"} ==> res == Json(405, Message(NotAllowed)) && sessions.rows == old(sessions.rows)
  {
    match req.verb
    case "GET" => res := HandleGet(users, sessions.rows, req);
    case "POST" => res := HandlePost(users, sessions, req, parse);
    case _ => res := Json(405, Message(NotAllowed));
  }

  /**
   * A recorded session shows up at the end of its user's listing, and no
   * other user's listing changes.
   */
  lemma PostedSessionIsListed(users: seq<UserRow>, before: seq<WorkSession>, after: seq<WorkSession>,
                              req: Request, parse: string -> Option<int>, res: Response, userId: nat)
    requires PostDone(users, before, after, req, parse, res) && res.status == 201
    ensures res.body.CreatedSession?
    ensures userId == res.body.session.userId ==>
      SessionsOfUser(after, userId) == SessionsOfUser(before, userId) + [res.body.session]
    ensures userId != res.body.session.userId ==>
      SessionsOfUser(after, userId) == SessionsOfUser(before, userId)
  {
    SessionsOfUserAppend(before, res.body.session, userId);
  }

  /** A POST that is turned away writes no row. */
  lemma RejectedPostWritesNothing(users: seq<UserRow>, before: seq<WorkSession>, after: seq<WorkSession>,
                                  req: Request, parse: string -> Option<int>, res: Response)
    requires PostDone(users, before, after, req, parse, res) && res.status != 201
    ensures after == before
  {
  }

  /** A POST whose times `parse` reads writes a session even when it ends before it starts. */
  lemma NoOrderCheck(users: seq<UserRow>, before: seq<WorkSession>, after: seq<WorkSession>,
                     req: Request, parse: string -> Option<int>, res: Response)
    requires PostDone(users, before, after, req, parse, res)
    requires Truthy(Field(req, "codeName")) && Truthy(Field(req, "startTime")) && Truthy(Field(req, "endTime"))
    requires FindUser(users, Field(req, "codeName").value).Some?
    requires parse(Field(req, "startTime").value).Some? && parse(Field(req, "endTime").value).Some?
    ensures res.status == 201 && |after| == |before| + 1
  {
  }
}
