/**
 * The user route (src/pages/api/users/index.api.ts): register a user under a
 * code nobody else holds, or ask whether a code is registered.
 */
module UsersApi {
  import opened Wrappers
  import opened Db
  import opened Http

  const FieldsRequired := "Nome e código são obrigatórios."
  const CodeTaken := "Já existe um usuário com este código."
  const CodeNameRequired := "Code Name é obrigatório."
  const NotAllowed := "Método não permitido"

  ghost predicate PostDone(before: seq<UserRow>, after: seq<UserRow>, req: Request, res: Response) {
    var name := Field(req, "name");
    var code := Field(req, "code_name");
    if !Truthy(name) || !Truthy(code) then
      res == Json(400, Message(FieldsRequired)) && after == before
    else if FindUser(before, code.value).Some? then
      res == Json(409, Message(CodeTaken)) && after == before
    else
      var user := UserRow(|before|, name.value, code.value);
      after == before + [user] && res == Json(201, CreatedUser(user))
  }

  /** POST: checks the code is free before creating the user. */
  method HandlePost(t: UserTable, req: Request) returns (res: Response)
    modifies t
    ensures PostDone(old(t.users), t.users, req, res)
  {
    var name := Field(req, "name");
    var code := Field(req, "code_name");
    if !Truthy(name) || !Truthy(code) {
      return Json(400, Message(FieldsRequired));
    }
    if FindUser(t.users, code.value).Some? {
      return Json(409, Message(CodeTaken));
    }
    var user := t.Create(name.value, code.value);
    res := Json(201, CreatedUser(user.value));
  }

  /** GET: `{ exists }` tells whether the code is registered. */
  function HandleGet(users: seq<UserRow>, req: Request): (res: Response)
    ensures SingleText(Param(req, "code_name")).None? ==> res == Json(400, Message(CodeNameRequired))
    ensures SingleText(Param(req, "code_name")).Some? ==>
      var code := SingleText(Param(req, "code_name")).value;
      res == Json(200, Exists(exists i :: 0 <= i < |users| && users[i].codeName == code))
  {
    match SingleText(Param(req, "code_name"))
    case None => Json(400, Message(CodeNameRequired))
    case Some(code) => Json(200, Exists(FindUser(users, code).Some?))
  }

  method Handler(t: UserTable, req: Request) returns (res: Response)
    modifies t
    ensures req.verb == "POST" ==> PostDone(old(t.users), t.users, req, res)
    ensures req.verb == "GET" ==> res == HandleGet(old(t.users), req) && t.users == old(t.users)
    ensures req.verb !in {"POST", "GET"} ==> res == Json(405, Message(NotAllowed)) && t.users == old(t.users)
  {
    match req.verb
    case "POST" => res := HandlePost(t, req);
    case "GET" => res := HandleGet(t.users, req);
    case _ => res := Json(405, Message(NotAllowed));
  }

  /** Every POST keeps user codes unique (and ids positional). */
  lemma PostKeepsCodesUnique(before: seq<UserRow>, after: seq<UserRow>, req: Request, res: Response)
    requires UsersValid(before) && PostDone(before, after, req, res)
    ensures UsersValid(after)
  {
    var name := Field(req, "name");
    var code := Field(req, "code_name");
    if Truthy(name) && Truthy(code) && FindUser(before, code.value).None? {
      CreateKeepsUsersValid(before, name.value, code.value);
    }
  }

  function ExistsRequest(codeName: string): Request {
    Request("GET", map["code_name" := One(codeName)], map[])
  }

  /** After a 201 the code is registered, and posting it again is a 409. */
  lemma RegisteredCodeExists(before: seq<UserRow>, after: seq<UserRow>, req: Request, res: Response)
    requires PostDone(before, after, req, res) && res.status == 201
    ensures var code := Field(req, "code_name").value;
      HandleGet(after, ExistsRequest(code)) == Json(200, Exists(true))
    ensures forall after', res' :: PostDone(after, after', req, res') ==> res' == Json(409, Message(CodeTaken))
  {
    var code := Field(req, "code_name").value;
    assert Param(ExistsRequest(code), "code_name") == One(code);
    assert after[|before|].codeName == code;
  }
}
