/**
 * The paged session listing (src/pages/api/sessions/index.api.ts): a user's
 * work sessions, newest first, cut into pages of `limit` rows, together with
 * the total count and the number of pages.
 */
module SessionsPagedApi {
  import opened Wrappers
  import opened Decimal
  import opened Db
  import opened Http

  const CodeNameRequired := "Code Name é obrigatório"
  const ServerError := "Erro interno no servidor"
  const NotAllowed := "Método não permitido"

  function UserNotFound(codeName: string): string {
    "Usuário com code_name " + codeName + " não encontrado."
  }

  // ---- `orderBy: { start_time: "desc" }` ----

  predicate NewestFirst(s: seq<WorkSession>) {
    forall i, j :: 0 <= i < j < |s| ==> s[i].startTime >= s[j].startTime
  }

  /** Places `x` before the first row that started earlier than it. */
  function InsertByStart(x: WorkSession, s: seq<WorkSession>): (r: seq<WorkSession>)
    ensures |r| == |s| + 1
  {
    if s == [] then [x]
    else if x.startTime >= s[0].startTime then [x] + s
    else [s[0]] + InsertByStart(x, s[1..])
  }

  /** The ordering puts the newest start first and keeps exactly the same rows. */
  function SortByStartDesc(s: seq<WorkSession>): (r: seq<WorkSession>)
    ensures |r| == |s|
    ensures NewestFirst(r)
    ensures multiset(r) == multiset(s)
  {
    if s == [] then []
    else
      var rest := SortByStartDesc(s[1..]);
      InsertKeepsOrder(s[0], rest);
      InsertKeepsRows(s[0], rest);
      assert s == [s[0]] + s[1..];
      InsertByStart(s[0], rest)
  }

  lemma {:induction false} InsertKeepsRows(x: WorkSession, s: seq<WorkSession>)
    ensures multiset(InsertByStart(x, s)) == multiset(s) + multiset{x}
    decreases |s|
  {
    if s != [] && x.startTime < s[0].startTime {
      InsertKeepsRows(x, s[1..]);
      assert s == [s[0]] + s[1..];
    }
  }

  lemma {:induction false} InsertKeepsOrder(x: WorkSession, s: seq<WorkSession>)
    requires NewestFirst(s)
    ensures NewestFirst(InsertByStart(x, s))
    decreases |s|
  {
    if s != [] && x.startTime < s[0].startTime {
      var tail := InsertByStart(x, s[1..]);
      InsertKeepsOrder(x, s[1..]);
      InsertKeepsRows(x, s[1..]);
      forall k | 0 <= k < |tail| ensures s[0].startTime >= tail[k].startTime {
        assert tail[k] in multiset(s[1..]) + multiset{x};
        if tail[k] != x {
          assert tail[k] in s[1..];
        }
      }
    }
  }

  // ---- `skip: (page - 1) * limit, take: limit` ----

  function Min(a: int, b: int): int {
    if a <= b then a else b
  }

  /** `skip: (page - 1) * limit` */
  function Skip(page: int, limit: int): nat
    requires page >= 1 && limit >= 1
  {
    (page - 1) * limit
  }

  /** The rows Prisma returns for a page; a page past the end is empty. */
  function Page(rows: seq<WorkSession>, page: int, limit: int): (r: seq<WorkSession>)
    requires page >= 1 && limit >= 1
    ensures |r| <= limit
    ensures Skip(page, limit) >= |rows| ==> r == []
    ensures Skip(page, limit) < |rows| ==> r == rows[Skip(page, limit) .. Min(Skip(page, limit) + limit, |rows|)]
  {
    rows[Min(Skip(page, limit), |rows|) .. Min(Skip(page, limit) + limit, |rows|)]
  }

  /** `Math.ceil(total / limit)` for a positive limit: the least page count whose pages cover `total`. */
  function CeilDiv(total: nat, limit: int): (r: nat)
    requires limit >= 1
    ensures r * limit >= total
    ensures total > 0 ==> (r - 1) * limit < total
    ensures total == 0 ==> r == 0
  {
    var q := (total + limit - 1) / limit;
    var rem := (total + limit - 1) % limit;
    assert total + limit - 1 == q * limit + rem;
    assert q * limit - limit == (q - 1) * limit;
    q
  }

  /** Pages 1 to `count`, one after another. */
  function Pages(rows: seq<WorkSession>, limit: int, count: nat): seq<WorkSession>
    requires limit >= 1
  {
    if count == 0 then [] else Pages(rows, limit, count - 1) + Page(rows, count, limit)
  }

  lemma {:induction false} PagesArePrefix(rows: seq<WorkSession>, limit: int, count: nat)
    requires limit >= 1
    ensures Pages(rows, limit, count) == rows[..Min(count * limit, |rows|)]
  {
    if count > 0 {
      PagesArePrefix(rows, limit, count - 1);
      assert Skip(count, limit) == (count - 1) * limit;
      assert Skip(count, limit) + limit == count * limit;
      var a := Min(Skip(count, limit), |rows|);
      var b := Min(count * limit, |rows|);
      assert Page(rows, count, limit) == rows[a..b];
      assert rows[..a] + rows[a..b] == rows[..b];
    }
  }

  /** Concatenating pages 1 to `totalPages` gives back every row once, in order. */
  lemma AllPagesCoverRows(rows: seq<WorkSession>, limit: int)
    requires limit >= 1
    ensures Pages(rows, limit, CeilDiv(|rows|, limit)) == rows
  {
    PagesArePrefix(rows, limit, CeilDiv(|rows|, limit));
    assert rows[..|rows|] == rows;
  }

  lemma MulIsMonotonic(a: int, b: int, c: int)
    requires a >= b && c >= 0
    ensures a * c >= b * c
  {
    assert a * c == b * c + (a - b) * c;
  }

  /** A page after the last one is empty. */
  lemma PagesPastTheEndAreEmpty(rows: seq<WorkSession>, page: int, limit: int)
    requires limit >= 1 && page > CeilDiv(|rows|, limit)
    ensures Page(rows, page, limit) == []
  {
    MulIsMonotonic(page - 1, CeilDiv(|rows|, limit), limit);
  }

  // ---- the handler ----

  /** The user's sessions in the order the page query returns them. */
  function Listing(rows: seq<WorkSession>, user: UserRow): seq<WorkSession> {
    SortByStartDesc(SessionsOfUser(rows, user.id))
  }

  /**
   * GET. `page` and `limit` go through `parseInt`; a NaN, a page below 1 or a
   * limit below 1 gives the store skip/take values it rejects, which the
   * handler's catch turns into a 500.
   */
  function HandleGet(users: seq<UserRow>, rows: seq<WorkSession>, req: Request): (res: Response)
    ensures SingleText(Param(req, "codeName")).None? ==> res == Json(400, Message(CodeNameRequired))
    ensures SingleText(Param(req, "codeName")).Some? ==>
      var code := SingleText(Param(req, "codeName")).value;
      var page := JsParseInt(TextOr(Param(req, "page"), "1"));
      var limit := JsParseInt(TextOr(Param(req, "limit"), "10"));
      (FindUser(users, code).None? ==> res == Json(404, Message(UserNotFound(code)))) &&
      (FindUser(users, code).Some? && (page.None? || limit.None? || page.value < 1 || limit.value < 1) ==>
         res == Json(500, Message(ServerError))) &&
      (FindUser(users, code).Some? && page.Some? && limit.Some? && page.value >= 1 && limit.value >= 1 ==>
         var all := Listing(rows, FindUser(users, code).value);
         res == Json(200, SessionPage(Page(all, page.value, limit.value), |all|, page.value, CeilDiv(|all|, limit.value))))
  {
    match SingleText(Param(req, "codeName"))
    case None => Json(400, Message(CodeNameRequired))
    case Some(code) =>
      var page := JsParseInt(TextOr(Param(req, "page"), "1"));
      var limit := JsParseInt(TextOr(Param(req, "limit"), "10"));
      match FindUser(users, code)
      case None => Json(404, Message(UserNotFound(code)))
      case Some(user) =>
        if page.None? || limit.None? || page.value < 1 || limit.value < 1 then Json(500, Message(ServerError))
        else
          var all := Listing(rows, user);
          Json(200, SessionPage(Page(all, page.value, limit.value), |all|, page.value, CeilDiv(|all|, limit.value)))
  }

  function Handler(users: seq<UserRow>, rows: seq<WorkSession>, req: Request): (res: Response)
    ensures req.verb == "GET" ==> res == HandleGet(users, rows, req)
    ensures req.verb != "GET" ==> res == Json(405, Message(NotAllowed))
  {
    if req.verb == "GET" then HandleGet(users, rows, req) else Json(405, Message(NotAllowed))
  }

  /** The answer to a request whose code names a user and whose page and limit read as positive numbers. */
  lemma AnswersPage(users: seq<UserRow>, rows: seq<WorkSession>, req: Request, codeName: string, page: int, limit: int)
    requires SingleText(Param(req, "codeName")) == Some(codeName) && FindUser(users, codeName).Some?
    requires JsParseInt(TextOr(Param(req, "page"), "1")) == Some(page) && page >= 1
    requires JsParseInt(TextOr(Param(req, "limit"), "10")) == Some(limit) && limit >= 1
    ensures var all := Listing(rows, FindUser(users, codeName).value);
      HandleGet(users, rows, req) == Json(200, SessionPage(Page(all, page, limit), |all|, page, CeilDiv(|all|, limit)))
  {
  }

  function PageRequest(codeName: string, page: int, limit: int): Request {
    Request("GET", map["codeName" := One(codeName), "page" := One(IntToString(page)), "limit" := One(IntToString(limit))], map[])
  }

  /** A page request carries its code, page and limit as `HandleGet` reads them. */
  lemma PageRequestReads(codeName: string, page: int, limit: int)
    requires codeName != ""
    ensures var req := PageRequest(codeName, page, limit);
      SingleText(Param(req, "codeName")) == Some(codeName) &&
      JsParseInt(TextOr(Param(req, "page"), "1")) == Some(page) &&
      JsParseInt(TextOr(Param(req, "limit"), "10")) == Some(limit)
  {
    var req := PageRequest(codeName, page, limit);
    assert Param(req, "codeName") == One(codeName);
    assert Param(req, "page") == One(IntToString(page));
    assert Param(req, "limit") == One(IntToString(limit));
    JsParseIntRoundTrip(page);
    JsParseIntRoundTrip(limit);
  }

  /** A request with only a code reads as page 1 with a limit of 10. */
  lemma DefaultRequestReads(codeName: string)
    requires codeName != ""
    ensures var req := Request("GET", map["codeName" := One(codeName)], map[]);
      SingleText(Param(req, "codeName")) == Some(codeName) &&
      JsParseInt(TextOr(Param(req, "page"), "1")) == Some(1) &&
      JsParseInt(TextOr(Param(req, "limit"), "10")) == Some(10)
  {
    var req := Request("GET", map["codeName" := One(codeName)], map[]);
    assert Param(req, "codeName") == One(codeName);
    assert Param(req, "page") == Absent && Param(req, "limit") == Absent;
    DefaultsRead();
  }

  /** The defaults `"1"` and `"10"` parse to 1 and 10. */
  lemma DefaultsRead()
    ensures JsParseInt("1") == Some(1) && JsParseInt("10") == Some(10)
  {
    ReadsSignedDigits("1", false, "1");
    assert "1"[..0] == [];
    assert DigitsValue("1") == 1;
    ReadsSignedDigits("10", false, "10");
    assert "10"[..1] == "1";
    assert DigitsValue("10") == 10;
  }

  /** Without `page` and `limit` the answer is the ten newest sessions. */
  lemma DefaultIsTenNewest(users: seq<UserRow>, rows: seq<WorkSession>, codeName: string)
    requires codeName != "" && FindUser(users, codeName).Some?
    ensures var all := Listing(rows, FindUser(users, codeName).value);
      HandleGet(users, rows, Request("GET", map["codeName" := One(codeName)], map[]))
        == Json(200, SessionPage(all[..Min(10, |all|)], |all|, 1, CeilDiv(|all|, 10)))
  {
    var req := Request("GET", map["codeName" := One(codeName)], map[]);
    DefaultRequestReads(codeName);
    AnswersPage(users, rows, req, codeName, 1, 10);
    assert Skip(1, 10) == 0;
  }

  /** The `items` of the page requested with `page` and `limit` given as decimal text. */
  function Fetched(users: seq<UserRow>, rows: seq<WorkSession>, codeName: string, page: int, limit: int): seq<WorkSession> {
    var res := HandleGet(users, rows, PageRequest(codeName, page, limit));
    if res.body.SessionPage? then res.body.items else []
  }

  /** The answers `f(1)`, ..., `f(count)`, one after another. */
  function Concat(f: int -> seq<WorkSession>, count: nat): seq<WorkSession> {
    if count == 0 then [] else Concat(f, count - 1) + f(count)
  }

  lemma {:induction false} ConcatOfPages(f: int -> seq<WorkSession>, all: seq<WorkSession>, limit: int, count: nat)
    requires limit >= 1
    requires forall page :: 1 <= page <= count ==> f(page) == Page(all, page, limit)
    ensures Concat(f, count) == Pages(all, limit, count)
  {
    if count > 0 {
      ConcatOfPages(f, all, limit, count - 1);
    }
  }

  /** Each requested page is the corresponding slice of the newest-first listing. */
  lemma FetchedIsPage(users: seq<UserRow>, rows: seq<WorkSession>, codeName: string, page: int, limit: int)
    requires codeName != "" && FindUser(users, codeName).Some? && page >= 1 && limit >= 1
    ensures Fetched(users, rows, codeName, page, limit) == Page(Listing(rows, FindUser(users, codeName).value), page, limit)
  {
    PageRequestReads(codeName, page, limit);
    AnswersPage(users, rows, PageRequest(codeName, page, limit), codeName, page, limit);
  }

  /**
   * Requesting pages 1 to `totalPages` one after another yields every
   * session of the user exactly once, newest first.
   */
  lemma PagesYieldEverySession(users: seq<UserRow>, rows: seq<WorkSession>, codeName: string, limit: int)
    requires codeName != "" && FindUser(users, codeName).Some? && limit >= 1
    ensures var user := FindUser(users, codeName).value;
      var all := SessionsOfUser(rows, user.id);
      var listed := Concat(page => Fetched(users, rows, codeName, page, limit), CeilDiv(|all|, limit));
      multiset(listed) == multiset(all) && NewestFirst(listed)
  {
    var user := FindUser(users, codeName).value;
    var all := SessionsOfUser(rows, user.id);
    var f := page => Fetched(users, rows, codeName, page, limit);
    forall page | 1 <= page <= CeilDiv(|all|, limit) ensures f(page) == Page(Listing(rows, user), page, limit) {
      FetchedIsPage(users, rows, codeName, page, limit);
    }
    ConcatOfPages(f, Listing(rows, user), limit, CeilDiv(|all|, limit));
    AllPagesCoverRows(Listing(rows, user), limit);
  }

  /** `total` and `totalPages` are the same on every page: the count of all the user's sessions. */
  lemma TotalIgnoresPage(users: seq<UserRow>, rows: seq<WorkSession>, codeName: string, page: int, limit: int)
    requires codeName != "" && FindUser(users, codeName).Some? && page >= 1 && limit >= 1
    ensures var res := HandleGet(users, rows, PageRequest(codeName, page, limit));
      var n := |SessionsOfUser(rows, FindUser(users, codeName).value.id)|;
      res.status == 200 && res.body.SessionPage? && res.body.page == page &&
      res.body.total == n && res.body.totalPages == CeilDiv(n, limit)
  {
    PageRequestReads(codeName, page, limit);
    AnswersPage(users, rows, PageRequest(codeName, page, limit), codeName, page, limit);
  }
}
