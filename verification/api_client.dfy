/**
  The pure part of the API client in `shared/services/api.ts`: how a login
  response is turned into a session or an error message, the register call
  that walks a fixed list of endpoints, and the normalisation of the
  task-list response.

  Response bodies are untyped JSON. A field that is not there (`undefined`)
  is `None`; JSON `null` is `JNull`. The HTTP transport is a parameter: an
  attempt either yields a body or fails with an error that may carry a
  response (status and body).
 */
module ApiClient {
  import opened Basics

  datatype Json =
    | JNull
    | JBool(b: bool)
    | JNum(n: int)
    | JStr(s: string)
    | JArr(elems: seq<Json>)
    | JObj(fields: map<string, Json>)

  /** `v?.key`: the field of an object, absent for anything else. */
  function Get(v: Option<Json>, key: string): (r: Option<Json>)
    ensures r.Some? <==> v.Some? && v.value.JObj? && key in v.value.fields
  {
    if v.Some? && v.value.JObj? && key in v.value.fields then Some(v.value.fields[key]) else None
  }

  /** `v?.a?.b?...`: optional chaining along a path. */
  function At(v: Option<Json>, path: seq<string>): Option<Json>
    decreases |path|
  {
    if |path| == 0 then v else At(Get(v, path[0]), path[1..])
  }

  /** `undefined` or `null`: what `??` skips. */
  predicate Nullish(v: Option<Json>) {
    v.None? || v.value.JNull?
  }

  /** JavaScript truthiness of a possibly absent value. */
  predicate Truthy(v: Option<Json>) {
    match v
    case None => false
    case Some(j) =>
      match j
      case JNull => false
      case JBool(b) => b
      case JNum(n) => n != 0
      case JStr(s) => s != ""
      case JArr(_) => true
      case JObj(_) => true
  }

  /** `data?.p1 ?? data?.p2 ?? ... ?? null`: the value at the first path
      that is neither absent nor null, or `None` for the final `null`. */
  function FirstPresent(data: Option<Json>, paths: seq<seq<string>>): (r: Option<Json>)
    ensures r.None? <==> forall k :: 0 <= k < |paths| ==> Nullish(At(data, paths[k]))
    ensures r.Some? ==> !Nullish(r)
    ensures r.Some? ==> exists k :: 0 <= k < |paths| && r == At(data, paths[k])
                          && forall j :: 0 <= j < k ==> Nullish(At(data, paths[j]))
  {
    if |paths| == 0 then None
    else if !Nullish(At(data, paths[0])) then At(data, paths[0])
    else
      var r := FirstPresent(data, paths[1..]);
      assert forall k :: 0 <= k < |paths[1..]| ==> paths[1..][k] == paths[k + 1];
      if r.Some? then
        var k :| 0 <= k < |paths[1..]| && r == At(data, paths[1..][k])
                 && forall j :: 0 <= j < k ==> Nullish(At(data, paths[1..][j]));
        assert forall j :: 0 <= j < k + 1 ==> Nullish(At(data, paths[j]));
        r
      else r
  }

  const TokenPaths: seq<seq<string>> := [["token"], ["accessToken"], ["access_token"], ["jwt"], ["data", "token"]]
  const UserIdPaths: seq<seq<string>> := [["userId"], ["user", "id"], ["data", "userId"]]

  /** `extractToken`: the first of `token`, `accessToken`, `access_token`,
      `jwt` and `data.token` that is neither absent nor null; `None` (the
      final `null`) when all five are. */
  function ExtractToken(data: Option<Json>): (r: Option<Json>)
    ensures r.None? <==> forall k :: 0 <= k < |TokenPaths| ==> Nullish(At(data, TokenPaths[k]))
    ensures r.Some? ==> !Nullish(r)
    ensures r.Some? ==> exists k :: 0 <= k < |TokenPaths| && r == At(data, TokenPaths[k])
                          && forall j :: 0 <= j < k ==> Nullish(At(data, TokenPaths[j]))
  {
    FirstPresent(data, TokenPaths)
  }

  /** `extractUserId`: the first of `userId`, `user.id` and `data.userId`
      that is neither absent nor null; `None` when all three are. */
  function ExtractUserId(data: Option<Json>): (r: Option<Json>)
    ensures r.None? <==> forall k :: 0 <= k < |UserIdPaths| ==> Nullish(At(data, UserIdPaths[k]))
    ensures r.Some? ==> !Nullish(r)
    ensures r.Some? ==> exists k :: 0 <= k < |UserIdPaths| && r == At(data, UserIdPaths[k])
                          && forall j :: 0 <= j < k ==> Nullish(At(data, UserIdPaths[j]))
  {
    FirstPresent(data, UserIdPaths)
  }

  /** A top-level `token` that is not null wins over every other spelling;
      `data.token` is used only when the four top-level fields are all
      absent or null; with none of them the result is null. */
  lemma {:induction false} TokenPrecedence(data: Option<Json>)
    ensures !Nullish(Get(data, "token")) ==> ExtractToken(data) == Get(data, "token")
    ensures Nullish(Get(data, "token")) && Nullish(Get(data, "accessToken"))
         && Nullish(Get(data, "access_token")) && Nullish(Get(data, "jwt"))
         ==> ExtractToken(data) == (if Nullish(At(data, ["data", "token"])) then None else At(data, ["data", "token"]))
  {
    AtOne(data, "token");
    AtOne(data, "accessToken");
    AtOne(data, "access_token");
    AtOne(data, "jwt");
    var r := ExtractToken(data);
    assert TokenPaths[4] == ["data", "token"];
    if r.Some? {
      var k :| 0 <= k < |TokenPaths| && r == At(data, TokenPaths[k])
               && forall j :: 0 <= j < k ==> Nullish(At(data, TokenPaths[j]));
      assert k == 0 || Nullish(At(data, TokenPaths[0]));
      if Nullish(Get(data, "token")) && Nullish(Get(data, "accessToken"))
         && Nullish(Get(data, "access_token")) && Nullish(Get(data, "jwt")) {
        assert k == 4;
      }
    } else {
      assert Nullish(At(data, TokenPaths[4]));
    }
  }

  /** `userId` first, then `user.id`, then `data.userId`. */
  lemma {:induction false} UserIdPrecedence(data: Option<Json>)
    ensures !Nullish(Get(data, "userId")) ==> ExtractUserId(data) == Get(data, "userId")
    ensures Nullish(Get(data, "userId")) && !Nullish(At(data, ["user", "id"]))
         ==> ExtractUserId(data) == At(data, ["user", "id"])
    ensures Nullish(Get(data, "userId")) && Nullish(At(data, ["user", "id"]))
         ==> ExtractUserId(data) == (if Nullish(At(data, ["data", "userId"])) then None else At(data, ["data", "userId"]))
  {
    AtOne(data, "userId");
    var r := ExtractUserId(data);
    assert UserIdPaths[1] == ["user", "id"];
    assert UserIdPaths[2] == ["data", "userId"];
    if r.Some? {
      var k :| 0 <= k < |UserIdPaths| && r == At(data, UserIdPaths[k])
               && forall j :: 0 <= j < k ==> Nullish(At(data, UserIdPaths[j]));
      assert k == 0 || Nullish(At(data, UserIdPaths[0]));
      assert k <= 1 || Nullish(At(data, UserIdPaths[1]));
    } else {
      assert Nullish(At(data, UserIdPaths[1]));
      assert Nullish(At(data, UserIdPaths[2]));
    }
  }

  lemma AtOne(data: Option<Json>, key: string)
    ensures At(data, [key]) == Get(data, key)
  {
    assert [key][1..] == [];
  }

  /** The response part of a failed request. */
  datatype Response = Response(status: int, data: Option<Json>)

  /** The result of one HTTP call: a body, or an error with its message and,
      when the server answered, its response. */
  datatype HttpOutcome =
    | Ok(body: Option<Json>)
    | Failed(message: string, response: Option<Response>)

  /** An error message: a value taken from the response body, the text
      `HTTP <status>`, or a fixed text. */
  datatype ErrorMsg =
    | BodyValue(v: Json)
    | HttpStatus(code: int)
    | Text(s: string)

  const CorsMessage := "Network/CORS error: cek VITE_API_URL & CORS backend."
  const MissingTokenMessage := "Token tidak ditemukan pada respons login"

  /** `data?.error || data?.message || \`HTTP ${status}\`` */
  function ErrorMessage(resp: Response): (m: ErrorMsg)
    ensures Truthy(Get(resp.data, "error")) ==> m == BodyValue(Get(resp.data, "error").value)
    ensures !Truthy(Get(resp.data, "error")) && Truthy(Get(resp.data, "message"))
            ==> m == BodyValue(Get(resp.data, "message").value)
    ensures m.HttpStatus? <==> !Truthy(Get(resp.data, "error")) && !Truthy(Get(resp.data, "message"))
    ensures m.HttpStatus? ==> m.code == resp.status
  {
    var err := Get(resp.data, "error");
    var msg := Get(resp.data, "message");
    if Truthy(err) then BodyValue(err.value)
    else if Truthy(msg) then BodyValue(msg.value)
    else HttpStatus(resp.status)
  }

  /** What a successful login hands back (and stores). */
  datatype Session = Session(token: Json, userId: Option<Json>)

  /** `loginUser` as written: the error raised for a response without a
      token carries no `response`, so the `catch` replaces it with the
      network message. */
  function LoginUser(o: HttpOutcome): (r: Result<Session, ErrorMsg>)
    ensures r.Success? <==> o.Ok? && Truthy(ExtractToken(o.body))
    ensures r.Success? ==> r.value == Session(ExtractToken(o.body).value, ExtractUserId(o.body))
    ensures o.Failed? && o.response.Some? ==> r == Failure(ErrorMessage(o.response.value))
    ensures o.Failed? && o.response.None? ==> r == Failure(Text(CorsMessage))
    ensures o.Ok? && !Truthy(ExtractToken(o.body)) ==> r == Failure(Text(CorsMessage))
  {
    match o
    case Ok(body) =>
      var token := ExtractToken(body);
      if !Truthy(token) then Failure(Text(CorsMessage))
      else Success(Session(token.value, ExtractUserId(body)))
    case Failed(_, resp) =>
      if resp.Some? then Failure(ErrorMessage(resp.value)) else Failure(Text(CorsMessage))
  }

  /** A login answered with a body but no truthy token is reported exactly
      as a request that never reached the server; `{}` is such a body. */
  lemma LoginMissingTokenLooksLikeNetwork(body: Option<Json>, message: string)
    ensures !Truthy(ExtractToken(body)) ==> LoginUser(Ok(body)) == LoginUser(Failed(message, None))
  {
  }

  /** A 200 response with body `{}`, or with an empty token, is reported
      with the network/CORS message. */
  lemma LoginEmptyBodyIsNetwork()
    ensures LoginUser(Ok(Some(JObj(map[])))) == Failure(Text(CorsMessage))
    ensures LoginUser(Ok(Some(JObj(map["token" := JStr("")])))) == Failure(Text(CorsMessage))
  {
    NoTokenExamples();
  }

  /** `{}` carries no token and `{"token": ""}` an empty one. */
  lemma NoTokenExamples()
    ensures ExtractToken(Some(JObj(map[]))).None?
    ensures ExtractToken(Some(JObj(map["token" := JStr("")]))) == Some(JStr(""))
  {
    TokenPrecedence(Some(JObj(map[])));
    TokenPrecedence(Some(JObj(map["token" := JStr("")])));
  }

  /** `loginUser` with the missing-token error kept as raised. */
  function LoginUserFixed(o: HttpOutcome): (r: Result<Session, ErrorMsg>)
    ensures r.Success? <==> o.Ok? && Truthy(ExtractToken(o.body))
    ensures r.Success? ==> r.value == Session(ExtractToken(o.body).value, ExtractUserId(o.body))
    ensures o.Failed? && o.response.Some? ==> r == Failure(ErrorMessage(o.response.value))
  {
    match o
    case Ok(body) =>
      var token := ExtractToken(body);
      if !Truthy(token) then Failure(Text(MissingTokenMessage))
      else Success(Session(token.value, ExtractUserId(body)))
    case Failed(_, resp) =>
      if resp.Some? then Failure(ErrorMessage(resp.value)) else Failure(Text(CorsMessage))
  }

  /** With the fix, the network message means exactly that no response came
      back, and a reached server without a token says so. */
  lemma LoginFixedBlamesNetworkOnlyWithoutResponse(o: HttpOutcome)
    ensures LoginUserFixed(o) == Failure(Text(CorsMessage)) <==> o.Failed? && o.response.None?
    ensures o.Ok? && !Truthy(ExtractToken(o.body)) ==> LoginUserFixed(o) == Failure(Text(MissingTokenMessage))
  {
  }

  /** The fix changes nothing but the missing-token case. */
  lemma LoginFixedAgrees(o: HttpOutcome)
    requires !(o.Ok? && !Truthy(ExtractToken(o.body)))
    ensures LoginUserFixed(o) == LoginUser(o)
  {
  }

  const Candidates: seq<string> := ["/api/register", "/api/auth/register", "/register", "/auth/register"]

  const Conflict409Message := "Email sudah terdaftar (409). Silakan login."
  const Forbidden403Message := "Registrasi ditolak (403). Backend menonaktifkan pendaftaran mandiri. "
    + "Aktifkan self-register di server (mis. env ALLOW_SELF_REGISTER=true) atau hubungi admin."
  const NotFoundMessage := "Endpoint register tidak ditemukan (404). Pastikan server expose salah satu dari: "
    + "/api/register, /api/auth/register, /register, atau /auth/register."
  const RegisterFallbackMessage := "Gagal registrasi"
  const GiveUpMessage := "Gagal registrasi. Periksa konfigurasi server."

  /** `e?.response?.data` */
  function ResponseData(o: HttpOutcome): Option<Json> {
    if o.Failed? && o.response.Some? then o.response.value.data else None
  }

  /** `e?.response?.status` */
  function StatusOf(o: HttpOutcome): Option<int> {
    if o.Failed? && o.response.Some? then Some(o.response.value.status) else None
  }

  predicate Is404(o: HttpOutcome) {
    StatusOf(o) == Some(404)
  }

  /** The error a failed register attempt other than 404 raises: the two
      fixed messages for 409 and 403, otherwise the body's `error`, its
      `message`, `HTTP <status>` for a non-zero status, the error's own
      message, and finally a fixed text, the first that is truthy. */
  function RegisterError(o: HttpOutcome): (m: ErrorMsg)
    requires o.Failed?
    ensures StatusOf(o) == Some(409) ==> m == Text(Conflict409Message)
    ensures StatusOf(o) == Some(403) ==> m == Text(Forbidden403Message)
    ensures m.HttpStatus? ==> StatusOf(o) == Some(m.code) && m.code != 0
    ensures m == Text(RegisterFallbackMessage) && StatusOf(o) != Some(409) && StatusOf(o) != Some(403)
            ==> o.message == "" || o.message == RegisterFallbackMessage
    ensures o.response.None? ==> m == Text(if o.message != "" then o.message else RegisterFallbackMessage)
    ensures StatusOf(o) == Some(0) && (Truthy(Get(ResponseData(o), "error")) || Truthy(Get(ResponseData(o), "message")))
            ==> m == ErrorMessage(o.response.value)
    ensures StatusOf(o) == Some(0) && !Truthy(Get(ResponseData(o), "error")) && !Truthy(Get(ResponseData(o), "message"))
            ==> m == Text(if o.message != "" then o.message else RegisterFallbackMessage)
  {
    var status := StatusOf(o);
    var data := ResponseData(o);
    if status == Some(409) then Text(Conflict409Message)
    else if status == Some(403) then Text(Forbidden403Message)
    else if Truthy(Get(data, "error")) then BodyValue(Get(data, "error").value)
    else if Truthy(Get(data, "message")) then BodyValue(Get(data, "message").value)
    else if status.Some? && status.value != 0 then HttpStatus(status.value)
    else if o.message != "" then Text(o.message)
    else Text(RegisterFallbackMessage)
  }

  /** A body's `error` or `message`, when truthy, decides the message
      whatever the status. */
  lemma ErrorMessageIgnoresStatus(data: Option<Json>, s1: int, s2: int)
    requires Truthy(Get(data, "error")) || Truthy(Get(data, "message"))
    ensures ErrorMessage(Response(s1, data)) == ErrorMessage(Response(s2, data))
    ensures ErrorMessage(Response(s1, data)).BodyValue?
  {
  }

  /** Register and login report a failed request with a response the same
      way, except for the fixed 409 and 403 texts and a zero status. */
  lemma RegisterErrorAgreesWithLogin(message: string, resp: Response)
    requires resp.status != 409 && resp.status != 403 && resp.status != 0
    ensures RegisterError(Failed(message, Some(resp))) == ErrorMessage(resp)
    ensures LoginUser(Failed(message, Some(resp))) == Failure(ErrorMessage(resp))
  {
  }

  /** What one register attempt that did not answer 404 decides. */
  function AttemptResult(o: HttpOutcome): Result<Option<Json>, ErrorMsg> {
    if o.Ok? then Success(o.body) else Failure(RegisterError(o))
  }

  /** `registerUser`: post to each candidate path in turn, moving on only
      after a 404. `post` gives the outcome of posting to a path; `tried`
      lists the paths posted to. */
  method RegisterUser(post: string -> HttpOutcome) returns (r: Result<Option<Json>, ErrorMsg>, tried: seq<string>)
    ensures 1 <= |tried| <= |Candidates| && tried == Candidates[..|tried|]
    ensures forall j :: 0 <= j < |tried| - 1 ==> Is404(post(tried[j]))
    ensures !Is404(post(tried[|tried| - 1])) ==> r == AttemptResult(post(tried[|tried| - 1]))
    ensures Is404(post(tried[|tried| - 1])) ==> |tried| == |Candidates| && r == Failure(Text(NotFoundMessage))
  {
    var lastStatus: Option<int> := None;
    var lastMessage := "";
    tried := [];
    var i := 0;
    while i < |Candidates|
      invariant 0 <= i <= |Candidates|
      invariant tried == Candidates[..i]
      invariant forall j :: 0 <= j < i ==> Is404(post(Candidates[j]))
      invariant i > 0 ==> lastStatus == Some(404)
    {
      var o := post(Candidates[i]);
      tried := tried + [Candidates[i]];
      if !Is404(o) {
        r := AttemptResult(o);
        return;
      }
      lastStatus := StatusOf(o);
      lastMessage := o.message;
      i := i + 1;
    }
    r := Failure(if lastStatus == Some(404) then Text(NotFoundMessage)
                 else if lastMessage != "" then Text(lastMessage)
                 else Text(GiveUpMessage));
  }

  /** The normalised task list and the pagination cursor. */
  datatype TaskPage = TaskPage(items: seq<Json>, nextCursor: Option<Json>)

  /** `getBoardTasks`: a bare array is the list, else the `items` array of
      the body, else nothing. */
  function NormalizeTasks(data: Option<Json>): (p: TaskPage)
    ensures data.Some? && data.value.JArr? ==> p.items == data.value.elems
    ensures !(data.Some? && data.value.JArr?) && Get(data, "items").Some? && Get(data, "items").value.JArr?
            ==> p.items == Get(data, "items").value.elems
    ensures !(data.Some? && data.value.JArr?) && !(Get(data, "items").Some? && Get(data, "items").value.JArr?)
            ==> p.items == []
    ensures p.nextCursor == Get(data, "nextCursor")
  {
    var items := Get(data, "items");
    if data.Some? && data.value.JArr? then TaskPage(data.value.elems, Get(data, "nextCursor"))
    else if items.Some? && items.value.JArr? then TaskPage(items.value.elems, Get(data, "nextCursor"))
    else TaskPage([], Get(data, "nextCursor"))
  }

  /** Both response shapes give the same list, and normalising the
      normalised list again changes nothing. */
  lemma NormalizeShapesAgree(xs: seq<Json>, cursor: Json)
    ensures NormalizeTasks(Some(JArr(xs))).items == xs
    ensures NormalizeTasks(Some(JObj(map["items" := JArr(xs), "nextCursor" := cursor]))) == TaskPage(xs, Some(cursor))
    ensures NormalizeTasks(Some(JArr(NormalizeTasks(Some(JArr(xs))).items))).items == xs
  {
  }
}
