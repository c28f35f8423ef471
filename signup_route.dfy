/**
 * `POST /api/signup`: the plain HTTP duplicate of the RPC signup. Every
 * outcome is a JSON body with the default status; only the body tells
 * them apart.
 */
module SignupRoute {
  import opened Wrappers
  import Text
  import opened Foreign
  import opened Store
  import Rpc
  import AuthRouter

  const FillAllFields := "Please fill all the fields"
  const AlreadyExists := "User already exists"
  const SomethingWrong := "Something went wrong"
  const CreatedMessage := "User created successfully"
  /** `NextResponse.json` without an `init` answers 200. */
  const DefaultStatus := 200

  /** A field of the parsed JSON body: missing, a string, or another JSON value and its truthiness. */
  datatype JsonField = Missing | Str(s: string) | NonString(truthy: bool)

  datatype SignupBody = SignupBody(name: JsonField, email: JsonField, password: JsonField)

  datatype Body = ErrorBody(error: string) | CreatedBody(message: string, user: PublicUser)

  datatype Response = Response(status: int, body: Body)

  predicate Falsy(f: JsonField)
  {
    f.Missing? || f == Str("") || f == NonString(false)
  }

  function Json(body: Body): Response
  {
    Response(DefaultStatus, body)
  }

  /**
   * What the handler answers and leaves in the store. `body` is `None` when
   * `req.json()` throws or the body is `null`; any other JSON value
   * destructures, with a field it lacks `Missing`. A non-string value
   * that passes the truthiness check makes the store or the hasher throw.
   */
  function PostStep(t: Tables, env: Env, body: Option<SignupBody>, newId: string, now: int): (s: Step<Response>)
    ensures s.result.status == DefaultStatus
  {
    match body
    case None => Step(Json(ErrorBody(SomethingWrong)), t)
    case Some(b) =>
      if Falsy(b.name) || Falsy(b.email) || Falsy(b.password) then Step(Json(ErrorBody(FillAllFields)), t)
      else if !b.email.Str? then Step(Json(ErrorBody(SomethingWrong)), t)
      else if FindUserByEmail(t.users, b.email.s).Some? then Step(Json(ErrorBody(AlreadyExists)), t)
      else if !b.password.Str? || !b.name.Str? then Step(Json(ErrorBody(SomethingWrong)), t)
      else
        var row := User(newId, b.name.s, b.email.s, Some(env.hash(b.password.s)), now);
        if !CanInsertUser(t, row) then Step(Json(ErrorBody(SomethingWrong)), t)
        else Step(Json(CreatedBody(CreatedMessage, PublicUser(row.id, row.name, row.email))), InsertUser(t, row))
  }

  /** The `POST` handler over the Prisma client. */
  method Post(db: Db, env: Env, body: Option<SignupBody>, newId: string, now: int) returns (r: Response)
    modifies db
    ensures r == PostStep(old(db.View()), env, body, newId, now).result
    ensures db.View() == PostStep(old(db.View()), env, body, newId, now).tables
  {
    if body.None? {
      return Json(ErrorBody(SomethingWrong));
    }
    var b := body.value;
    if Falsy(b.name) || Falsy(b.email) || Falsy(b.password) {
      return Json(ErrorBody(FillAllFields));
    }
    if !b.email.Str? {
      return Json(ErrorBody(SomethingWrong));
    }
    var existing := FindUserByEmail(db.users, b.email.s);
    if existing.Some? {
      return Json(ErrorBody(AlreadyExists));
    }
    if !b.password.Str? || !b.name.Str? {
      return Json(ErrorBody(SomethingWrong));
    }
    var hashed := env.hash(b.password.s);
    var row := User(newId, b.name.s, b.email.s, Some(hashed), now);
    var ok := db.CreateUser(row);
    if !ok {
      return Json(ErrorBody(SomethingWrong));
    }
    r := Json(CreatedBody(CreatedMessage, PublicUser(row.id, row.name, row.email)));
  }

  /** A falsy field is refused before the store is read: the answer does not depend on it. */
  lemma FalsyFieldRefused(t1: Tables, t2: Tables, env: Env, b: SignupBody, newId: string, now: int)
    requires Falsy(b.name) || Falsy(b.email) || Falsy(b.password)
    ensures PostStep(t1, env, Some(b), newId, now) == Step(Json(ErrorBody(FillAllFields)), t1)
    ensures PostStep(t2, env, Some(b), newId, now).result == PostStep(t1, env, Some(b), newId, now).result
  {
  }

  /** A taken email is refused and nothing is created. */
  lemma ExistingEmailRefused(t: Tables, env: Env, name: string, email: string, password: string, newId: string, now: int)
    requires name != "" && email != "" && password != ""
    requires HasUserEmail(t.users, email)
    ensures PostStep(t, env, Some(SignupBody(Str(name), Str(email), Str(password))), newId, now)
      == Step(Json(ErrorBody(AlreadyExists)), t)
  {
  }

  /**
   * The route creates a user exactly for three non-empty strings, a fresh
   * email and a fresh row id; the row holds the hash of the password and
   * the body shows id, name and email only. Every other outcome writes
   * nothing. A body that cannot be read, and every failure after the field
   * and email checks, is the `catch`'s "Something went wrong".
   */
  lemma PostOutcomes(t: Tables, env: Env, body: Option<SignupBody>, newId: string, now: int)
    ensures var s := PostStep(t, env, body, newId, now);
      s.result.body.CreatedBody? <==>
        && body.Some? && body.value.name.Str? && body.value.email.Str? && body.value.password.Str?
        && body.value.name.s != "" && body.value.email.s != "" && body.value.password.s != ""
        && !HasUserEmail(t.users, body.value.email.s) && !HasUserId(t.users, newId)
    ensures var s := PostStep(t, env, body, newId, now);
      s.result.body.CreatedBody? ==>
        var b := body.value;
        var row := User(newId, b.name.s, b.email.s, Some(env.hash(b.password.s)), now);
        && s.tables == InsertUser(t, row)
        && s.result.body.message == CreatedMessage
        && s.result.body.user == PublicUser(newId, b.name.s, b.email.s)
    ensures var s := PostStep(t, env, body, newId, now);
      s.result.body.ErrorBody? ==> s.tables == t
    ensures PostStep(t, env, None, newId, now).result.body == ErrorBody(SomethingWrong)
    ensures var s := PostStep(t, env, body, newId, now);
      body.Some? && !Falsy(body.value.name) && !Falsy(body.value.email) && !Falsy(body.value.password) ==>
        if body.value.email.Str? && HasUserEmail(t.users, body.value.email.s) then
          s.result.body == ErrorBody(AlreadyExists)
        else
          !s.result.body.CreatedBody? ==> s.result.body == ErrorBody(SomethingWrong)
  {
  }

  lemma PostKeepsValid(t: Tables, env: Env, body: Option<SignupBody>, newId: string, now: int)
    requires Valid(t)
    ensures Valid(PostStep(t, env, body, newId, now).tables)
  {
    var s := PostStep(t, env, body, newId, now);
    if s.result.body.CreatedBody? {
      var b := body.value;
      InsertUserKeepsValid(t, User(newId, b.name.s, b.email.s, Some(env.hash(b.password.s)), now));
    }
  }

  /**
   * The route checks no email format and no password length. With an email
   * the format check refuses, the route creates a user where the RPC
   * signup answers BAD_REQUEST, for a one-character password and for a
   * six-character one alike: the email alone is refused by the RPC.
   */
  lemma RouteAcceptsWhatRpcRejects(env: Env)
    requires !env.isEmail("x")
    ensures var t := Tables([], [], map[]);
      && PostStep(t, env, Some(SignupBody(Str("a"), Str("x"), Str("p"))), "u1", 0).result.body.CreatedBody?
      && PostStep(t, env, Some(SignupBody(Str("a"), Str("x"), Str("secret"))), "u1", 0).result.body.CreatedBody?
      && AuthRouter.SignupStep(t, env, AuthRouter.SignupInput(Some("a"), Some("x"), Some("p")), "u1", 0).result
           == Rpc.Err(Rpc.RpcError(Rpc.BadRequest, AuthRouter.InvalidEmail + "; " + AuthRouter.PasswordTooShort))
      && AuthRouter.SignupStep(t, env, AuthRouter.SignupInput(Some("a"), Some("x"), Some("secret")), "u1", 0).result
           == Rpc.Err(Rpc.RpcError(Rpc.BadRequest, AuthRouter.InvalidEmail))
  {
    var t := Tables([], [], map[]);
    assert !HasUserEmail(t.users, "x") && !HasUserId(t.users, "u1");
    assert Text.Utf16Length("p") == 1;
    assert Text.Utf16Length("a") == 1;
    var issues := [AuthRouter.InvalidEmail, AuthRouter.PasswordTooShort];
    assert AuthRouter.SignupIssues(env, AuthRouter.SignupInput(Some("a"), Some("x"), Some("p"))) == issues;
    assert Text.Join(issues, "; ") == AuthRouter.InvalidEmail + "; " + AuthRouter.PasswordTooShort by {
      assert issues[1..] == [AuthRouter.PasswordTooShort];
    }
    assert Text.Utf16Length("secret") == 6 by {
      assert "secret"[1..] == "ecret" && "ecret"[1..] == "cret" && "cret"[1..] == "ret";
      assert "ret"[1..] == "et" && "et"[1..] == "t" && "t"[1..] == "";
    }
  }

  /**
   * On input the RPC schema accepts, the two signups agree: the route
   * creates a user exactly when the RPC signup does, and leaves the same store.
   */
  lemma RouteAgreesWithRpc(t: Tables, env: Env, name: string, email: string, password: string, newId: string, now: int)
    requires AuthRouter.ParseSignup(env, AuthRouter.SignupInput(Some(name), Some(email), Some(password))).Ok?
    requires email != ""
    ensures var route := PostStep(t, env, Some(SignupBody(Str(name), Str(email), Str(password))), newId, now);
      var rpc := AuthRouter.SignupStep(t, env, AuthRouter.SignupInput(Some(name), Some(email), Some(password)), newId, now);
      && (route.result.body.CreatedBody? <==> rpc.result.Ok?)
      && route.tables == rpc.tables
  {
    PostOutcomes(t, env, Some(SignupBody(Str(name), Str(email), Str(password))), newId, now);
    AuthRouter.SignupSucceedsIff(t, env, AuthRouter.SignupInput(Some(name), Some(email), Some(password)), newId, now);
  }
}
