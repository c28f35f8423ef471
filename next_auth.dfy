/**
 * The NextAuth configuration: the credentials `authorize` function, the
 * `jwt` and `session` callbacks and the session lifetime.
 */
module NextAuth {
  import opened Wrappers
  import opened Text
  import opened Foreign
  import opened Store
  import Rpc
  import AuthRouter

  /** `session.maxAge`: thirty days, in seconds. */
  const SessionMaxAge := 30 * 24 * 60 * 60

  lemma SessionLastsThirtyDays()
    ensures SessionMaxAge == 2592000 && SessionMaxAge == 30 * 86400
  {
  }

  /** The credentials object the sign-in form posts; each field may be missing. */
  datatype Credentials = Credentials(email: Option<string>, password: Option<string>)

  /**
   * `authorize(credentials)`: `None` plays `null`. Every failure, a thrown
   * error included, gives the same `None`.
   */
  function Authorize(t: Tables, env: Env, credentials: Option<Credentials>): Option<PublicUser>
  {
    var email := if credentials.Some? then credentials.value.email else None;
    var password := if credentials.Some? then credentials.value.password else None;
    if Falsy(email) || Falsy(password) then None
    else
      match FindUserByEmail(t.users, email.value)
      case None => None
      case Some(u) =>
        if Falsy(u.password) then None
        else if env.compareThrows(password.value, u.password.value) then None
        else if !env.verify(password.value, u.password.value) then None
        else Some(PublicUser(u.id, u.name, u.email))
  }

  /** A missing or empty email or password is refused before the store is read. */
  lemma AuthorizeNeedsBothFields(t1: Tables, t2: Tables, env: Env, email: Option<string>, password: Option<string>)
    requires Falsy(email) || Falsy(password)
    ensures Authorize(t1, env, Some(Credentials(email, password))) == None
    ensures Authorize(t2, env, Some(Credentials(email, password))) == Authorize(t1, env, Some(Credentials(email, password)))
    ensures Authorize(t1, env, None) == None
  {
  }

  /**
   * `authorize` succeeds exactly when the email belongs to a user who has
   * a password that the given one verifies against without `compare`
   * throwing, and then returns that user's id, name and email.
   */
  lemma AuthorizeOutcomes(t: Tables, env: Env, email: string, password: string)
    requires email != "" && password != ""
    ensures var r := Authorize(t, env, Some(Credentials(Some(email), Some(password))));
      && (!HasUserEmail(t.users, email) ==> r == None)
      && (HasUserEmail(t.users, email) ==>
            var u := FindUserByEmail(t.users, email).value;
            && (Falsy(u.password) ==> r == None)
            && (!Falsy(u.password) ==>
                  r == if !env.compareThrows(password, u.password.value) && env.verify(password, u.password.value)
                       then Some(PublicUser(u.id, u.name, u.email)) else None))
  {
    if HasUserEmail(t.users, email) {
      var k :| 0 <= k < |t.users| && t.users[k].email == email;
    }
  }

  /**
   * For input the RPC `login` accepts, `authorize` and `login` agree: one
   * signs in exactly when the other succeeds, with the same user.
   */
  lemma AuthorizeAgreesWithLogin(t: Tables, env: Env, email: string, password: string)
    requires env.isEmail(email) && email != "" && password != ""
    ensures var a := Authorize(t, env, Some(Credentials(Some(email), Some(password))));
      var l := AuthRouter.Login(t, env, AuthRouter.LoginInput(Some(email), Some(password)));
      && (a.Some? <==> l.Ok?)
      && (a.Some? ==> l.value.user == a.value)
  {
    AuthorizeOutcomes(t, env, email, password);
    AuthRouter.LoginOutcomes(t, env, AuthRouter.LoginInput(Some(email), Some(password)));
  }

  /** With a sound hasher, the credentials of a successful RPC signup sign in. */
  lemma SignupThenAuthorize(t: Tables, env: Env, input: AuthRouter.SignupInput, newId: string, now: int)
    requires env.Sound()
    requires AuthRouter.SignupStep(t, env, input, newId, now).result.Ok?
    ensures Authorize(AuthRouter.SignupStep(t, env, input, newId, now).tables, env,
                      Some(Credentials(input.email, input.password)))
            == Some(PublicUser(newId, input.name.value, input.email.value))
  {
    var t' := AuthRouter.SignupStep(t, env, input, newId, now).tables;
    AuthRouter.SignupThenLogin(t, env, input, newId, now);
    AuthorizeAgreesWithLogin(t', env, input.email.value, input.password.value);
  }

  /** The JWT NextAuth keeps between requests; `id` is the claim the `jwt` callback adds. */
  class Token {
    var id: Option<string>
    var sub: Option<string>
    var name: Option<string>
    var email: Option<string>

    constructor (sub: Option<string>, name: Option<string>, email: Option<string>)
      ensures this.id == None && this.sub == sub && this.name == name && this.email == email
    {
      this.id := None;
      this.sub := sub;
      this.name := name;
      this.email := email;
    }
  }

  /** `jwt({ token, user })`: copies the user's id onto the token when a user is given. */
  method Jwt(token: Token, user: Option<PublicUser>) returns (r: Token)
    modifies token
    ensures r == token
    ensures user.Some? ==> token.id == Some(user.value.id)
    ensures user.None? ==> token.id == old(token.id)
    ensures token.sub == old(token.sub) && token.name == old(token.name) && token.email == old(token.email)
  {
    if user.Some? {
      token.id := Some(user.value.id);
    }
    r := token;
  }

  class SessionUserRecord {
    var id: Option<string>
    var name: Option<string>
    var email: Option<string>

    constructor (name: Option<string>, email: Option<string>)
      ensures this.id == None && this.name == name && this.email == email
    {
      this.id := None;
      this.name := name;
      this.email := email;
    }
  }

  class Session {
    var user: SessionUserRecord?
    var expires: string

    constructor (user: SessionUserRecord?, expires: string)
      ensures this.user == user && this.expires == expires
    {
      this.user := user;
      this.expires := expires;
    }
  }

  /** `session({ session, token })`: copies `token.id` onto `session.user` when there is one. */
  method SessionCallback(session: Session, token: Token) returns (r: Session)
    modifies session.user
    ensures r == session
    ensures session.user == old(session.user) && session.expires == old(session.expires)
    ensures session.user != null ==>
      && session.user.id == token.id
      && session.user.name == old(session.user.name)
      && session.user.email == old(session.user.email)
  {
    if session.user != null {
      session.user.id := token.id;
    }
    r := session;
  }

  /** The request context built from a session: `user` is `session?.user || null`. */
  function ContextOf(session: Session?): Rpc.Context
    reads session, if session != null then {session.user} else {}
  {
    if session == null || session.user == null then Rpc.Context(None)
    else Rpc.Context(Some(Rpc.SessionUser(session.user.id, session.user.name, session.user.email)))
  }

  /**
   * A sign-in as NextAuth runs it: `authorize`, then the `jwt` callback
   * with the returned user, then the `session` callback. A signed-in
   * user's id reaches the request context that the protected procedures read.
   */
  method SignIn(t: Tables, env: Env, credentials: Option<Credentials>, token: Token, session: Session)
    returns (user: Option<PublicUser>)
    requires session.user != null
    modifies token, session.user
    ensures user == Authorize(t, env, credentials)
    ensures user.Some? ==> token.id == Some(user.value.id)
    ensures user.Some? ==> Rpc.AuthenticatedId(ContextOf(session)) == if user.value.id == "" then None else Some(user.value.id)
  {
    user := Authorize(t, env, credentials);
    var _ := Jwt(token, user);
    var _ := SessionCallback(session, token);
  }
}
