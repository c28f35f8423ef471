/**
 * The RPC auth router: `signup` inserts a user after its checks, `login`
 * checks a password against the stored hash and changes nothing.
 */
module AuthRouter {
  import opened Wrappers
  import opened Text
  import opened Foreign
  import opened Store
  import opened Rpc

  const Required := "Required"
  const NameRequired := "Name is required"
  const InvalidEmail := "Invalid email format"
  const PasswordTooShort := "Password must be at least 6 characters"
  const PasswordRequired := "Password is required"
  const UserExists := "User already exists with this email"
  const Created := "User created successfully"
  const SignupFailed := "Something went wrong during signup"
  const PasswordNotSet := "Password not set for this user"
  const InvalidPassword := "Invalid password"
  const LoggedIn := "Login successful"
  const LoginFailed := "Something went wrong during login"
  /** What bcryptjs throws when the stored value is no bcrypt hash. */
  const InvalidSalt := "Invalid salt version"
  /** What Prisma reports when an insert breaks a unique constraint. */
  const UniqueViolation := "Unique constraint failed"

  /** Raw procedure inputs; an absent or non-string field is `None`. */
  datatype SignupInput = SignupInput(name: Option<string>, email: Option<string>, password: Option<string>)
  datatype LoginInput = LoginInput(email: Option<string>, password: Option<string>)

  datatype SignupFields = SignupFields(name: string, email: string, password: string)
  datatype LoginFields = LoginFields(email: string, password: string)

  /** The user as `signup` selects it: no password. */
  datatype CreatedUser = CreatedUser(id: string, name: string, email: string, createdAt: int)

  datatype SignedUp = SignedUp(message: string, user: CreatedUser)
  datatype LoggedInUser = LoggedInUser(message: string, user: PublicUser)

  /** The issues `signupSchema` reports, field by field. */
  function SignupIssues(env: Env, input: SignupInput): seq<string>
  {
    (match input.name
     case None => [Required]
     case Some(n) => if Utf16Length(n) < 1 then [NameRequired] else [])
    + (match input.email
       case None => [Required]
       case Some(e) => if !env.isEmail(e) then [InvalidEmail] else [])
    + (match input.password
       case None => [Required]
       case Some(p) => if Utf16Length(p) < 6 then [PasswordTooShort] else [])
  }

  /** `signupSchema`: a non-empty name, a well-formed email, a password of at least 6 characters. */
  function ParseSignup(env: Env, input: SignupInput): (r: Result<SignupFields>)
    ensures r.Ok? <==>
      && input.name.Some? && Utf16Length(input.name.value) >= 1
      && input.email.Some? && env.isEmail(input.email.value)
      && input.password.Some? && Utf16Length(input.password.value) >= 6
    ensures r.Ok? ==> r.value == SignupFields(input.name.value, input.email.value, input.password.value)
    ensures r.Err? ==> r.error.code == BadRequest
  {
    var issues := SignupIssues(env, input);
    if |issues| > 0 then Err(RpcError(BadRequest, Join(issues, "; ")))
    else Ok(SignupFields(input.name.value, input.email.value, input.password.value))
  }

  /**
   * Lengths count UTF-16 units: three characters outside the Basic
   * Multilingual Plane make a password of length 6, which is accepted.
   */
  lemma PasswordLengthCountsUtf16Units(env: Env, email: string)
    ensures ParseSignup(env, SignupInput(Some("a"), Some(email), Some("\U{1F600}\U{1F600}\U{1F600}"))).Ok?
      <==> env.isEmail(email)
    ensures ParseSignup(env, SignupInput(Some("a"), Some(email), Some("\U{1F600}\U{1F600}"))).Err?
  {
    assert Utf16Length("\U{1F600}\U{1F600}\U{1F600}") == 6 by {
      assert "\U{1F600}\U{1F600}\U{1F600}"[1..] == "\U{1F600}\U{1F600}";
      assert "\U{1F600}\U{1F600}"[1..] == "\U{1F600}";
      assert "\U{1F600}"[1..] == "";
    }
    assert Utf16Length("\U{1F600}\U{1F600}") == 4 by {
      assert "\U{1F600}\U{1F600}"[1..] == "\U{1F600}";
      assert "\U{1F600}"[1..] == "";
    }
  }

  function LoginIssues(env: Env, input: LoginInput): seq<string>
  {
    (match input.email
     case None => [Required]
     case Some(e) => if !env.isEmail(e) then [InvalidEmail] else [])
    + (match input.password
       case None => [Required]
       case Some(p) => if Utf16Length(p) < 1 then [PasswordRequired] else [])
  }

  /** `loginSchema`: a well-formed email and a non-empty password. */
  function ParseLogin(env: Env, input: LoginInput): (r: Result<LoginFields>)
    ensures r.Ok? <==>
      && input.email.Some? && env.isEmail(input.email.value)
      && input.password.Some? && Utf16Length(input.password.value) >= 1
    ensures r.Ok? ==> r.value == LoginFields(input.email.value, input.password.value)
    ensures r.Err? ==> r.error.code == BadRequest
  {
    var issues := LoginIssues(env, input);
    if |issues| > 0 then Err(RpcError(BadRequest, Join(issues, "; ")))
    else Ok(LoginFields(input.email.value, input.password.value))
  }

  /** The row `prisma.user.create` is asked to insert: the password is hashed. */
  function NewUserRow(env: Env, f: SignupFields, newId: string, now: int): User
  {
    User(newId, f.name, f.email, Some(env.hash(f.password)), now)
  }

  /**
   * The `try` block of `signup` after validation, as a value or what it
   * throws; `newId` and `now` are what the database generates for the row.
   */
  function SignupBody(t: Tables, env: Env, f: SignupFields, newId: string, now: int): Step<Result<SignedUp>>
  {
    if FindUserByEmail(t.users, f.email).Some? then
      Step(Err(Rethrow(Trpc(RpcError(Conflict, UserExists)), SignupFailed)), t)
    else
      var row := NewUserRow(env, f, newId, now);
      if !CanInsertUser(t, row) then Step(Err(Rethrow(Other(UniqueViolation), SignupFailed)), t)
      else Step(Ok(SignedUp(Created, CreatedUser(row.id, row.name, row.email, row.createdAt))), InsertUser(t, row))
  }

  /** What `signup` returns and leaves in the store. */
  function SignupStep(t: Tables, env: Env, input: SignupInput, newId: string, now: int): Step<Result<SignedUp>>
  {
    match ParseSignup(env, input)
    case Err(e) => Step(Err(e), t)
    case Ok(f) => SignupBody(t, env, f, newId, now)
  }

  /** The `signup` mutation over the Prisma client. */
  method Signup(db: Db, env: Env, input: SignupInput, newId: string, now: int) returns (r: Result<SignedUp>)
    modifies db
    ensures r == SignupStep(old(db.View()), env, input, newId, now).result
    ensures db.View() == SignupStep(old(db.View()), env, input, newId, now).tables
  {
    var parsed := ParseSignup(env, input);
    if parsed.Err? {
      return Err(parsed.error);
    }
    var f := parsed.value;
    var existing := FindUserByEmail(db.users, f.email);
    if existing.Some? {
      return Err(Rethrow(Trpc(RpcError(Conflict, UserExists)), SignupFailed));
    }
    var hashed := env.hash(f.password);
    var row := User(newId, f.name, f.email, Some(hashed), now);
    var ok := db.CreateUser(row);
    if !ok {
      return Err(Rethrow(Other(UniqueViolation), SignupFailed));
    }
    r := Ok(SignedUp(Created, CreatedUser(row.id, row.name, row.email, row.createdAt)));
  }

  /** The `try` block of `login` after validation. */
  function LoginBody(t: Tables, env: Env, f: LoginFields): Result<LoggedInUser>
  {
    match FindUserByEmail(t.users, f.email)
    case None => Err(Rethrow(Trpc(RpcError(NotFound, UserNotFound)), LoginFailed))
    case Some(u) =>
      if Falsy(u.password) then Err(Rethrow(Trpc(RpcError(BadRequest, PasswordNotSet)), LoginFailed))
      else if env.compareThrows(f.password, u.password.value) then Err(Rethrow(Other(InvalidSalt), LoginFailed))
      else if !env.verify(f.password, u.password.value) then
        Err(Rethrow(Trpc(RpcError(Unauthorized, InvalidPassword)), LoginFailed))
      else Ok(LoggedInUser(LoggedIn, PublicUser(u.id, u.name, u.email)))
  }

  /** The `login` mutation; it reads the store and writes nothing. */
  function Login(t: Tables, env: Env, input: LoginInput): Result<LoggedInUser>
  {
    match ParseLogin(env, input)
    case Err(e) => Err(e)
    case Ok(f) => LoginBody(t, env, f)
  }

  /** A taken email is a CONFLICT whatever the name and password, and nothing is written. */
  lemma SignupConflict(t: Tables, env: Env, input: SignupInput, newId: string, now: int)
    requires ParseSignup(env, input).Ok?
    requires HasUserEmail(t.users, input.email.value)
    ensures SignupStep(t, env, input, newId, now) == Step(Err(RpcError(Conflict, UserExists)), t)
  {
  }

  /** Every failed signup leaves the store as it was. */
  lemma SignupFailureWritesNothing(t: Tables, env: Env, input: SignupInput, newId: string, now: int)
    ensures SignupStep(t, env, input, newId, now).result.Err? ==> SignupStep(t, env, input, newId, now).tables == t
  {
  }

  /**
   * A successful signup appends exactly one user, with the given name and
   * email and the hash of the password, gives it an empty interest set,
   * and returns that row without its password.
   */
  lemma SignupCreatesOne(t: Tables, env: Env, input: SignupInput, newId: string, now: int)
    requires SignupStep(t, env, input, newId, now).result.Ok?
    ensures var s := SignupStep(t, env, input, newId, now);
      var row := User(newId, input.name.value, input.email.value, Some(env.hash(input.password.value)), now);
      && s.tables.users == t.users + [row]
      && |s.tables.users| == |t.users| + 1
      && s.tables.categories == t.categories
      && s.tables.interests == t.interests[newId := {}]
      && s.result.value.user == CreatedUser(newId, input.name.value, input.email.value, now)
  {
  }

  /** Signup succeeds exactly for valid input with a fresh email and a fresh row id. */
  lemma SignupSucceedsIff(t: Tables, env: Env, input: SignupInput, newId: string, now: int)
    ensures SignupStep(t, env, input, newId, now).result.Ok? <==>
      ParseSignup(env, input).Ok? && !HasUserEmail(t.users, input.email.value) && !HasUserId(t.users, newId)
    ensures var r := SignupStep(t, env, input, newId, now).result;
      r.Err? && ParseSignup(env, input).Ok? && !HasUserEmail(t.users, input.email.value) ==>
        r.error == RpcError(InternalServerError, SignupFailed)
  {
  }

  lemma SignupKeepsValid(t: Tables, env: Env, input: SignupInput, newId: string, now: int)
    requires Valid(t)
    ensures Valid(SignupStep(t, env, input, newId, now).tables)
  {
    var s := SignupStep(t, env, input, newId, now);
    if s.result.Ok? {
      var f := ParseSignup(env, input).value;
      InsertUserKeepsValid(t, NewUserRow(env, f, newId, now));
    }
  }

  /**
   * `login` checks in order: the email must belong to a user (NOT_FOUND),
   * that user must have a password (BAD_REQUEST), `compare` must not throw
   * (the catch's INTERNAL_SERVER_ERROR), and the password must verify
   * (UNAUTHORIZED); otherwise it returns the user's id, name and email.
   */
  lemma LoginOutcomes(t: Tables, env: Env, input: LoginInput)
    requires ParseLogin(env, input).Ok?
    ensures var e, p := input.email.value, input.password.value; var r := Login(t, env, input);
      && (!HasUserEmail(t.users, e) ==> r == Err(RpcError(NotFound, UserNotFound)))
      && (HasUserEmail(t.users, e) ==>
            var u := FindUserByEmail(t.users, e).value;
            && (Falsy(u.password) ==> r == Err(RpcError(BadRequest, PasswordNotSet)))
            && (!Falsy(u.password) && env.compareThrows(p, u.password.value) ==>
                  r == Err(RpcError(InternalServerError, LoginFailed)))
            && (!Falsy(u.password) && !env.compareThrows(p, u.password.value) && !env.verify(p, u.password.value) ==>
                  r == Err(RpcError(Unauthorized, InvalidPassword)))
            && (!Falsy(u.password) && !env.compareThrows(p, u.password.value) && env.verify(p, u.password.value) ==>
                  r == Ok(LoggedInUser(LoggedIn, PublicUser(u.id, u.name, u.email)))))
  {
    if HasUserEmail(t.users, input.email.value) {
      var k :| 0 <= k < |t.users| && t.users[k].email == input.email.value;
    }
  }

  /**
   * Every failure `login` reports is one of its own `TRPCError`s, which the
   * catch re-throws unchanged, or the catch's INTERNAL_SERVER_ERROR with its
   * fixed message, which hides what was thrown.
   */
  lemma LoginErrorCodes(t: Tables, env: Env, input: LoginInput)
    ensures Login(t, env, input).Err? ==>
      || Login(t, env, input).error.code in {BadRequest, NotFound, Unauthorized}
      || Login(t, env, input).error == RpcError(InternalServerError, LoginFailed)
  {
  }

  /** Looking up the email of the last appended row finds it when the email was fresh. */
  lemma {:induction false} FindAppended(users: seq<User>, row: User)
    requires !HasUserEmail(users, row.email)
    ensures FindUserByEmail(users + [row], row.email) == Some(row)
  {
    if users != [] {
      assert users[0].email != row.email;
      assert (users + [row])[1..] == users[1..] + [row];
      FindAppended(users[1..], row);
    }
  }

  /** With a sound hasher, logging in with the credentials just signed up with succeeds. */
  lemma SignupThenLogin(t: Tables, env: Env, input: SignupInput, newId: string, now: int)
    requires env.Sound()
    requires SignupStep(t, env, input, newId, now).result.Ok?
    ensures var s := SignupStep(t, env, input, newId, now);
      Login(s.tables, env, LoginInput(input.email, input.password))
        == Ok(LoggedInUser(LoggedIn, PublicUser(newId, input.name.value, input.email.value)))
  {
    var f := ParseSignup(env, input).value;
    var row := NewUserRow(env, f, newId, now);
    FindAppended(t.users, row);
    assert env.hash(f.password) != "" && env.verify(f.password, env.hash(f.password))
      && !env.compareThrows(f.password, env.hash(f.password));
  }
}
