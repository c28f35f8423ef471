/**
 * The tRPC procedure layer: error codes, the context a procedure sees,
 * and the `protectedProcedure` guard.
 */
module Rpc {
  import opened Wrappers

  datatype Code = BadRequest | Unauthorized | NotFound | Conflict | InternalServerError

  datatype RpcError = RpcError(code: Code, message: string)

  /** A procedure either returns a value or throws a `TRPCError`. */
  datatype Result<+T> = Ok(value: T) | Err(error: RpcError)

  /** `session.user` as the session callback leaves it; `id` may be missing. */
  datatype SessionUser = SessionUser(id: Option<string>, name: Option<string>, email: Option<string>)

  /** The part of the request context the core reads: `user` is `session?.user || null`. */
  datatype Context = Context(user: Option<SessionUser>)

  datatype Procedure = Public | Protected

  const NotLoggedIn := "You must be logged in to access this resource"
  /** The NOT_FOUND message of both routers' user lookups. */
  const UserNotFound := "User not found"

  /**
   * The middleware a procedure runs before its handler: none for
   * `publicProcedure`; for `protectedProcedure` a rejection without a user,
   * otherwise the context `{ ...ctx, user: ctx.user }` to pass on.
   */
  function Guard(p: Procedure, ctx: Context): (r: Result<Context>)
    ensures r.Err? <==> p == Protected && ctx.user.None?
    ensures r.Err? ==> r.error == RpcError(Unauthorized, NotLoggedIn)
    ensures r.Ok? ==> r.value == ctx
  {
    match p
    case Public => Ok(ctx)
    case Protected =>
      if ctx.user.None? then Err(RpcError(Unauthorized, NotLoggedIn))
      else Ok(ctx.(user := ctx.user))
  }

  /** A procedure call: the guard, then (only if it passes) the handler via `next`. */
  function Run<T>(p: Procedure, ctx: Context, handler: Context -> Result<T>): Result<T>
  {
    match Guard(p, ctx)
    case Err(e) => Err(e)
    case Ok(c) => handler(c)
  }

  lemma PublicRunsHandler<T>(ctx: Context, handler: Context -> Result<T>)
    ensures Run(Public, ctx, handler) == handler(ctx)
  {
  }

  /** With a user, the protected procedure calls its handler with the unchanged context. */
  lemma ProtectedWithUser<T>(ctx: Context, handler: Context -> Result<T>)
    requires ctx.user.Some?
    ensures Run(Protected, ctx, handler) == handler(ctx)
  {
  }

  /** Without a user the result does not depend on the handler: it is never called. */
  lemma ProtectedWithoutUser<T>(ctx: Context, h1: Context -> Result<T>, h2: Context -> Result<T>)
    requires ctx.user.None?
    ensures Run(Protected, ctx, h1) == Run(Protected, ctx, h2) == Err(RpcError(Unauthorized, NotLoggedIn))
  {
  }

  /** Something a handler's body may throw. */
  datatype Thrown = Trpc(error: RpcError) | Other(message: string)

  /**
   * The `catch` of the auth router: a `TRPCError` is re-thrown as it is,
   * anything else becomes INTERNAL_SERVER_ERROR with the handler's message.
   */
  function Rethrow(thrown: Thrown, fallback: string): (e: RpcError)
    ensures thrown.Trpc? ==> e == thrown.error
    ensures thrown.Other? ==> e.code == InternalServerError && e.message == fallback
  {
    match thrown
    case Trpc(err) => err
    case Other(_) => RpcError(InternalServerError, fallback)
  }

  /** What tRPC itself makes of a non-tRPC error escaping a handler: its message is kept. */
  function FromUnknown(thrown: Thrown): (e: RpcError)
    ensures thrown.Trpc? ==> e == thrown.error
    ensures thrown.Other? ==> e.code == InternalServerError && e.message == thrown.message
  {
    match thrown
    case Trpc(err) => err
    case Other(m) => RpcError(InternalServerError, m)
  }

  /** The user id a handler sees as authenticated: `ctx.user?.id` when it is truthy. */
  function AuthenticatedId(ctx: Context): (r: Option<string>)
    ensures r.Some? <==> ctx.user.Some? && ctx.user.value.id.Some? && ctx.user.value.id.value != ""
    ensures r.Some? ==> r == ctx.user.value.id
  {
    if ctx.user.Some? && ctx.user.value.id.Some? && ctx.user.value.id.value != "" then ctx.user.value.id
    else None
  }
}
