# e-com accounts and interests, modelled in Dafny

A model of the server-side core of the e-com application (Next.js, tRPC,
Prisma, NextAuth) and proofs about it:

- the **categories router**: the paginated, name-ordered category list,
  reading the signed-in user's interests and replacing them as a whole set;
- the **auth router**: RPC `signup` (schema, email uniqueness, hashed
  password) and `login` (its ordered NOT_FOUND / BAD_REQUEST / UNAUTHORIZED
  checks, and the `catch` that keeps tRPC errors and hides the rest);
- the **NextAuth configuration**: the credentials `authorize` function, the
  `jwt` and `session` callbacks that carry the user id into the request
  context, and the 30-day session lifetime;
- the plain **`POST /api/signup`** route, which answers every outcome with
  status 200 and a JSON body;
- the tRPC **procedure layer**: `publicProcedure` and the
  `protectedProcedure` guard;
- the **middleware matcher**, a negative-lookahead regular expression
  deciding which paths need a session;
- the **interests page** state: toggling a category, loading the saved
  interests, the unsaved-changes flag, saving, paging and the
  "Showing X to Y of Z" label;
- the **seed script**: title-casing generated names, collecting 100 unique
  ones and inserting them in batches of 20 after clearing the table.

One module per source file (`CategoriesRouter`, `AuthRouter`, `NextAuth`,
`SignupRoute`, `Rpc`, `Middleware`, `InterestsPage`, `Seed`) sits on shared
modules: `Store` is the database behind the Prisma client (a `Tables`
value, and a `Db` class whose methods are the Prisma calls the core makes),
`Text` holds JavaScript's `split`/`join` and the name order, `Foreign`
holds the calls whose code is not modelled (bcrypt `hash`/`compare`, zod's
email check) as function values, so that every theorem holds for any
implementation of them, and `Wrappers` has `Option`.

A handler that writes is modelled twice. A function `...Step(tables, ...)`
gives the result and the store it leaves behind, and the lemmas are proved
about it. A `method` on `Db` performs the same checks and writes, and its
contract says it returns exactly that result and leaves exactly that store.
So every lemma about a `Step` function also holds of the method. Ids and
timestamps the database generates (`newId`, `now`, and `mint(k)` in the
seed) are inputs.

Notable behaviours of the code:

- the path `/` is not public: the matcher pattern matches it, so without a
  session it is sent to sign in (`Middleware.RootIsGuarded`);
- `POST /api/signup` answers status 200 for every outcome, errors included,
  since `NextResponse.json` is never given a status (`SignupRoute.PostStep`);
- a non-tRPC error escaping `saveUserInterests` (the Prisma error of an
  update on a deleted user) reaches the caller as INTERNAL_SERVER_ERROR
  with its own message kept (`Rpc.FromUnknown`);
- `POST /api/signup` checks neither the email format nor the password length
  (`SignupRoute.RouteAcceptsWhatRpcRejects`).

## Model

| member | source | states |
|---|---|---|
| Rpc.Guard | src/server/trpc.ts:16-32 | a protected procedure rejects exactly the calls without a user, with UNAUTHORIZED and its fixed message; otherwise it passes the context on unchanged |
| Rpc.Run | src/server/trpc.ts:16-32 | running a procedure: the guard's answer, or the handler on the context it passes; its outcomes are stated by `Rpc.PublicRunsHandler`, `Rpc.ProtectedWithUser` and `Rpc.ProtectedWithoutUser` |
| Rpc.PublicRunsHandler | src/server/trpc.ts:13 | a public procedure is its handler |
| Rpc.ProtectedWithUser | src/server/trpc.ts:26-31 | with a user, a protected procedure calls its handler with the same context |
| Rpc.ProtectedWithoutUser | src/server/trpc.ts:19-24 | without a user, the answer is UNAUTHORIZED whatever the handler is: the handler never runs |
| Rpc.Rethrow | src/server/routers/auth.ts:60-70 | the `catch` re-throws a `TRPCError` unchanged and turns anything else into INTERNAL_SERVER_ERROR with the handler's message |
| Rpc.FromUnknown | src/server/trpc.ts:5-10 | a `TRPCError` reaches the caller unchanged (the error formatter returns the shape as it is); any other error becomes INTERNAL_SERVER_ERROR and keeps its message |
| Rpc.AuthenticatedId | src/server/routers/categories.ts:53 | the handler's user id is present exactly when `ctx.user.id` exists and is non-empty, and then it is that id |
| Store.FindUserByEmail | src/server/routers/auth.ts:26-28 | `findUnique` by email finds a user with that email, and finds none exactly when no user has it |
| Store.FindUserById | src/server/routers/categories.ts:60-70 | `findUnique` by id finds a user with that id, and finds none exactly when no user has it |
| Store.InterestsOf | src/server/routers/categories.ts:62-69 | the included interests are exactly the categories whose ids are in the user's set |
| Store.InsertUserKeepsValid | src/server/routers/auth.ts:41-53 | inserting a user with a fresh id and a fresh email keeps ids and emails unique and gives the user an empty interest set |
| Store.NewCategoriesSkipsTaken | prisma/seed.ts:51-54 | `createMany` with `skipDuplicates` inserts only given rows, keeps category ids unique, and afterwards every given id is in the table |
| Store.CreateManyKeepsValid | prisma/seed.ts:51-54 | inserting categories keeps the store's integrity |
| Store.Db.CreateUser | src/server/routers/auth.ts:41-53 | `user.create` fails exactly on a unique-constraint clash; otherwise it appends the row with an empty interest set |
| Store.Db.ReplaceInterests | src/server/routers/categories.ts:115-121 | `user.update` with `set` fails exactly when the user does not exist; otherwise it replaces that user's set and nothing else |
| Store.Db.DeleteAllCategories | prisma/seed.ts:10 | `deleteMany` empties the category table and every interest set; users stay |
| Store.Db.CreateManyCategories | prisma/seed.ts:51-54 | the new table is the old one followed by the rows whose ids were not taken; users and interests stay |
| CategoriesRouter.ParseList | src/server/routers/categories.ts:5-8 | the input is accepted exactly when, after the defaults 1 and 6, `page >= 1` and `1 <= limit <= 100`; otherwise BAD_REQUEST |
| CategoriesRouter.List | src/server/routers/categories.ts:15-49 | the `list` query; what it returns is stated by `CategoriesRouter.ListReturnsPage` and `CategoriesRouter.HundredCategories` |
| CategoriesRouter.HeadIsLeast | src/server/routers/categories.ts:25 | in a name-ordered list the first name is at most every later one |
| CategoriesRouter.PrependSorted | src/server/routers/categories.ts:25 | a row whose name is at most the first of an ordered list keeps the list ordered when put in front |
| CategoriesRouter.InsertByName | src/server/routers/categories.ts:25 | inserting into a name-ordered list keeps it ordered and adds exactly that row |
| CategoriesRouter.SortByName | src/server/routers/categories.ts:25 | `orderBy: { name: 'asc' }` yields the same rows, ordered by name |
| CategoriesRouter.TotalPagesIsCeiling | src/server/routers/categories.ts:34 | `totalPages` is the ceiling of `total / limit`: enough pages for every row, and no empty last page |
| CategoriesRouter.BeforeLastPage | src/server/routers/categories.ts:34-35 | `hasNextPage` (`page < totalPages`) holds exactly when rows remain after this page |
| CategoriesRouter.PageOfShape | src/server/routers/categories.ts:19-24 | `skip`/`take` yields the ordered rows from offset `(page - 1) * limit`, at most `limit` of them and none past the end |
| CategoriesRouter.ListReturnsPage | src/server/routers/categories.ts:15-49 | `list` accepts exactly the valid inputs; it returns that page of the name-ordered table, echoes page and limit, counts all rows, gives `totalPages` as the ceiling of rows over limit, and its flags say whether a next or a previous page exists |
| CategoriesRouter.HundredCategories | src/server/routers/categories.ts:15-49 | with 100 categories and the default limit there are 17 pages: the first holds 6 rows and has only a next page, the 17th holds 4 and has only a previous one |
| CategoriesRouter.InterestsHandler | src/server/routers/categories.ts:52-81 | the handler behind the guard: no id is UNAUTHORIZED, an unknown id NOT_FOUND, otherwise the user's interests; stated by `CategoriesRouter.GetUserInterestsOutcomes` |
| CategoriesRouter.GetUserInterests | src/server/routers/categories.ts:51-82 | the `getUserInterests` query; its outcomes are stated by `CategoriesRouter.GetUserInterestsOutcomes` and `CategoriesRouter.ReadAfterSave` |
| CategoriesRouter.GetUserInterestsOutcomes | src/server/routers/categories.ts:51-82 | no user: the guard's UNAUTHORIZED; a user without an id: UNAUTHORIZED "User not authenticated"; an unknown id: NOT_FOUND; otherwise exactly the user's interest categories |
| CategoriesRouter.InvalidIds | src/server/routers/categories.ts:97-105 | the reported ids are exactly the requested ids naming no category, so none is reported exactly when all exist |
| CategoriesRouter.SaveStep | src/server/routers/categories.ts:84-137 | the `saveUserInterests` mutation's result and the store it leaves; stated by `CategoriesRouter.SaveOutcomes`, `SaveFailureChangesNothing`, `SaveReplacesSet`, `SaveIdempotent`, `SaveEmptyClears`, `SaveTwiceReplaces`, `SaveKeepsValid` and `ReadAfterSave` |
| CategoriesRouter.SaveUserInterests | src/server/routers/categories.ts:84-137 | the mutation returns and leaves in the store what `SaveStep` says |
| CategoriesRouter.SaveOutcomes | src/server/routers/categories.ts:84-137 | a save succeeds exactly for a user with an id that exists whose requested ids all name categories; no user is the guard's UNAUTHORIZED, a user without an id UNAUTHORIZED "User not authenticated"; unknown ids are reported, all of them in request order, before the user is looked up; a user missing from the store makes the update's error INTERNAL_SERVER_ERROR with the store's message |
| CategoriesRouter.SaveFailureChangesNothing | src/server/routers/categories.ts:84-137 | a rejected save leaves the store as it was |
| CategoriesRouter.SaveReplacesSet | src/server/routers/categories.ts:115-136 | a successful save makes the user's set exactly the requested ids, changes no other user and no table, and returns the categories of the new set |
| CategoriesRouter.SaveIdempotent | src/server/routers/categories.ts:115-121 | saving the same ids again gives the same result and the same store |
| CategoriesRouter.SaveEmptyClears | src/server/routers/categories.ts:10-12 | an empty id list is accepted and clears the set |
| CategoriesRouter.SaveTwiceReplaces | src/server/routers/categories.ts:118-120 | saving `[a, b]` then `[b, c]` leaves exactly `{b, c}`: the set is replaced, not merged |
| CategoriesRouter.SaveKeepsValid | src/server/routers/categories.ts:96-121 | a save keeps every interest pointing at an existing category |
| CategoriesRouter.ReadAfterSave | src/server/routers/categories.ts:115-136 | what a successful save returns is what `getUserInterests` reads afterwards |
| AuthRouter.ParseSignup | src/server/routers/auth.ts:6-10 | signup input is accepted exactly for a non-empty name, a well-formed email and a password of at least 6 UTF-16 code units (JavaScript's `length`, which zod's `min` counts); otherwise BAD_REQUEST |
| AuthRouter.ParseLogin | src/server/routers/auth.ts:12-15 | login input is accepted exactly for a well-formed email and a non-empty password; otherwise BAD_REQUEST |
| AuthRouter.PasswordLengthCountsUtf16Units | src/server/routers/auth.ts:9 | three characters above U+FFFF make a password of length 6, which is accepted; two make one of length 4, which is refused |
| AuthRouter.SignupBody | src/server/routers/auth.ts:24-70 | the body of `signup` after the schema; stated by `AuthRouter.SignupConflict`, `SignupCreatesOne` and `SignupSucceedsIff` |
| AuthRouter.SignupStep | src/server/routers/auth.ts:18-71 | what `signup` returns and leaves in the store; stated by `AuthRouter.SignupFailureWritesNothing`, `SignupSucceedsIff`, `SignupKeepsValid` and `SignupThenLogin` |
| AuthRouter.LoginBody | src/server/routers/auth.ts:78-126 | the body of `login` after the schema; stated by `AuthRouter.LoginOutcomes` and `LoginErrorCodes` |
| AuthRouter.Login | src/server/routers/auth.ts:73-127 | the `login` mutation, which writes nothing; stated by `AuthRouter.LoginOutcomes`, `SignupThenLogin` and `NextAuth.AuthorizeAgreesWithLogin` |
| AuthRouter.Signup | src/server/routers/auth.ts:18-71 | the mutation returns and leaves in the store what `SignupStep` says |
| AuthRouter.SignupConflict | src/server/routers/auth.ts:26-35 | a taken email is CONFLICT "User already exists with this email", whatever the name and password, and nothing is written |
| AuthRouter.SignupFailureWritesNothing | src/server/routers/auth.ts:24-70 | a failed signup leaves the store as it was |
| AuthRouter.SignupCreatesOne | src/server/routers/auth.ts:37-59 | a successful signup appends exactly one user, with the given name and email and the hash of the password, and returns it without the password |
| AuthRouter.SignupSucceedsIff | src/server/routers/auth.ts:24-70 | signup succeeds exactly for valid input, a fresh email and a fresh row id; a store failure after the email check is INTERNAL_SERVER_ERROR "Something went wrong during signup" |
| AuthRouter.SignupKeepsValid | src/server/routers/auth.ts:41-53 | a signup keeps ids and emails unique |
| AuthRouter.LoginOutcomes | src/server/routers/auth.ts:78-125 | login checks in order: unknown email NOT_FOUND, no password BAD_REQUEST, a `compare` that throws INTERNAL_SERVER_ERROR "Something went wrong during login", wrong password UNAUTHORIZED; otherwise the user's id, name and email |
| AuthRouter.LoginErrorCodes | src/server/routers/auth.ts:116-126 | every login failure is one of its own errors, re-thrown unchanged by the `catch`, or the catch's INTERNAL_SERVER_ERROR with its fixed message |
| AuthRouter.FindAppended | src/server/routers/auth.ts:80-82 | looking up the email of a row appended with a fresh email finds that row |
| AuthRouter.SignupThenLogin | src/server/routers/auth.ts:37-45 | with a hasher whose hashes verify, logging in with the credentials just signed up with succeeds and returns the new user |
| NextAuth.SessionLastsThirtyDays | src/auth.ts:10 | the session lasts 30 days, 2592000 seconds |
| NextAuth.Authorize | src/auth.ts:19-58 | the credentials `authorize` function; stated by `NextAuth.AuthorizeNeedsBothFields`, `AuthorizeOutcomes`, `AuthorizeAgreesWithLogin` and `SignupThenAuthorize` |
| NextAuth.AuthorizeNeedsBothFields | src/auth.ts:19-27 | a missing or empty email or password gives `null` without reading the store |
| NextAuth.AuthorizeOutcomes | src/auth.ts:19-58 | `authorize` returns the user's id, name and email exactly when the email belongs to a user with a password that the given one verifies against without `compare` throwing, and `null` otherwise (the `catch` turns a thrown error into `null`) |
| NextAuth.AuthorizeAgreesWithLogin | src/auth.ts:29-53 | on input the RPC login accepts, `authorize` signs in exactly when `login` succeeds, with the same user |
| NextAuth.SignupThenAuthorize | src/auth.ts:29-53 | with a hasher whose hashes verify, the credentials of a successful RPC signup sign in as the new user |
| NextAuth.Jwt | src/auth.ts:66-71 | the `jwt` callback sets `token.id` to the user's id when a user is given, and changes nothing else |
| NextAuth.SessionCallback | src/auth.ts:72-77 | the `session` callback copies `token.id` onto `session.user` when there is one, and changes nothing else |
| NextAuth.SignIn | src/auth.ts:19-77 | after `authorize` and both callbacks, a signed-in user's non-empty id is the id the protected handlers see |
| SignupRoute.PostStep | src/app/api/signup/route.ts:6-40 | every answer of the route has status 200 |
| SignupRoute.Post | src/app/api/signup/route.ts:6-40 | the handler answers and leaves in the store what `PostStep` says |
| SignupRoute.FalsyFieldRefused | src/app/api/signup/route.ts:10-12 | a missing or falsy field is answered "Please fill all the fields" without reading the store |
| SignupRoute.ExistingEmailRefused | src/app/api/signup/route.ts:13-18 | a taken email is answered "User already exists" and nothing is written |
| SignupRoute.PostOutcomes | src/app/api/signup/route.ts:6-40 | a user is created exactly for three non-empty strings, a fresh email and a fresh id; the row holds the password's hash and the body is "User created successfully" with id, name and email only; every error body writes nothing; an unreadable body, and every failure after the field and email checks, is answered "Something went wrong" |
| SignupRoute.PostKeepsValid | src/app/api/signup/route.ts:21-27 | the route keeps ids and emails unique |
| SignupRoute.RouteAcceptsWhatRpcRejects | src/app/api/signup/route.ts:10-12 | with an email the format check refuses, the route creates a user for a one-character and for a six-character password; the RPC signup answers BAD_REQUEST with the email and length messages for the first and the email message alone for the second |
| SignupRoute.RouteAgreesWithRpc | src/app/api/signup/route.ts:8-36 | on input the RPC schema accepts, the route creates a user exactly when the RPC signup does, and leaves the same store |
| Middleware.Decide | src/middleware.ts:1-8 | a request is sent to sign in exactly when its path is matched and it has no session token, and the redirect carries that path |
| Middleware.Matched | src/middleware.ts:6 | the matcher's regular expression: a `/`, then no excluded start, then no line terminator; stated by `Middleware.ExclusionIsPrefixOnly`, `RootIsGuarded`, `PagesAreGuarded` and `ExcludedPathsPass` |
| Middleware.ExclusionIsPrefixOnly | src/middleware.ts:6 | the lookahead only looks at a prefix: whatever follows an excluded start stays excluded |
| Middleware.RootIsGuarded | src/middleware.ts:6 | `/` is matched: without a session it is sent to sign in, with one it passes |
| Middleware.PagesAreGuarded | src/middleware.ts:6 | the dashboard, interests, products and profile pages are matched |
| Middleware.ExcludedPathsPass | src/middleware.ts:6 | API routes, the sign-in and sign-up pages and static files pass, and so do `/signup-x`, `/apiary` and `/faviconXico` (the `.` is a wildcard) |
| InterestsPage.Without | src/app/interests/page.tsx:61 | the filter keeps every other id, drops every occurrence of this one, and keeps a list without duplicates so |
| InterestsPage.Toggled | src/app/interests/page.tsx:58-67 | the new selection after a click; stated by `InterestsPage.ToggleFlipsOnlyThatId`, `ToggleTwiceRestores` and `ToggleKeepsNoDuplicates` |
| InterestsPage.ToggleFlipsOnlyThatId | src/app/interests/page.tsx:58-67 | a toggle removes a selected id, appends an unselected one, and leaves every other id's membership as it was |
| InterestsPage.ToggleTwiceRestores | src/app/interests/page.tsx:58-67 | toggling an unselected id twice gives back exactly the original selection |
| InterestsPage.WithoutAppended | src/app/interests/page.tsx:60-62 | removing an id just appended, and absent before, gives the list back |
| InterestsPage.ToggleKeepsNoDuplicates | src/app/interests/page.tsx:60-62 | a selection without duplicates stays without duplicates |
| InterestsPage.Ids | src/app/interests/page.tsx:54 | the selection loaded from the interests is their ids, in order |
| InterestsPage.Page.constructor | src/app/interests/page.tsx:18-20 | the page starts on page 1 with nothing selected and nothing unsaved |
| InterestsPage.Page.Toggle | src/app/interests/page.tsx:58-67 | a toggle sets the new selection and marks it unsaved |
| InterestsPage.Page.LoadInterests | src/app/interests/page.tsx:52-56 | loaded interests replace the selection and leave the other state |
| InterestsPage.Page.ChangePage | src/app/interests/page.tsx:75-77 | a page change sets only the current page |
| InterestsPage.Page.Save | src/app/interests/page.tsx:42-73 | saving sends the selection to `saveUserInterests`; success clears the unsaved flag, failure keeps it |
| InterestsPage.RangeLabel | src/app/interests/page.tsx:141-146 | the "Showing X to Y of Z" label; stated by `InterestsPage.RangeLabelBounds` and `RangeLabelMatchesListing` |
| InterestsPage.RangeLabelBounds | src/app/interests/page.tsx:141-146 | the label is shown exactly when there is more than one page, and then spans at most 6 categories within the total |
| InterestsPage.RangeLabelMatchesListing | src/app/interests/page.tsx:141-146 | on an existing page the label names exactly the categories `list` returned for it |
| Text.JoinSplit | prisma/seed.ts:36-39 | joining the parts of `split(' ')` with `' '` gives the string back |
| Text.Utf16Length | src/server/routers/auth.ts:7-9 | JavaScript's `length` counts at least one and at most two code units per character, and is 0 exactly for the empty string |
| Text.SplitJoin | prisma/seed.ts:36-39 | splitting a join of space-free words gives the words back |
| Text.LexTotal | src/server/routers/categories.ts:25 | any two names are ordered one way or the other |
| Text.LexTransitive | src/server/routers/categories.ts:25 | the name order is transitive |
| Seed.FormatNameIsCharwise | prisma/seed.ts:36-39 | the split/capitalise/join formatting upper-cases the first character of every word, lower-cases every other character and keeps the spaces |
| Seed.FormatNameIdempotent | prisma/seed.ts:36-39 | formatting a formatted name changes nothing |
| Seed.FormatNameKeepsSpaces | prisma/seed.ts:36-39 | formatting keeps the length and puts spaces exactly where they were |
| Seed.FormatName | prisma/seed.ts:36-39 | the split/capitalise/join formatting; stated by `Seed.FormatNameIsCharwise`, `FormatNameIdempotent` and `FormatNameKeepsSpaces` |
| Seed.Accepted | prisma/seed.ts:31-45 | the kept names have no duplicates and are no more than the candidates |
| Seed.AcceptedAreFormatted | prisma/seed.ts:36-44 | every kept name is longer than 2 UTF-16 code units and already formatted |
| Seed.AcceptedIsComplete | prisma/seed.ts:41-44 | every candidate whose formatted name is longer than 2 UTF-16 code units is kept |
| Seed.AcceptedGrows | prisma/seed.ts:31-45 | a longer run of the generator keeps everything a shorter one kept, in the same order |
| Seed.AcceptedStep | prisma/seed.ts:35-44 | one more candidate is kept exactly when its formatted name is new and longer than 2 code units |
| Seed.StoppedEarlyOrExhausted | prisma/seed.ts:31-45 | a loop that stopped at 100 names or at the end of the candidates holds a prefix of `Accepted`, of length the smaller of 100 and all there are |
| Seed.CollectNames | prisma/seed.ts:31-45 | the loop keeps the names `Accepted` says for what it consumed, and stops with 100 of them or when the candidates run out |
| Seed.Chunks | prisma/seed.ts:49-50 | every batch holds 1 to 20 names and there are `ceil(n / 20)` of them |
| Seed.ChunksFlatten | prisma/seed.ts:49-50 | the batches laid end to end are the list |
| Seed.ChunkAt | prisma/seed.ts:50 | batch `k` is the slice from `20 k` to `min(20 k + 20, n)` |
| Seed.NextChunk | prisma/seed.ts:49-50 | while `20 b` is below `n` there is a batch `b`, and it is the slice the loop takes |
| Seed.ChunkCount | prisma/seed.ts:49 | the loop stops after `ceil(n / 20)` batches |
| Seed.HundredNamesFiveBatches | prisma/seed.ts:48-50 | 100 names make five full batches |
| Seed.InsertedAppend | prisma/seed.ts:49-54 | inserting two runs of rows one after the other inserts their concatenation |
| Seed.InsertedPrefix | prisma/seed.ts:49-54 | inserting the rows up to `i` and then those from `i` to `j` inserts the rows up to `j` |
| Seed.NewCategoriesAllFresh | prisma/seed.ts:51-54 | rows with distinct new ids are all inserted |
| Seed.SeedInsertsEveryName | prisma/seed.ts:51-54 | with ids that never repeat, every collected name is inserted, in order |
| Seed.InsertBatches | prisma/seed.ts:48-56 | the batch loop inserts the batches `Chunks` says, logs `i + 1` to `min(i + 20, n)` for each, and leaves users and interests alone |
| Seed.SeedCatalogue | prisma/seed.ts:6-60 | the seed collects a prefix of `Accepted` (100 names, or all there are), batches it as `Chunks` says, leaves the category table as inserting those names into an empty table does, empties every interest set and keeps the users |

## Left out

- Rendering, styling, animation, toasts, loading spinners and the page's
  redirect effect for an unauthenticated status are not modelled; only the
  page's state and handlers are.
- The `enabled: !!session?.user` switch of the interests query is not
  modelled.
- InterestsPage.Page.Save: the save button is disabled while there are no
  unsaved changes or a save is pending; the model lets `Save` run in any
  state, and does not model the pending state.
- The superjson transformer and the identity `errorFormatter`: errors reach
  the caller as the model's `RpcError`.
- Of the request context only `user` is modelled; `prisma`, `session` and
  the request are not.
- CategoriesRouter.ParseList: page and limit are integers; zod's
  `z.number()` also accepts fractions and rejects non-numbers, which the
  model does not represent.
- AuthRouter.ParseSignup and AuthRouter.ParseLogin: a field that is
  present but not a string is modelled as absent and reported as
  "Required"; zod reports it as "Expected string, received …".
- The `saveUserInterests` schema (`z.array(z.string())`) appears only as
  the type of the ids, a list of strings, so its BAD_REQUEST answer to a
  non-array or a non-string id is not modelled.
- CategoriesRouter.RecordNotFound is a shortened form of the message of
  Prisma's P2025 error; only its code and the fact that the message is
  passed on are modelled.
- ParseList, ParseSignup and ParseLogin render a schema failure as the
  issue messages joined with "; "; tRPC actually sends zod's JSON list of
  issues.
- bcrypt's random salt and cost factor 12: hashing is a function of the
  password; `Foreign.Env.Sound` states what the proofs need of it.
- zod's email format check is a parameter (`Foreign.Env.isEmail`).
- The database's collation: names are ordered by code point, and rows with
  equal names keep table order (the database leaves their order open).
- `prisma/schema.prisma` is not part of this model: unique constraints are
  taken to be the primary keys and the user email.
- Concurrency: `Promise.all`, races between the email check and the insert
  (the failure of the insert is modelled as a unique-constraint clash),
  and interleaving of requests.
- Logging (`console.log`, `console.error`), except the batch range of
  prisma/seed.ts:55, which `Seed.InsertBatches` returns as `log`; and the
  process exit and disconnect of the seed script.
- AuthRouter.LoginBody and AuthRouter.LoginErrorCodes: in the model the
  store's reads never throw, so the INTERNAL_SERVER_ERROR branch of
  login's `catch` is reached only through bcrypt's `compare` throwing
  (`Foreign.Env.compareThrows`), not through a failing Prisma
  `findUnique`; the same holds for `NextAuth.Authorize`, whose `catch`
  answers `null`.
- CategoriesRouter.GetUserInterests returns the interests as a set:
  `user.interests` is read without `orderBy`, so the order of the array
  the source returns is unspecified, and `InterestsPage.Ids` keeps
  whatever order the page is given.
- JWT signing, encryption and expiry checks, cookies, and the
  `callbackUrl` format of the sign-in redirect (modelled as the original
  path); the fallback secret.
- Next.js matcher compilation details beyond the regular expression
  (`/_next/data` routes, trailing slashes, locales).
- Seed.CollectNames: faker's random generator is a finite input sequence;
  the source loops until it has 100 names and never ends if the generator
  cannot produce them, while the model also stops when the sequence runs out.
- Seed.FormatNameIsCharwise: `toUpperCase`/`toLowerCase` are modelled on
  ASCII letters only; other Unicode case mappings are not.
- The final `category.count()` of the seed script only feeds a log line.
