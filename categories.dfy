/**
 * The categories router: the paginated, name-ordered category list, and
 * reading and replacing the signed-in user's interest set.
 */
module CategoriesRouter {
  import opened Wrappers
  import opened Text
  import opened Store
  import opened Rpc

  const DefaultPage := 1
  const DefaultLimit := 6
  const MaxLimit := 100

  const TooSmall := "Number must be greater than or equal to 1"
  const TooBig := "Number must be less than or equal to 100"
  const NotAuthenticated := "User not authenticated"
  const InvalidIdsPrefix := "Invalid category IDs: "
  const Updated := "Interests updated successfully"
  const RecordNotFound := "Record to update not found."

  // ---------------------------------------------------------------- list

  /** The raw `list` input; an absent field takes its default. */
  datatype ListInput = ListInput(page: Option<int>, limit: Option<int>)

  datatype ListQuery = ListQuery(page: int, limit: int)

  datatype Pagination = Pagination(
    page: int, limit: int, total: nat, totalPages: nat,
    hasNextPage: bool, hasPreviousPage: bool)

  datatype Listing = Listing(categories: seq<Category>, pagination: Pagination)

  /** The issues `listCategoriesSchema` reports, page first. */
  function ListIssues(input: ListInput): seq<string>
  {
    var page := input.page.GetOr(DefaultPage);
    var limit := input.limit.GetOr(DefaultLimit);
    (if page < 1 then [TooSmall] else [])
    + (if limit < 1 then [TooSmall] else if limit > MaxLimit then [TooBig] else [])
  }

  /** Input validation: BAD_REQUEST unless `page >= 1` and `1 <= limit <= 100` after defaults. */
  function ParseList(input: ListInput): (r: Result<ListQuery>)
    ensures r.Ok? <==> 1 <= input.page.GetOr(DefaultPage) && 1 <= input.limit.GetOr(DefaultLimit) <= MaxLimit
    ensures r.Ok? ==> r.value == ListQuery(input.page.GetOr(DefaultPage), input.limit.GetOr(DefaultLimit))
    ensures r.Err? ==> r.error.code == BadRequest
  {
    var issues := ListIssues(input);
    if |issues| > 0 then Err(RpcError(BadRequest, Join(issues, "; ")))
    else Ok(ListQuery(input.page.GetOr(DefaultPage), input.limit.GetOr(DefaultLimit)))
  }

  predicate SortedByName(s: seq<Category>)
  {
    forall i, j :: 0 <= i < j < |s| ==> LexLe(s[i].name, s[j].name)
  }

  /** The first row of a sorted list is no later than any other. */
  lemma HeadIsLeast(s: seq<Category>)
    requires SortedByName(s) && s != []
    ensures forall x :: x in s[1..] ==> LexLe(s[0].name, x.name)
  {
    forall x | x in s[1..] ensures LexLe(s[0].name, x.name) {
      var j :| 0 <= j < |s[1..]| && s[1..][j] == x;
      assert s[j + 1] == x;
    }
  }

  /** A row no later than every row of a sorted list can go in front of it. */
  lemma PrependSorted(h: Category, s: seq<Category>)
    requires SortedByName(s)
    requires forall x :: x in s ==> LexLe(h.name, x.name)
    ensures SortedByName([h] + s)
  {
    var r := [h] + s;
    forall i, j | 0 <= i < j < |r| ensures LexLe(r[i].name, r[j].name) {
      assert r[j] == s[j - 1];
      if i > 0 { assert r[i] == s[i - 1]; }
    }
  }

  /** Inserts `c` before the first row whose name is not smaller. */
  function InsertByName(c: Category, s: seq<Category>): (r: seq<Category>)
    requires SortedByName(s)
    ensures SortedByName(r)
    ensures multiset(r) == multiset(s) + multiset{c}
  {
    if s == [] then [c]
    else if LexLe(c.name, s[0].name) then
      HeadIsLeast(s);
      assert forall x :: x in s ==> LexLe(c.name, x.name) by {
        forall x | x in s ensures LexLe(c.name, x.name) {
          if x != s[0] {
            assert x in s[1..];
            LexTransitive(c.name, s[0].name, x.name);
          }
        }
      }
      PrependSorted(c, s);
      [c] + s
    else
      var rest := InsertByName(c, s[1..]);
      LexTotal(c.name, s[0].name);
      HeadIsLeast(s);
      assert s == [s[0]] + s[1..];
      assert forall x :: x in rest ==> LexLe(s[0].name, x.name) by {
        forall x | x in rest ensures LexLe(s[0].name, x.name) {
          assert x in multiset(rest);
          if x != c {
            assert x in multiset(s[1..]);
          }
        }
      }
      PrependSorted(s[0], rest);
      [s[0]] + rest
  }

  /** `orderBy: { name: 'asc' }`: a stable insertion sort of the table by name. */
  function SortByName(s: seq<Category>): (r: seq<Category>)
    ensures SortedByName(r)
    ensures multiset(r) == multiset(s)
    ensures |r| == |s|
  {
    if s == [] then []
    else
      assert s == [s[0]] + s[1..];
      InsertByName(s[0], SortByName(s[1..]))
  }

  function Min(a: int, b: int): int
  {
    if a <= b then a else b
  }

  /** `Math.ceil(total / limit)` for integers. */
  function TotalPages(total: nat, limit: int): nat
    requires limit >= 1
  {
    (total + limit - 1) / limit
  }

  /** `skip: (page - 1) * limit, take: limit` over the ordered rows. */
  function PageOf(sorted: seq<Category>, q: ListQuery): seq<Category>
    requires q.page >= 1 && q.limit >= 1
  {
    var skip := (q.page - 1) * q.limit;
    if skip >= |sorted| then [] else sorted[skip..Min(skip + q.limit, |sorted|)]
  }

  /** The `list` query (a public procedure). */
  function List(t: Tables, input: ListInput): Result<Listing>
  {
    match ParseList(input)
    case Err(e) => Err(e)
    case Ok(q) =>
      var total := |t.categories|;
      var totalPages := TotalPages(total, q.limit);
      Ok(Listing(
        PageOf(SortByName(t.categories), q),
        Pagination(q.page, q.limit, total, totalPages, q.page < totalPages, q.page > 1)))
  }

  /** `totalPages` is the ceiling of `total / limit`. */
  lemma TotalPagesIsCeiling(total: nat, limit: int)
    requires limit >= 1
    ensures TotalPages(total, limit) * limit >= total
    ensures total > 0 ==> (TotalPages(total, limit) - 1) * limit < total
    ensures total == 0 ==> TotalPages(total, limit) == 0
  {
    var n := TotalPages(total, limit);
    var r := (total + limit - 1) % limit;
    assert total + limit - 1 == n * limit + r;
  }

  /** For a page number, being before the last page means rows remain after it. */
  lemma BeforeLastPage(page: int, total: nat, limit: int)
    requires page >= 1 && limit >= 1
    ensures page < TotalPages(total, limit) <==> page * limit < total
  {
    var n := TotalPages(total, limit);
    TotalPagesIsCeiling(total, limit);
    if page < n {
      assert page <= n - 1;
      MulMono(page, n - 1, limit);
    } else {
      MulMono(n, page, limit);
    }
  }

  lemma MulMono(a: int, b: int, c: int)
    requires a <= b && c >= 0
    ensures a * c <= b * c
  {
  }

  /**
   * `cats` is page `q.page` of `sorted`: at most `q.limit` rows, none when
   * the offset `(page - 1) * limit` is past the end, otherwise the rows from
   * the offset on, as many as fit.
   */
  predicate IsPage(cats: seq<Category>, sorted: seq<Category>, q: ListQuery)
  {
    var skip := (q.page - 1) * q.limit;
    && skip >= 0
    && |cats| <= q.limit
    && (skip >= |sorted| ==> cats == [])
    && (skip < |sorted| ==> |cats| == Min(q.limit, |sorted| - skip))
    && (forall i :: 0 <= i < |cats| ==> cats[i] == sorted[skip + i])
  }

  lemma PageOfShape(sorted: seq<Category>, q: ListQuery)
    requires q.page >= 1 && q.limit >= 1
    ensures IsPage(PageOf(sorted, q), sorted, q)
  {
    MulMono(0, q.page - 1, q.limit);
  }

  /**
   * `list` accepts exactly the valid inputs; the categories are the
   * name-ordered rows from offset `(page - 1) * limit`, at most `limit` of
   * them and none past the end; the pagination record echoes the query
   * and the total and its flags say whether neighbouring pages exist.
   */
  lemma ListReturnsPage(t: Tables, input: ListInput)
    ensures List(t, input).Ok? <==> 1 <= input.page.GetOr(DefaultPage) && 1 <= input.limit.GetOr(DefaultLimit) <= MaxLimit
    ensures List(t, input).Err? ==> List(t, input).error.code == BadRequest
    ensures List(t, input).Ok? ==>
      var q := ListQuery(input.page.GetOr(DefaultPage), input.limit.GetOr(DefaultLimit));
      var cats, p := List(t, input).value.categories, List(t, input).value.pagination;
      && IsPage(cats, SortByName(t.categories), q)
      && p.page == q.page && p.limit == q.limit && p.total == |t.categories|
      && p.totalPages == TotalPages(|t.categories|, q.limit)
      && (p.hasNextPage <==> q.page * q.limit < |t.categories|)
      && (p.hasPreviousPage <==> q.page > 1)
  {
    if List(t, input).Ok? {
      var q := ParseList(input).value;
      BeforeLastPage(q.page, |t.categories|, q.limit);
      PageOfShape(SortByName(t.categories), q);
    }
  }

  /** With 100 categories and the default limit of 6 there are 17 pages; the first is full, the last holds 4. */
  lemma HundredCategories(t: Tables)
    requires |t.categories| == 100
    ensures var r := List(t, ListInput(None, None));
      && r.Ok? && |r.value.categories| == 6
      && r.value.pagination.totalPages == 17
      && r.value.pagination.hasNextPage && !r.value.pagination.hasPreviousPage
    ensures var r := List(t, ListInput(Some(17), None));
      && r.Ok? && |r.value.categories| == 4
      && r.value.pagination.totalPages == 17
      && !r.value.pagination.hasNextPage && r.value.pagination.hasPreviousPage
  {
    assert TotalPages(100, 6) == 17;
    PageOfShape(SortByName(t.categories), ListQuery(1, 6));
    PageOfShape(SortByName(t.categories), ListQuery(17, 6));
  }

  // ----------------------------------------------------- getUserInterests

  function InterestsHandler(t: Tables, ctx: Context): Result<set<Category>>
  {
    match AuthenticatedId(ctx)
    case None => Err(RpcError(Unauthorized, NotAuthenticated))
    case Some(uid) =>
      if FindUserById(t.users, uid).None? then Err(RpcError(NotFound, UserNotFound))
      else Ok(InterestsOf(t, uid))
  }

  /** The `getUserInterests` query (a protected procedure); it has no effect on the store. */
  function GetUserInterests(t: Tables, ctx: Context): Result<set<Category>>
  {
    Run(Protected, ctx, c => InterestsHandler(t, c))
  }

  /** The outcomes of `getUserInterests`, in the order its checks run. */
  lemma GetUserInterestsOutcomes(t: Tables, ctx: Context)
    requires Valid(t)
    ensures ctx.user.None? ==> GetUserInterests(t, ctx) == Err(RpcError(Unauthorized, NotLoggedIn))
    ensures ctx.user.Some? && AuthenticatedId(ctx).None? ==>
      GetUserInterests(t, ctx) == Err(RpcError(Unauthorized, NotAuthenticated))
    ensures AuthenticatedId(ctx).Some? && !HasUserId(t.users, AuthenticatedId(ctx).value) ==>
      GetUserInterests(t, ctx) == Err(RpcError(NotFound, UserNotFound))
    ensures AuthenticatedId(ctx).Some? && HasUserId(t.users, AuthenticatedId(ctx).value) ==>
      && GetUserInterests(t, ctx).Ok?
      && (forall c :: c in GetUserInterests(t, ctx).value <==>
            c in t.categories && c.id in t.interests[AuthenticatedId(ctx).value])
  {
    if AuthenticatedId(ctx).Some? {
      var uid := AuthenticatedId(ctx).value;
      if HasUserId(t.users, uid) {
        assert uid in UserIds(t.users);
      }
    }
  }

  // ---------------------------------------------------- saveUserInterests

  datatype Saved = Saved(success: bool, message: string, interests: set<Category>)

  /** `categoryIds.filter(id => !existingCategoryIds.includes(id))`, in request order. */
  function InvalidIds(categories: seq<Category>, ids: seq<string>): (r: seq<string>)
    ensures forall x :: x in r <==> x in ids && !IsCategoryId(categories, x)
    ensures r == [] <==> forall x :: x in ids ==> IsCategoryId(categories, x)
  {
    if ids == [] then []
    else (if IsCategoryId(categories, ids[0]) then [] else [ids[0]]) + InvalidIds(categories, ids[1..])
  }

  function IdSet(ids: seq<string>): set<string>
  {
    set x | x in ids
  }

  /** What `saveUserInterests` returns and leaves in the store. */
  function SaveStep(t: Tables, ctx: Context, ids: seq<string>): Step<Result<Saved>>
  {
    match Guard(Protected, ctx)
    case Err(e) => Step(Err(e), t)
    case Ok(c) =>
      match AuthenticatedId(c)
      case None => Step(Err(RpcError(Unauthorized, NotAuthenticated)), t)
      case Some(uid) =>
        var invalid := InvalidIds(t.categories, ids);
        if |invalid| > 0 then Step(Err(RpcError(BadRequest, InvalidIdsPrefix + Join(invalid, ", "))), t)
        else if !HasUserId(t.users, uid) then Step(Err(FromUnknown(Other(RecordNotFound))), t)
        else
          var t' := SetInterests(t, uid, IdSet(ids));
          Step(Ok(Saved(true, Updated, InterestsOf(t', uid))), t')
  }

  /** The `saveUserInterests` mutation over the Prisma client. */
  method SaveUserInterests(db: Db, ctx: Context, ids: seq<string>) returns (r: Result<Saved>)
    modifies db
    ensures r == SaveStep(old(db.View()), ctx, ids).result
    ensures db.View() == SaveStep(old(db.View()), ctx, ids).tables
  {
    var g := Guard(Protected, ctx);
    if g.Err? {
      return Err(g.error);
    }
    var uid := AuthenticatedId(ctx);
    if uid.None? {
      return Err(RpcError(Unauthorized, NotAuthenticated));
    }
    var invalid := InvalidIds(db.categories, ids);
    if |invalid| > 0 {
      return Err(RpcError(BadRequest, InvalidIdsPrefix + Join(invalid, ", ")));
    }
    var ok := db.ReplaceInterests(uid.value, IdSet(ids));
    if !ok {
      return Err(FromUnknown(Other(RecordNotFound)));
    }
    r := Ok(Saved(true, Updated, InterestsOf(db.View(), uid.value)));
  }

  /**
   * `saveUserInterests` succeeds exactly for a signed-in, existing user
   * whose requested ids all name categories; an unknown id is reported,
   * with every unknown id in request order, before the user is looked up.
   * A user deleted since sign-in makes the update throw Prisma's error,
   * which reaches the caller as INTERNAL_SERVER_ERROR with its message.
   */
  lemma SaveOutcomes(t: Tables, ctx: Context, ids: seq<string>)
    ensures var s := SaveStep(t, ctx, ids);
      s.result.Ok? <==>
        AuthenticatedId(ctx).Some?
        && (forall x :: x in ids ==> IsCategoryId(t.categories, x))
        && HasUserId(t.users, AuthenticatedId(ctx).value)
    ensures var s := SaveStep(t, ctx, ids);
      AuthenticatedId(ctx).Some? && (exists x :: x in ids && !IsCategoryId(t.categories, x)) ==>
        s.result == Err(RpcError(BadRequest, InvalidIdsPrefix + Join(InvalidIds(t.categories, ids), ", ")))
    ensures var s := SaveStep(t, ctx, ids);
      ctx.user.Some? && AuthenticatedId(ctx).None? ==> s.result == Err(RpcError(Unauthorized, NotAuthenticated))
    ensures var s := SaveStep(t, ctx, ids);
      ctx.user.None? ==> s.result == Err(RpcError(Unauthorized, NotLoggedIn))
    ensures var s := SaveStep(t, ctx, ids);
      AuthenticatedId(ctx).Some? && (forall x :: x in ids ==> IsCategoryId(t.categories, x))
      && !HasUserId(t.users, AuthenticatedId(ctx).value) ==>
        s.result == Err(RpcError(InternalServerError, RecordNotFound))
  {
    var invalid := InvalidIds(t.categories, ids);
    if exists x :: x in ids && !IsCategoryId(t.categories, x) {
      var x :| x in ids && !IsCategoryId(t.categories, x);
      assert x in invalid;
    }
  }

  /** A rejected save writes nothing. */
  lemma SaveFailureChangesNothing(t: Tables, ctx: Context, ids: seq<string>)
    ensures SaveStep(t, ctx, ids).result.Err? ==> SaveStep(t, ctx, ids).tables == t
  {
  }

  /**
   * A successful save replaces the user's interest set by exactly the
   * requested ids (duplicates collapse), touches nothing else, and
   * returns the categories of the new set.
   */
  lemma SaveReplacesSet(t: Tables, ctx: Context, ids: seq<string>)
    requires SaveStep(t, ctx, ids).result.Ok?
    ensures var s := SaveStep(t, ctx, ids); var uid := AuthenticatedId(ctx).value;
      && s.tables.users == t.users && s.tables.categories == t.categories
      && s.tables.interests.Keys == t.interests.Keys + {uid}
      && s.tables.interests[uid] == (set x | x in ids)
      && (forall u :: u in t.interests && u != uid ==> s.tables.interests[u] == t.interests[u])
      && (forall c :: c in s.result.value.interests <==> c in t.categories && c.id in ids)
      && s.result.value.success
  {
  }

  /** Saving the same ids again succeeds with the same result and the same store. */
  lemma SaveIdempotent(t: Tables, ctx: Context, ids: seq<string>)
    requires SaveStep(t, ctx, ids).result.Ok?
    ensures SaveStep(SaveStep(t, ctx, ids).tables, ctx, ids) == SaveStep(t, ctx, ids)
  {
    var s := SaveStep(t, ctx, ids);
    var uid := AuthenticatedId(ctx).value;
    assert s.tables.interests[uid := IdSet(ids)] == s.tables.interests;
  }

  /** An empty list is accepted and clears the set. */
  lemma SaveEmptyClears(t: Tables, ctx: Context)
    requires AuthenticatedId(ctx).Some? && HasUserId(t.users, AuthenticatedId(ctx).value)
    ensures SaveStep(t, ctx, []).result.Ok?
    ensures SaveStep(t, ctx, []).tables.interests[AuthenticatedId(ctx).value] == {}
    ensures SaveStep(t, ctx, []).result.value.interests == {}
  {
  }

  /** Saving `[a, b]` and then `[b, c]` leaves exactly `{b, c}`: a replacement, not a merge. */
  lemma SaveTwiceReplaces(t: Tables, ctx: Context, a: string, b: string, c: string)
    requires SaveStep(t, ctx, [a, b]).result.Ok?
    requires IsCategoryId(t.categories, c)
    ensures var s2 := SaveStep(SaveStep(t, ctx, [a, b]).tables, ctx, [b, c]);
      s2.result.Ok? && s2.tables.interests[AuthenticatedId(ctx).value] == {b, c}
  {
    var s1 := SaveStep(t, ctx, [a, b]);
    SaveOutcomes(t, ctx, [a, b]);
    SaveOutcomes(s1.tables, ctx, [b, c]);
    assert IdSet([b, c]) == {b, c};
  }

  /** A save keeps the store's integrity. */
  lemma SaveKeepsValid(t: Tables, ctx: Context, ids: seq<string>)
    requires Valid(t)
    ensures Valid(SaveStep(t, ctx, ids).tables)
  {
    var s := SaveStep(t, ctx, ids);
    if s.result.Ok? {
      SaveOutcomes(t, ctx, ids);
      var uid := AuthenticatedId(ctx).value;
      assert uid in UserIds(t.users);
      forall x | x in IdSet(ids) ensures x in CategoryIds(t.categories) {
        assert IsCategoryId(t.categories, x);
      }
    }
  }

  /** What a successful save returns is what `getUserInterests` then reads. */
  lemma ReadAfterSave(t: Tables, ctx: Context, ids: seq<string>)
    requires SaveStep(t, ctx, ids).result.Ok?
    ensures GetUserInterests(SaveStep(t, ctx, ids).tables, ctx) == Ok(SaveStep(t, ctx, ids).result.value.interests)
  {
    var uid := AuthenticatedId(ctx).value;
    SaveOutcomes(t, ctx, ids);
    var k :| 0 <= k < |t.users| && t.users[k].id == uid;
  }
}
