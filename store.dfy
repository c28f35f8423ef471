/**
 * The relational store behind the Prisma client, as a single-threaded
 * in-memory model: the user table, the category table and the
 * many-to-many user/category interest relation.
 */
module Store {
  import opened Wrappers

  datatype User = User(id: string, name: string, email: string, password: Option<string>, createdAt: int)

  /** A user as handed back to a client, `{ id, name, email }`: no password. */
  datatype PublicUser = PublicUser(id: string, name: string, email: string)

  datatype Category = Category(id: string, name: string)

  /** The whole store as a value; `interests` maps a user id to that user's category ids. */
  datatype Tables = Tables(users: seq<User>, categories: seq<Category>, interests: map<string, set<string>>)

  /** What a handler returns together with the store it leaves behind. */
  datatype Step<R> = Step(result: R, tables: Tables)

  /** `prisma.user.findUnique({ where: { email } })`. */
  function FindUserByEmail(users: seq<User>, email: string): (r: Option<User>)
    ensures r.Some? ==> r.value in users && r.value.email == email
    ensures r.None? <==> forall k :: 0 <= k < |users| ==> users[k].email != email
  {
    if users == [] then None
    else if users[0].email == email then Some(users[0])
    else FindUserByEmail(users[1..], email)
  }

  /** `prisma.user.findUnique({ where: { id } })`. */
  function FindUserById(users: seq<User>, id: string): (r: Option<User>)
    ensures r.Some? ==> r.value in users && r.value.id == id
    ensures r.None? <==> forall k :: 0 <= k < |users| ==> users[k].id != id
  {
    if users == [] then None
    else if users[0].id == id then Some(users[0])
    else FindUserById(users[1..], id)
  }

  predicate HasUserId(users: seq<User>, id: string)
  {
    exists k :: 0 <= k < |users| && users[k].id == id
  }

  predicate HasUserEmail(users: seq<User>, email: string)
  {
    exists k :: 0 <= k < |users| && users[k].email == email
  }

  predicate IsCategoryId(categories: seq<Category>, id: string)
  {
    exists k :: 0 <= k < |categories| && categories[k].id == id
  }

  function UserIds(users: seq<User>): set<string>
  {
    set k | 0 <= k < |users| :: users[k].id
  }

  function CategoryIds(categories: seq<Category>): set<string>
  {
    set k | 0 <= k < |categories| :: categories[k].id
  }

  /** The interest rows of a user, as the `include: { interests }` of a query returns them. */
  function InterestsOf(t: Tables, userId: string): (r: set<Category>)
    ensures forall c :: c in r <==> c in t.categories && userId in t.interests && c.id in t.interests[userId]
  {
    if userId in t.interests then
      set k | 0 <= k < |t.categories| && t.categories[k].id in t.interests[userId] :: t.categories[k]
    else {}
  }

  /**
   * The database's integrity: primary keys and the unique email are
   * unique, every user has an interest entry and nothing else does, and
   * the relation only references existing categories.
   */
  ghost predicate Valid(t: Tables)
  {
    && (forall i, j :: 0 <= i < j < |t.users| ==> t.users[i].id != t.users[j].id)
    && (forall i, j :: 0 <= i < j < |t.users| ==> t.users[i].email != t.users[j].email)
    && (forall i, j :: 0 <= i < j < |t.categories| ==> t.categories[i].id != t.categories[j].id)
    && t.interests.Keys == UserIds(t.users)
    && (forall u :: u in t.interests ==> t.interests[u] <= CategoryIds(t.categories))
  }

  /** Whether `prisma.user.create` can insert `row` without violating a unique constraint. */
  predicate CanInsertUser(t: Tables, row: User)
  {
    !HasUserId(t.users, row.id) && !HasUserEmail(t.users, row.email)
  }

  /** The store after `prisma.user.create` inserted `row`; the new user has no interests. */
  function InsertUser(t: Tables, row: User): Tables
  {
    t.(users := t.users + [row], interests := t.interests[row.id := {}])
  }

  lemma InsertUserKeepsValid(t: Tables, row: User)
    requires Valid(t) && CanInsertUser(t, row)
    ensures Valid(InsertUser(t, row))
  {
    var t' := InsertUser(t, row);
    assert UserIds(t'.users) == UserIds(t.users) + {row.id} by {
      forall x ensures x in UserIds(t'.users) <==> x in UserIds(t.users) + {row.id} {
        if x in UserIds(t'.users) {
          var k :| 0 <= k < |t'.users| && t'.users[k].id == x;
          if k < |t.users| { assert t.users[k].id == x; }
        }
        if x in UserIds(t.users) {
          var k :| 0 <= k < |t.users| && t.users[k].id == x;
          assert t'.users[k].id == x;
        }
        if x == row.id { assert t'.users[|t.users|].id == x; }
      }
    }
  }

  /** The store after a user's interest set was replaced (`interests: { set: ... }`). */
  function SetInterests(t: Tables, userId: string, ids: set<string>): Tables
  {
    t.(interests := t.interests[userId := ids])
  }

  /** The rows `createMany({ data, skipDuplicates: true })` inserts: those whose id is not taken yet. */
  function NewCategories(existing: seq<Category>, rows: seq<Category>): seq<Category>
    decreases rows
  {
    if rows == [] then []
    else if IsCategoryId(existing, rows[0].id) then NewCategories(existing, rows[1..])
    else [rows[0]] + NewCategories(existing + [rows[0]], rows[1..])
  }

  /**
   * `skipDuplicates` keeps category ids unique, inserts only given rows,
   * and afterwards every given id is in the table.
   */
  lemma {:induction false} NewCategoriesSkipsTaken(existing: seq<Category>, rows: seq<Category>)
    requires forall i, j :: 0 <= i < j < |existing| ==> existing[i].id != existing[j].id
    ensures var after := existing + NewCategories(existing, rows);
      && (forall i, j :: 0 <= i < j < |after| ==> after[i].id != after[j].id)
      && (forall c :: c in NewCategories(existing, rows) ==> c in rows)
      && (forall k :: 0 <= k < |rows| ==> IsCategoryId(after, rows[k].id))
    decreases rows
  {
    if rows != [] {
      var tail := rows[1..];
      if IsCategoryId(existing, rows[0].id) {
        NewCategoriesSkipsTaken(existing, tail);
        var after := existing + NewCategories(existing, rows);
        var w :| 0 <= w < |existing| && existing[w].id == rows[0].id;
        assert after[w] == existing[w];
        forall k | 1 <= k < |rows| ensures IsCategoryId(after, rows[k].id) {
          assert rows[k] == tail[k - 1];
        }
      } else {
        var e1 := existing + [rows[0]];
        assert forall i :: 0 <= i < |existing| ==> existing[i].id != rows[0].id;
        assert forall i :: 0 <= i < |existing| ==> e1[i] == existing[i];
        NewCategoriesSkipsTaken(e1, tail);
        var after := existing + NewCategories(existing, rows);
        assert after == e1 + NewCategories(e1, tail);
        assert after[|existing|] == rows[0];
        forall k | 1 <= k < |rows| ensures IsCategoryId(after, rows[k].id) {
          assert rows[k] == tail[k - 1];
        }
      }
    }
  }

  /** Inserting categories keeps the store valid. */
  lemma CreateManyKeepsValid(t: Tables, rows: seq<Category>)
    requires Valid(t)
    ensures Valid(t.(categories := t.categories + NewCategories(t.categories, rows)))
  {
    NewCategoriesSkipsTaken(t.categories, rows);
    var after := t.categories + NewCategories(t.categories, rows);
    assert CategoryIds(t.categories) <= CategoryIds(after) by {
      forall x | x in CategoryIds(t.categories) ensures x in CategoryIds(after) {
        var k :| 0 <= k < |t.categories| && t.categories[k].id == x;
        assert after[k] == t.categories[k];
      }
    }
  }

  /**
   * The Prisma client over the store. Each method is one query or
   * mutation; `View()` is the store's content as a value.
   */
  class Db {
    var users: seq<User>
    var categories: seq<Category>
    var interests: map<string, set<string>>

    function View(): Tables
      reads this
    {
      Tables(users, categories, interests)
    }

    constructor ()
      ensures View() == Tables([], [], map[])
    {
      users, categories, interests := [], [], map[];
    }

    /** `prisma.user.create`: fails on a unique-constraint violation, otherwise inserts the row. */
    method CreateUser(row: User) returns (ok: bool)
      modifies this
      ensures ok == CanInsertUser(old(View()), row)
      ensures View() == if ok then InsertUser(old(View()), row) else old(View())
    {
      ok := CanInsertUser(View(), row);
      if ok {
        users := users + [row];
        interests := interests[row.id := {}];
      }
    }

    /** `prisma.user.update` with `interests: { set: ids }`: fails when the user does not exist. */
    method ReplaceInterests(userId: string, ids: set<string>) returns (ok: bool)
      modifies this
      ensures ok == HasUserId(old(users), userId)
      ensures View() == if ok then SetInterests(old(View()), userId, ids) else old(View())
    {
      ok := HasUserId(users, userId);
      if ok {
        interests := interests[userId := ids];
      }
    }

    /**
     * `prisma.category.deleteMany()`: empties the category table; the rows
     * of the implicit join table go with it, so every interest set empties.
     */
    method DeleteAllCategories()
      modifies this
      ensures users == old(users) && categories == []
      ensures interests.Keys == old(interests).Keys
      ensures forall u :: u in interests ==> interests[u] == {}
    {
      categories := [];
      interests := map u | u in interests :: {};
    }

    /** `prisma.category.createMany({ data: rows, skipDuplicates: true })`. */
    method CreateManyCategories(rows: seq<Category>) returns (count: nat)
      modifies this
      ensures categories == old(categories) + NewCategories(old(categories), rows)
      ensures count == |NewCategories(old(categories), rows)|
      ensures users == old(users) && interests == old(interests)
    {
      var added := NewCategories(categories, rows);
      categories := categories + added;
      count := |added|;
    }
  }
}
