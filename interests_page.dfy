/**
 * The selection logic of the interests page: toggling a category in the
 * selection, loading the saved interests, saving, paging, and the
 * "Showing X to Y of Z" label. Rendering is not modelled.
 */
module InterestsPage {
  import opened Wrappers
  import opened Text
  import opened Store
  import opened Rpc
  import CategoriesRouter

  /** The page always asks `list` for 6 categories per page. */
  const PageSize := 6

  /** `prev.filter(id => id !== categoryId)`. */
  function Without(s: seq<string>, id: string): (r: seq<string>)
    ensures forall x :: x in r <==> x in s && x != id
    ensures id !in s ==> r == s
    ensures NoDuplicates(s) ==> NoDuplicates(r)
  {
    if s == [] then []
    else if s[0] == id then Without(s[1..], id)
    else
      var rest := Without(s[1..], id);
      assert NoDuplicates(s) ==> s[0] !in s[1..];
      [s[0]] + rest
  }

  /** The new selection `handleInterestToggle` computes. */
  function Toggled(s: seq<string>, id: string): seq<string>
  {
    if id in s then Without(s, id) else s + [id]
  }

  /**
   * Toggling a selected id removes every occurrence of it; toggling an
   * unselected one appends it. Either way only its membership flips.
   */
  lemma ToggleFlipsOnlyThatId(s: seq<string>, id: string)
    ensures id in s ==> id !in Toggled(s, id)
    ensures id !in s ==> Toggled(s, id) == s + [id]
    ensures forall x :: x != id ==> (x in Toggled(s, id) <==> x in s)
  {
  }

  /** Toggling an unselected id twice gives back exactly the original list. */
  lemma {:induction false} ToggleTwiceRestores(s: seq<string>, id: string)
    requires id !in s
    ensures Toggled(Toggled(s, id), id) == s
  {
    assert id in s + [id];
    WithoutAppended(s, id);
  }

  lemma {:induction false} WithoutAppended(s: seq<string>, id: string)
    requires id !in s
    ensures Without(s + [id], id) == s
  {
    if s == [] {
      assert [id][1..] == [];
    } else {
      assert (s + [id])[1..] == s[1..] + [id];
      WithoutAppended(s[1..], id);
      assert [s[0]] + s[1..] == s;
    }
  }

  /** A selection without duplicates stays without duplicates. */
  lemma ToggleKeepsNoDuplicates(s: seq<string>, id: string)
    requires NoDuplicates(s)
    ensures NoDuplicates(Toggled(s, id))
  {
  }

  /** The ids of the loaded interests, in the order they came. */
  function Ids(interests: seq<Category>): (r: seq<string>)
    ensures |r| == |interests|
    ensures forall i :: 0 <= i < |r| ==> r[i] == interests[i].id
  {
    if interests == [] then [] else [interests[0].id] + Ids(interests[1..])
  }

  /** The label's first and last category numbers. */
  datatype Range = Range(first: int, last: int)

  /** "Showing X to Y of Z": shown only when there is more than one page. */
  function RangeLabel(currentPage: int, p: CategoriesRouter.Pagination): Option<Range>
  {
    if p.totalPages > 1 then
      Some(Range((currentPage - 1) * PageSize + 1, CategoriesRouter.Min(currentPage * PageSize, p.total)))
    else None
  }

  /** The component state the handlers update. */
  class Page {
    var currentPage: int
    var selected: seq<string>
    var unsaved: bool

    constructor ()
      ensures currentPage == 1 && selected == [] && !unsaved
    {
      currentPage, selected, unsaved := 1, [], false;
    }

    /** `handleInterestToggle`: the new selection, and the unsaved flag set. */
    method Toggle(id: string)
      modifies this
      ensures selected == Toggled(old(selected), id)
      ensures unsaved && currentPage == old(currentPage)
    {
      selected := Toggled(selected, id);
      unsaved := true;
    }

    /** The effect on loaded interests: the selection becomes their ids, in order. */
    method LoadInterests(interests: seq<Category>)
      modifies this
      ensures selected == Ids(interests)
      ensures unsaved == old(unsaved) && currentPage == old(currentPage)
    {
      selected := Ids(interests);
    }

    /** `handlePageChange`. */
    method ChangePage(page: int)
      modifies this
      ensures currentPage == page
      ensures selected == old(selected) && unsaved == old(unsaved)
    {
      currentPage := page;
    }

    /**
     * `handleSaveInterests` with its `onSuccess`/`onError` handlers: the
     * selection is sent as `categoryIds`; success clears the unsaved flag,
     * failure leaves it.
     */
    method Save(db: Db, ctx: Context) returns (r: Result<CategoriesRouter.Saved>)
      modifies this, db
      ensures r == CategoriesRouter.SaveStep(old(db.View()), ctx, old(selected)).result
      ensures db.View() == CategoriesRouter.SaveStep(old(db.View()), ctx, old(selected)).tables
      ensures unsaved == (old(unsaved) && r.Err?)
      ensures selected == old(selected) && currentPage == old(currentPage)
    {
      r := CategoriesRouter.SaveUserInterests(db, ctx, selected);
      if r.Ok? {
        unsaved := false;
      }
    }
  }

  /** The label spans at most one page of categories and never passes the total. */
  lemma RangeLabelBounds(currentPage: int, p: CategoriesRouter.Pagination)
    requires 1 <= currentPage
    requires currentPage <= p.totalPages
    requires p.limit == PageSize && p.totalPages == CategoriesRouter.TotalPages(p.total, PageSize)
    ensures RangeLabel(currentPage, p).Some? <==> p.totalPages > 1
    ensures RangeLabel(currentPage, p).Some? ==>
      var r := RangeLabel(currentPage, p).value;
      1 <= r.first <= r.last <= p.total && r.last - r.first + 1 <= PageSize
  {
    CategoriesRouter.TotalPagesIsCeiling(p.total, PageSize);
  }

  /**
   * On a page the list actually has, the label names exactly the
   * categories `list` returned for it: the rows `first` to `last` (counting
   * from 1) of the name-ordered table.
   */
  lemma RangeLabelMatchesListing(t: Tables, currentPage: int)
    requires var r := CategoriesRouter.List(t, CategoriesRouter.ListInput(Some(currentPage), Some(PageSize)));
      r.Ok? && currentPage <= r.value.pagination.totalPages && r.value.pagination.totalPages > 1
    ensures var r := CategoriesRouter.List(t, CategoriesRouter.ListInput(Some(currentPage), Some(PageSize))).value;
      var shown := RangeLabel(currentPage, r.pagination).value;
      && shown.last - shown.first + 1 == |r.categories|
      && r.categories == CategoriesRouter.SortByName(t.categories)[shown.first - 1..shown.last]
  {
    var input := CategoriesRouter.ListInput(Some(currentPage), Some(PageSize));
    var r := CategoriesRouter.List(t, input).value;
    var sorted := CategoriesRouter.SortByName(t.categories);
    var q := CategoriesRouter.ListQuery(currentPage, PageSize);
    assert r.categories == CategoriesRouter.PageOf(sorted, q);
    CategoriesRouter.TotalPagesIsCeiling(|t.categories|, PageSize);
    var skip := (currentPage - 1) * PageSize;
    assert skip < |sorted|;
  }
}
