/** The pieces of `getList`: its pagination options, its status filter, and
    the single document it picks from a page when `prioriry` is given. */
module Listing {
  import opened Wrappers
  import opened Entities
  import opened Store
  import opened Priority

  /** `Standard.PER_PAGE` and `Standard.PAGE`, the defaults for a query
      without `perPage` or `page`. */
  const PER_PAGE: int := 25
  const PAGE: int := 1

  /** The query string of a list request; each parameter may be absent. */
  datatype ListQuery = ListQuery(
    page: Option<int>,
    perPage: Option<int>,
    sortBy: Option<string>,
    sortType: Option<string>,
    status: Option<Status>,
    prioriry: Option<int>)

  /** `{ sort: { [sortBy]: sortType }, limit: perPage || PER_PAGE, page: page || PAGE }`. */
  function ListOptions(q: ListQuery): (o: PageOptions)
    ensures o.sort == SortSpec(q.sortBy, q.sortType)
    ensures q.perPage.Some? ==> o.limit == q.perPage.value
    ensures q.perPage.None? ==> o.limit == PER_PAGE
    ensures q.page.Some? ==> o.page == q.page.value
    ensures q.page.None? ==> o.page == PAGE
  {
    PageOptions(SortSpec(q.sortBy, q.sortType), q.perPage.GetOr(PER_PAGE), q.page.GetOr(PAGE))
  }

  /** The conjunctive filter: one status clause when a status is given,
      and the empty filter otherwise. It admits exactly the categories of
      the requested status, or every category. */
  function ListFilter(status: Option<Status>): (f: Filter)
    ensures forall c :: Matches(f, c) <==> status.None? || c.status == status.value
    ensures status.None? <==> f == MatchAll
  {
    var andFilter := if status.Some? then [StatusIs(status.value)] else [];
    assert status.Some? ==> andFilter[0] == StatusIs(status.value) && andFilter[0] in andFilter;
    if |andFilter| > 0 then And(andFilter) else MatchAll
  }

  /** The index getList derives from `prioriry`: raised to 0, then lowered
      to the last position of the page (-1 for an empty page). */
  function ClampIndex(prioriry: int, len: nat): (index: int)
    ensures len > 0 ==> 0 <= index < len
    ensures len == 0 ==> index == -1
    ensures 0 <= prioriry < len ==> index == prioriry
    ensures len > 0 && prioriry <= 0 ==> index == 0
    ensures len > 0 && prioriry >= len ==> index == len - 1
  {
    var index := if prioriry <= 0 then 0 else prioriry;
    if index >= len then len - 1 else index
  }

  /** Copies a page's documents into an array, as the driver hands them over. */
  method ToArray(docs: seq<Category>) returns (a: array<Category>)
    ensures fresh(a) && a[..] == docs
  {
    a := new Category[|docs|](i requires 0 <= i < |docs| => docs[i]);
  }

  /** What getList returns when `prioriry` is given: the page sorted by
      ascending priority, element 0. It is a document of least priority on
      the page, and `undefined` when the page is empty. */
  method PickFirst(docs: seq<Category>) returns (r: Option<Category>)
    ensures r.None? <==> docs == []
    ensures r.Some? ==> r.value in docs
    ensures r.Some? ==> forall d :: d in docs ==> r.value.priority <= d.priority
    ensures r.Some? ==> r.value.priority == SortedByPriority(docs)[0].priority
  {
    var a := ToArray(docs);
    SortByPriority(a);
    if a.Length == 0 {
      r := None;
    } else {
      r := Some(a[0]);
      assert a[0] in multiset(docs);
      forall d | d in docs ensures a[0].priority <= d.priority {
        assert d in multiset(a[..]);
      }
      SamePriorities(a[..], SortedByPriority(docs));
      assert a[0].priority == Priorities(a[..])[0];
    }
  }

  /** The evidently intended choice: the document at the clamped index of
      the page sorted by ascending priority. Its priority is the one at that
      rank however ties are ordered. */
  method PickRanked(docs: seq<Category>, prioriry: int) returns (r: Option<Category>)
    ensures r.None? <==> docs == []
    ensures r.Some? ==> r.value in docs
    ensures r.Some? ==> r.value.priority == SortedByPriority(docs)[ClampIndex(prioriry, |docs|)].priority
  {
    var index := ClampIndex(prioriry, |docs|);
    var a := ToArray(docs);
    SortByPriority(a);
    if a.Length == 0 {
      r := None;
    } else {
      r := Some(a[index]);
      assert a[index] in multiset(docs);
      SamePriorities(a[..], SortedByPriority(docs));
      assert a[index].priority == Priorities(a[..])[index];
    }
  }

  /** A page of priorities 3, 1 and 2 asked for `prioriry` 2: the document
      getList returns has priority 1, the one at index 2 of the sorted page
      has priority 3. */
  lemma GetListIgnoresIndex()
    ensures var docs := [Category(0, "c", "", Active, 3.0),
                         Category(1, "a", "", Active, 1.0),
                         Category(2, "b", "", Active, 2.0)];
            SortedByPriority(docs)[0].priority == 1.0
            && ClampIndex(2, |docs|) == 2
            && SortedByPriority(docs)[ClampIndex(2, |docs|)].priority == 3.0
  {
  }
}
