/** The category repository and the item collection as the service uses
    them: find, find-one, delete-many, paginate and update-many over the
    records held in store order. */
module Store {
  import opened Wrappers
  import opened Entities

  // ---------------------------------------------------------------------
  // Filters
  // ---------------------------------------------------------------------

  datatype Clause = StatusIs(status: Status)

  /** `{}`, a single clause such as `{ status }`, or `{ $and: [...] }`. */
  datatype Filter = MatchAll | Where(clause: Clause) | And(clauses: seq<Clause>)

  predicate Holds(cl: Clause, c: Category) {
    match cl
    case StatusIs(st) => c.status == st
  }

  predicate Matches(f: Filter, c: Category) {
    match f
    case MatchAll => true
    case Where(cl) => Holds(cl, c)
    case And(cls) => forall cl :: cl in cls ==> Holds(cl, c)
  }

  /** `find(filter)`: the matching records, in store order. */
  function Find(store: seq<Category>, f: Filter): (r: seq<Category>)
    ensures |r| <= |store|
    ensures forall c :: c in r <==> c in store && Matches(f, c)
  {
    if store == [] then []
    else
      var rest := Find(store[1..], f);
      assert forall c :: c in store <==> c == store[0] || c in store[1..];
      if Matches(f, store[0]) then [store[0]] + rest else rest
  }

  /** find keeps every matching record as often as the store holds it, and
      no other record. */
  lemma {:induction false} FindExact(store: seq<Category>, f: Filter)
    ensures forall c :: multiset(Find(store, f))[c]
                        == if Matches(f, c) then multiset(store)[c] else 0
  {
    if store != [] {
      assert store == [store[0]] + store[1..];
      FindExact(store[1..], f);
    }
  }

  lemma AppendAssociative<T>(a: seq<T>, b: seq<T>, c: seq<T>)
    ensures a + (b + c) == (a + b) + c
  {
  }

  /** The matches of a list with a first record: that record when it
      matches, then the matches of the rest. */
  lemma FindCons(x: Category, rest: seq<Category>, f: Filter)
    ensures Find([x] + rest, f) == (if Matches(f, x) then [x] else []) + Find(rest, f)
  {
    assert ([x] + rest)[1..] == rest;
  }

  /** find keeps store order: the matches of a concatenation are the
      matches of its first part followed by those of its second. */
  lemma {:induction false} FindConcat(s: seq<Category>, t: seq<Category>, f: Filter)
    ensures Find(s + t, f) == Find(s, f) + Find(t, f)
  {
    if s == [] {
      assert s + t == t;
    } else {
      var x, tail := s[0], s[1..];
      assert s == [x] + tail && s + t == [x] + (tail + t);
      FindConcat(tail, t, f);
      FindCons(x, tail + t, f);
      FindCons(x, tail, f);
      AppendAssociative(if Matches(f, x) then [x] else [], Find(tail, f), Find(t, f));
    }
  }

  /** `find({ status: ACTIVE })`, the list updatePriority works on: each
      ACTIVE record as often as the store holds it, in store order. */
  function ActiveCategories(store: seq<Category>): (r: seq<Category>)
    ensures forall c :: c in r <==> c in store && c.status == Active
    ensures forall c :: multiset(r)[c] == if c.status == Active then multiset(store)[c] else 0
  {
    FindExact(store, Where(StatusIs(Active)));
    Find(store, Where(StatusIs(Active)))
  }

  // ---------------------------------------------------------------------
  // Lookups
  // ---------------------------------------------------------------------

  /** `findOne({ _id })`, as the position of the first record with that id,
      or -1 when there is none (the driver's `null`). */
  function IndexOfId(store: seq<Category>, id: Id): (k: int)
    ensures -1 <= k < |store|
    ensures 0 <= k ==> store[k].id == id && forall j :: 0 <= j < k ==> store[j].id != id
    ensures k == -1 <==> forall j :: 0 <= j < |store| ==> store[j].id != id
  {
    if store == [] then -1
    else if store[0].id == id then 0
    else
      var k := IndexOfId(store[1..], id);
      if k < 0 then -1 else k + 1
  }

  /** `findOne({ categoryName })`: the first record with that name, or none. */
  function FindByName(store: seq<Category>, name: string): (r: Option<Category>)
    ensures r.Some? ==> r.value in store && r.value.categoryName == name
    ensures r.None? <==> forall c :: c in store ==> c.categoryName != name
  {
    if store == [] then None
    else if store[0].categoryName == name then Some(store[0])
    else
      assert forall c :: c in store <==> c == store[0] || c in store[1..];
      FindByName(store[1..], name)
  }

  /** The unique index on categoryName: some record other than the one at
      position `k` already has `name`. */
  predicate NameTakenByOther(store: seq<Category>, name: string, k: int) {
    exists j :: 0 <= j < |store| && j != k && store[j].categoryName == name
  }

  // ---------------------------------------------------------------------
  // Writes
  // ---------------------------------------------------------------------

  /** `deleteMany({ _id })`: every record with that id goes, every other
      record stays, as often as it was there. */
  function RemoveById(store: seq<Category>, id: Id): (r: seq<Category>)
    ensures forall c :: c in r <==> c in store && c.id != id
  {
    if store == [] then []
    else
      assert forall c :: c in store <==> c == store[0] || c in store[1..];
      var rest := RemoveById(store[1..], id);
      if store[0].id == id then rest else [store[0]] + rest
  }

  /** deleteMany removes exactly the records with the id: each other record
      is kept as many times as it occurred. */
  lemma {:induction false} RemoveByIdExact(store: seq<Category>, id: Id)
    ensures forall c :: multiset(RemoveById(store, id))[c]
                        == if c.id == id then 0 else multiset(store)[c]
  {
    if store != [] {
      assert store == [store[0]] + store[1..];
      RemoveByIdExact(store[1..], id);
    }
  }

  /** Some item refers to the category `id`. */
  predicate HasItems(items: seq<Item>, id: Id) {
    exists it :: it in items && it.category.id == id
  }

  /** The item service's `find({ 'category.id': id })`. */
  function ItemsWithCategory(items: seq<Item>, id: Id): (r: seq<Item>)
    ensures forall it :: it in r <==> it in items && it.category.id == id
  {
    if items == [] then []
    else
      assert forall it :: it in items <==> it == items[0] || it in items[1..];
      var rest := ItemsWithCategory(items[1..], id);
      if items[0].category.id == id then [items[0]] + rest else rest
  }

  function Rename(it: Item, newName: string): Item {
    it.(category := it.category.(name := newName))
  }

  /** `updateMany({ 'category.name': oldName }, { $set: { 'category.name': newName } })`. */
  function RenameCategory(items: seq<Item>, oldName: string, newName: string): (r: seq<Item>)
    ensures |r| == |items|
    ensures forall i :: 0 <= i < |items| && items[i].category.name == oldName ==>
              r[i] == Rename(items[i], newName)
    ensures forall i :: 0 <= i < |items| && items[i].category.name != oldName ==> r[i] == items[i]
  {
    seq(|items|, i requires 0 <= i < |items| =>
      if items[i].category.name == oldName then Rename(items[i], newName) else items[i])
  }

  /** After a rename to a different name no item carries the old name, and
      every item keeps its own id and the id of its category. */
  lemma RenameCategoryComplete(items: seq<Item>, oldName: string, newName: string)
    requires oldName != newName
    ensures forall it :: it in RenameCategory(items, oldName, newName) ==> it.category.name != oldName
    ensures forall i :: 0 <= i < |items| ==>
              RenameCategory(items, oldName, newName)[i].id == items[i].id
              && RenameCategory(items, oldName, newName)[i].category.id == items[i].category.id
  {
  }

  /** Renaming the same name twice changes nothing the first rename did not. */
  lemma RenameCategoryIdempotent(items: seq<Item>, oldName: string, newName: string)
    ensures RenameCategory(RenameCategory(items, oldName, newName), oldName, newName)
         == RenameCategory(items, oldName, newName)
  {
  }

  // ---------------------------------------------------------------------
  // The store's uniqueness invariant
  // ---------------------------------------------------------------------

  /** Ids and category names are unique among the stored records. */
  predicate Distinct(store: seq<Category>) {
    forall i, j :: 0 <= i < j < |store| ==>
      store[i].id != store[j].id && store[i].categoryName != store[j].categoryName
  }

  /** A record whose id and name no record of an already unique list has
      can go in front of it. */
  lemma ConsKeepsDistinct(c: Category, rest: seq<Category>)
    requires Distinct(rest)
    requires forall x :: x in rest ==> x.id != c.id && x.categoryName != c.categoryName
    ensures Distinct([c] + rest)
  {
    var r := [c] + rest;
    forall i, j | 0 <= i < j < |r|
      ensures r[i].id != r[j].id && r[i].categoryName != r[j].categoryName
    {
      assert r[j] == rest[j - 1] && rest[j - 1] in rest;
      if i > 0 {
        assert r[i] == rest[i - 1];
      }
    }
  }

  /** Deleting records keeps ids and names unique. */
  lemma {:induction false} RemoveByIdKeepsDistinct(store: seq<Category>, id: Id)
    requires Distinct(store)
    ensures Distinct(RemoveById(store, id))
  {
    if store != [] {
      var tail := store[1..];
      var rest := RemoveById(tail, id);
      assert Distinct(tail);
      RemoveByIdKeepsDistinct(tail, id);
      if store[0].id != id {
        forall x | x in rest
          ensures x.id != store[0].id && x.categoryName != store[0].categoryName
        {
          var k :| 0 <= k < |tail| && tail[k] == x;
          assert store[k + 1] == x;
        }
        ConsKeepsDistinct(store[0], rest);
      }
    }
  }

  /** Replacing the record at `k` by one with the same id and a name no
      other record has keeps ids and names unique. */
  lemma ReplaceKeepsDistinct(store: seq<Category>, k: nat, c: Category)
    requires Distinct(store) && k < |store|
    requires c.id == store[k].id
    requires !NameTakenByOther(store, c.categoryName, k)
    ensures Distinct(store[k := c])
  {
  }

  // ---------------------------------------------------------------------
  // Pagination
  // ---------------------------------------------------------------------

  /** `{ [sortBy]: sortType }` as given by the caller. */
  datatype SortSpec = SortSpec(sortBy: Option<string>, sortType: Option<string>)

  datatype PageOptions = PageOptions(sort: SortSpec, limit: int, page: int)

  /** The page object: this page's documents and the pagination metadata. */
  datatype PageData = PageData(docs: seq<Category>, totalDocs: nat, limit: nat, page: nat, totalPages: nat)

  /** The number of records before page `page` (counted from 1). */
  function Skip(page: nat, limit: nat): nat
    requires page >= 1
  {
    (page - 1) * limit
  }

  /** The number of pages `total` records fill, `limit` to a page. */
  function PageCount(total: nat, limit: nat): nat {
    if limit == 0 then 1 else (total + limit - 1) / limit
  }

  /** `paginate(filter, options)`: page `page` (counted from 1) of `limit`
      matching records, with the total count and the number of pages. */
  function Paginate(store: seq<Category>, f: Filter, o: PageOptions): (p: PageData)
    ensures p.totalDocs == |Find(store, f)|
    ensures p.limit == (if o.limit > 0 then o.limit else 0)
    ensures p.page == (if o.page > 1 then o.page else 1)
    ensures |p.docs| <= p.limit
    ensures o.limit > 0 ==> |p.docs| <= o.limit
    ensures forall c :: c in p.docs ==> c in store && Matches(f, c)
    ensures o.page <= 1 && o.limit >= |Find(store, f)| ==> p.docs == Find(store, f)
  {
    var all := Find(store, f);
    var limit: nat := if o.limit > 0 then o.limit else 0;
    var page: nat := if o.page > 1 then o.page else 1;
    var skip := Skip(page, limit);
    var start := if skip < |all| then skip else |all|;
    var end := if start + limit < |all| then start + limit else |all|;
    assert forall c :: c in all[start..end] ==> c in all;
    PageData(all[start..end], |all|, limit, page, PageCount(|all|, limit))
  }
}
