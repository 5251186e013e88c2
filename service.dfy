/** `CategorysService`: create, delete, list, look up and update categories,
    over the category repository and the item collection it writes through. */
module Service {
  import opened Wrappers
  import opened Entities
  import opened Store
  import opened Priority
  import opened Listing

  /** getList answers with the whole page, or with one document of it
      (`undefined` when the page is empty). */
  datatype ListResult = Page(data: PageData) | One(doc: Option<Category>)

  /** The patch update() goes on to write, after the priority step: a
      priority given in the patch is taken as a 1-based rank among the
      active categories and replaced by the priority that places the
      category there. */
  function PreparedPatch(patch: CategoryPatch, store: seq<Category>): (r: Result<CategoryPatch, ServiceError>)
    ensures !PriorityGiven(patch) ==> r == Success(patch)
    ensures PriorityGiven(patch) ==>
              (r == Failure(BadRequest(ALREADY_NUMBER_ONE)) <==> |ActiveCategories(store)| <= 1)
    ensures r.Success? ==> r.value == patch.(priority := r.value.priority)
    ensures r.Success? && PriorityGiven(patch) ==>
              |ActiveCategories(store)| > 1 && r.value.priority.Some?
              && NewPriority(patch.priority.value - 1.0, ActiveCategories(store))
                 == Success(r.value.priority.value)
    ensures r.Failure? && PriorityGiven(patch) && |ActiveCategories(store)| > 1 ==>
              NewPriority(patch.priority.value - 1.0, ActiveCategories(store)) == Failure(r.error)
  {
    if !PriorityGiven(patch) then Success(patch)
    else
      var active := ActiveCategories(store);
      if |active| <= 1 then Failure(BadRequest(ALREADY_NUMBER_ONE))
      else
        match NewPriority(patch.priority.value - 1.0, active)
        case Failure(e) =>
          assert e == TypeError;
          Failure(e)
        case Success(p) => Success(patch.(priority := Some(p)))
  }

  class CategoriesService {
    /** The category repository's records, in store order. */
    var categories: seq<Category>
    /** The item collection the item service reads and updates. */
    var items: seq<Item>
    /** The id the repository assigns to the next record it creates. */
    var nextId: Id

    ghost predicate Valid()
      reads this
    {
      Distinct(categories) && forall c :: c in categories ==> c.id < nextId
    }

    constructor (items: seq<Item>)
      ensures Valid()
      ensures categories == [] && this.items == items
    {
      categories := [];
      this.items := items;
      nextId := 0;
    }

    /** create: stamps the priority from the clock reading `now` and stores
        the category; a name already taken is the store's conflict. */
    method Create(input: NewCategory, now: int) returns (r: Result<Category, ServiceError>)
      requires Valid()
      modifies this
      ensures Valid()
      ensures items == old(items)
      ensures FindByName(old(categories), input.categoryName).Some? ==>
                r == Failure(Conflict) && categories == old(categories)
      ensures FindByName(old(categories), input.categoryName).None? ==>
                r == Success(Category(old(nextId), input.categoryName, input.image, input.status, now as real))
                && categories == old(categories) + [r.value]
    {
      var category := Category(nextId, input.categoryName, input.image, input.status, 0.0);
      category := category.(priority := now as real);
      if FindByName(categories, input.categoryName).Some? {
        return Failure(Conflict);
      }
      var s := categories + [category];
      forall i, j | 0 <= i < j < |s|
        ensures s[i].id != s[j].id && s[i].categoryName != s[j].categoryName
      {
        if j == |s| - 1 {
          assert s[i] in categories;
        }
      }
      categories := s;
      nextId := nextId + 1;
      r := Success(category);
    }

    /** delete: refused while some item refers to the category; otherwise
        every record with that id goes and the answer is `{ success: true }`. */
    method Delete(categoryId: Id) returns (r: Result<bool, ServiceError>)
      requires Valid()
      modifies this
      ensures Valid()
      ensures items == old(items) && nextId == old(nextId)
      ensures HasItems(items, categoryId) ==>
                r == Failure(BadRequest(CANNOT_DELETE)) && categories == old(categories)
      ensures !HasItems(items, categoryId) ==>
                r == Success(true) && categories == RemoveById(old(categories), categoryId)
    {
      var itemWithThisCategory := ItemsWithCategory(items, categoryId);
      if |itemWithThisCategory| > 0 {
        assert itemWithThisCategory[0] in itemWithThisCategory;
        return Failure(BadRequest(CANNOT_DELETE));
      }
      RemoveByIdKeepsDistinct(categories, categoryId);
      categories := RemoveById(categories, categoryId);
      r := Success(true);
    }

    /** getList: the page of categories the query selects or, when
        `prioriry` is given, the first document of that page sorted by
        ascending priority, which is a document of least priority on it. */
    method GetList(q: ListQuery) returns (r: ListResult)
      ensures q.prioriry.None? ==>
                r == Page(Paginate(categories, ListFilter(q.status), ListOptions(q)))
      ensures q.prioriry.Some? ==> r.One?
      ensures q.prioriry.Some? ==>
                var docs := Paginate(categories, ListFilter(q.status), ListOptions(q)).docs;
                (r.doc.None? <==> docs == [])
                && (r.doc.Some? ==> r.doc.value in categories
                                    && (q.status.None? || r.doc.value.status == q.status.value))
                && (r.doc.Some? ==> r.doc.value in docs)
                && (r.doc.Some? ==> forall d :: d in docs ==> r.doc.value.priority <= d.priority)
                && (r.doc.Some? ==> r.doc.value.priority == SortedByPriority(docs)[0].priority)
    {
      var options := ListOptions(q);
      var filters := ListFilter(q.status);
      var data := Paginate(categories, filters, options);
      if q.prioriry.Some? {
        // computed as in the source, and never used to pick the document
        var index := ClampIndex(q.prioriry.value, |data.docs|);
        var first := PickFirst(data.docs);
        return One(first);
      }
      return Page(data);
    }

    /** getCategory: the category of that name, if there is one. */
    method GetCategory(categoryName: string) returns (r: Option<Category>)
      ensures r.Some? ==> r.value in categories && r.value.categoryName == categoryName
      ensures r.None? <==> forall c :: c in categories ==> c.categoryName != categoryName
    {
      r := FindByName(categories, categoryName);
    }

    /** update: first the priority step (see PreparedPatch); then, only if
        the patch carries a new name, the category write and the rename
        cascade onto the items, issued together and with no transaction
        around them. Without a new name nothing is written and the answer
        is `undefined`, whatever priority was computed. */
    method Update(categoryId: Id, patch: CategoryPatch) returns (r: Result<Option<Category>, ServiceError>)
      requires Valid()
      modifies this
      ensures Valid()
      ensures nextId == old(nextId)
      ensures PreparedPatch(patch, old(categories)).Failure? ==>
                r == Failure(PreparedPatch(patch, old(categories)).error)
                && categories == old(categories) && items == old(items)
      ensures !NameGiven(patch) ==> categories == old(categories) && items == old(items)
      ensures !NameGiven(patch) && PreparedPatch(patch, old(categories)).Success? ==> r == Success(None)
      ensures NameGiven(patch) && PreparedPatch(patch, old(categories)).Success? ==>
                var dto := PreparedPatch(patch, old(categories)).value;
                var k := IndexOfId(old(categories), categoryId);
                var newName := patch.categoryName.value;
                if k < 0 then
                  r == Failure(TypeError) && categories == old(categories) && items == old(items)
                else
                  items == RenameCategory(old(items), old(categories)[k].categoryName, newName)
                  && if NameTakenByOther(old(categories), newName, k) then
                       r == Failure(Conflict) && categories == old(categories)
                     else
                       var updated := ApplyPatch(old(categories)[k], dto);
                       r == Success(Some(updated)) && categories == old(categories)[k := updated]
    {
      var prepared := PriorityStep(patch);
      if prepared.Failure? {
        return Failure(prepared.error);
      }
      var dto := prepared.value;
      if NameGiven(dto) {
        r := WriteNamed(categoryId, dto);
        return;
      }
      return Success(None);
    }

    /** update's priority step: the rank among the ACTIVE categories is
        turned into a priority by updatePriority over an array copy of them. */
    method PriorityStep(patch: CategoryPatch) returns (r: Result<CategoryPatch, ServiceError>)
      ensures r == PreparedPatch(patch, categories)
    {
      var dto := patch;
      if PriorityGiven(dto) {
        var listCategoryActive := ActiveCategories(categories);
        if |listCategoryActive| <= 1 {
          return Failure(BadRequest(ALREADY_NUMBER_ONE));
        }
        var list := ToArray(listCategoryActive);
        var p := UpdatePriority(dto.priority.value - 1.0, list);
        if p.Failure? {
          return Failure(p.error);
        }
        dto := dto.(priority := Some(p.value));
      }
      return Success(dto);
    }

    /** update's writes once the patch carries a name: the category write
        and the rename cascade onto the items. */
    method WriteNamed(categoryId: Id, dto: CategoryPatch) returns (r: Result<Option<Category>, ServiceError>)
      requires Valid() && NameGiven(dto)
      modifies this
      ensures Valid()
      ensures nextId == old(nextId)
      ensures var k := IndexOfId(old(categories), categoryId);
              var newName := dto.categoryName.value;
              if k < 0 then
                r == Failure(TypeError) && categories == old(categories) && items == old(items)
              else
                items == RenameCategory(old(items), old(categories)[k].categoryName, newName)
                && if NameTakenByOther(old(categories), newName, k) then
                     r == Failure(Conflict) && categories == old(categories)
                   else
                     var updated := ApplyPatch(old(categories)[k], dto);
                     r == Success(Some(updated)) && categories == old(categories)[k := updated]
    {
      var k := IndexOfId(categories, categoryId);
      if k < 0 {
        // `category.categoryName` read on the `null` of findOne
        return Failure(TypeError);
      }
      var oldCategoryName := categories[k].categoryName;
      var newName := dto.categoryName.value;

      // the category write: refused by the unique index on categoryName
      var categoryUpdate: Result<Option<Category>, ServiceError>;
      if NameTakenByOther(categories, newName, k) {
        categoryUpdate := Failure(Conflict);
      } else {
        var updated := ApplyPatch(categories[k], dto);
        ReplaceKeepsDistinct(categories, k, updated);
        assert forall c :: c in categories[k := updated] ==> c == updated || c in categories;
        categories := categories[k := updated];
        categoryUpdate := Success(Some(updated));
      }

      // the item cascade, issued alongside whatever the write did
      items := RenameCategory(items, oldCategoryName, newName);
      return categoryUpdate;
    }
  }
}
