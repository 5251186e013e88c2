/** The records the category service reads and writes. */
module Entities {
  import opened Wrappers

  /** Store-assigned identifier of a record. */
  type Id = nat

  datatype Status = Active | Inactive

  /** A category record of the category collection. */
  datatype Category = Category(
    id: Id,
    categoryName: string,
    image: string,
    status: Status,
    priority: real)

  /** The snapshot `{ id, name }` of its category that an item carries. */
  datatype CategoryRef = CategoryRef(id: Id, name: string)

  /** An item of the item collection; only its category snapshot matters here. */
  datatype Item = Item(id: Id, category: CategoryRef)

  /** The fields a create request supplies; the service stamps the priority. */
  datatype NewCategory = NewCategory(categoryName: string, image: string, status: Status)

  /** A partial update: each field is either absent or a new value. */
  datatype CategoryPatch = CategoryPatch(
    categoryName: Option<string>,
    image: Option<string>,
    status: Option<Status>,
    priority: Option<real>)

  /** The exceptions the service raises or lets through. */
  datatype ServiceError =
    | BadRequest(message: string)
    | Conflict      // the store's unique index on categoryName
    | TypeError     // a property read on `undefined` or `null`

  const CANNOT_DELETE: string := "You cannot delete this item"
  const ALREADY_NUMBER_ONE: string := "This category priority already number one"

  /** `if (dto.categoryName)`: `undefined` and the empty string are falsy,
      every other string is truthy. */
  predicate NameGiven(p: CategoryPatch): (b: bool)
    ensures p.categoryName == None ==> !b
    ensures p.categoryName == Some("") ==> !b
    ensures p.categoryName.Some? && |p.categoryName.value| > 0 ==> b
  {
    p.categoryName.Some? && p.categoryName.value != ""
  }

  /** `if (dto.priority)`: `undefined` and zero are falsy, every other
      number is truthy. */
  predicate PriorityGiven(p: CategoryPatch): (b: bool)
    ensures p.priority == None ==> !b
    ensures p.priority == Some(0.0) ==> !b
    ensures p.priority.Some? && (p.priority.value < 0.0 || p.priority.value > 0.0) ==> b
  {
    p.priority.Some? && p.priority.value != 0.0
  }

  /** The partial update a find-one-and-update applies: every field the patch
      carries replaces the record's, the rest is kept. */
  function ApplyPatch(c: Category, p: CategoryPatch): (r: Category)
    ensures r.id == c.id
    ensures p.categoryName.Some? ==> r.categoryName == p.categoryName.value
    ensures p.categoryName.None? ==> r.categoryName == c.categoryName
    ensures p.image.Some? ==> r.image == p.image.value
    ensures p.image.None? ==> r.image == c.image
    ensures p.status.Some? ==> r.status == p.status.value
    ensures p.status.None? ==> r.status == c.status
    ensures p.priority.Some? ==> r.priority == p.priority.value
    ensures p.priority.None? ==> r.priority == c.priority
  {
    Category(
      c.id,
      p.categoryName.GetOr(c.categoryName),
      p.image.GetOr(c.image),
      p.status.GetOr(c.status),
      p.priority.GetOr(c.priority))
  }
}
