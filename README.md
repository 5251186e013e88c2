# Category service of an e-commerce catalogue, modelled in Dafny

This project models `CategorysService`, the business logic of the category
module of a product-catalogue back end. The module stores categories. Each
category has a unique name, an image, a status (ACTIVE or INACTIVE) and a
numeric `priority` that orders it among the others. Every item of the
catalogue carries a snapshot `{ id, name }` of its category, and the service
keeps that snapshot's name in step with the category.

What is modelled:

- **create** stamps the priority from a clock reading. The clock is a
  parameter here. The store assigns an id and refuses a duplicate name.
- **delete** is refused with BadRequest while an item refers to the
  category. Otherwise it removes every record with that id and answers
  `{ success: true }`.
- **getList** builds the pagination options and a conjunctive status
  filter, then pages through the matching records. When `prioriry` is in the
  query, it sorts the page by ascending priority and returns element 0.
- **getCategory** looks a category up by name.
- **update** has a priority step. A truthy `priority` is a 1-based rank
  among the ACTIVE categories. With at most one ACTIVE category it is
  refused with BadRequest. Otherwise **updatePriority** sorts those
  categories in place and computes a new priority for the target slot. That
  priority is one below the first, one above the last, or the midpoint of
  the two neighbours of the slot. Only a truthy `categoryName` leads to a
  write: the category is patched, and every item carrying the old name gets
  the new one. Without a name nothing is written and the call resolves to
  `undefined`, even when a priority was computed.

Layout: `wrappers.dfy` (Option, Result), `entities.dfy` (records, patch,
errors), `priority.dfy` (comparators, the in-place sort, a reference sort,
the reinsertion rule and its lemmas), `store.dfy` (the repository and item
operations over sequences, and the store's uniqueness invariant),
`listing.dfy` (getList's options, filter, clamp and pick) and `service.dfy`
(the service as a class over the store).

Priorities are exact reals, so a midpoint is always exact. A patch priority
is a real too. Its rank `priority - 1` can then fall strictly inside the
list without being a whole number. The source then reads
`list[rank - 1].priority` on `undefined`, which throws a TypeError, and the
model returns that error.

Quirks of the code that the model keeps as they are:

- getList computes a clamped index from `prioriry` and then returns element
  0 of the sorted page (see Findings).
- delete refuses with the message "You cannot delete this item".
- The query parameter that selects a single document is spelled `prioriry`.

## Model

| member | source | states |
|---|---|---|
| `Entities.ApplyPatch` | src/categories/categories.service.ts:102-105 | the partial update keeps the id; each of name, image, status and priority is replaced by the patch's value when the patch carries one and kept when it does not |
| `Entities.NameGiven` | src/categories/categories.service.ts:95 | the `categoryName` test is false for an absent name and for the empty string and true for every other name |
| `Entities.PriorityGiven` | src/categories/categories.service.ts:77 | the `priority` test is false for an absent priority and for 0 and true for every other number |
| `Priority.UpdatePriorityComparator` | src/categories/categories.service.ts:120-123 | updatePriority's comparator never answers positive, and answers negative exactly when `a` has the lower priority |
| `Priority.UpdatePriorityComparatorInconsistent` | src/categories/categories.service.ts:120-123 | that comparator is not consistent: on priorities 1 and 2 swapping the arguments does not flip the sign of the answer |
| `Priority.ComparePriority` | src/categories/categories.service.ts:57-59 | getList's comparator `a.priority - b.priority` is negative, zero or positive exactly as `a` comes before, ties with or comes after `b`, and flips sign with its arguments |
| `Priority.ComparatorsAgreeBelowZero` | src/categories/categories.service.ts:120-123 | on every pair the as-written comparator is negative exactly when `a.priority - b.priority` is, so a sort that consults it only through `< 0` orders as the corrected comparator does |
| `Priority.SortByPriority` | src/categories/categories.service.ts:120-123 | the in-place sort leaves the array ascending by priority and a permutation of what it held |
| `Priority.SortedByPriority` | src/categories/categories.service.ts:120-123 | the reference sort returns an ascending permutation of its input of the same length |
| `Priority.SamePriorities` | src/categories/categories.service.ts:120-123 | two ascending orders of the same categories carry the same priority at every position, however ties are placed |
| `Priority.Reinsert` | src/categories/categories.service.ts:125-142 | the rule read off a sorted list fails, with a TypeError, exactly when the rank lies strictly inside the list and is not a whole number |
| `Priority.NewPriority` | src/categories/categories.service.ts:119-143 | the priority updatePriority computes for a list in any order fails, with a TypeError, exactly when the rank lies strictly inside the list and is not a whole number |
| `Priority.ReinsertIgnoresTieOrder` | src/categories/categories.service.ts:119-143 | the priority computed from the sorted list does not depend on how the sort ordered ties |
| `Priority.UpdatePriority` | src/categories/categories.service.ts:119-143 | updatePriority sorts its list in place (ascending, a permutation) and returns the new priority of the reinsertion rule for the list as it was given |
| `Priority.NewPriorityBeforeAll` | src/categories/categories.service.ts:125-127 | rank at or below 0 gives the lowest priority minus 1: a priority of the list less 1 that is at least 1 below every priority in the list |
| `Priority.NewPriorityAfterAll` | src/categories/categories.service.ts:129-133 | a rank at or past the last position gives the highest priority plus 1: a priority of the list plus 1 that is at least 1 above every priority in the list |
| `Priority.ReinsertBetween` | src/categories/categories.service.ts:135-142 | a whole rank strictly inside the list reads only the in-bounds positions rank-1 and rank+1 and returns their midpoint, which lies between them, strictly when they differ |
| `Priority.ReinsertFractionalRankFails` | src/categories/categories.service.ts:135-142 | a rank strictly inside the list that is not a whole number fails with a TypeError |
| `Priority.ReinsertExample` | src/categories/categories.service.ts:119-143 | on priorities 1 to 5, ranks 0, 4 and 2 give 0, 6 and 3 |
| `Store.Find` | src/categories/categories.service.ts:78-80 | find returns only stored records the filter admits, each admitted stored record among them, and never more than the store holds |
| `Store.FindExact` | src/categories/categories.service.ts:78-80 | find holds each record the filter admits exactly as often as the store does, and no other record |
| `Store.FindConcat` | src/categories/categories.service.ts:78-80 | find keeps store order: the matches of two stretches of records one after the other are the matches of the first followed by those of the second |
| `Store.ActiveCategories` | src/categories/categories.service.ts:78-80 | the list updatePriority works on holds each ACTIVE category exactly as often as the store does and nothing else, so its length is the number of ACTIVE records the `length <= 1` guard tests |
| `Store.IndexOfId` | src/categories/categories.service.ts:96-98 | findOne by id finds the first record with that id, or reports none exactly when no record has it |
| `Store.FindByName` | src/categories/categories.service.ts:66-68 | findOne by name yields a stored record of that name, and nothing exactly when no record has it |
| `Store.RemoveById` | src/categories/categories.service.ts:32 | after deleteMany a record remains exactly when it was stored and has another id |
| `Store.RemoveByIdExact` | src/categories/categories.service.ts:32 | deleteMany drops every copy of the records with that id and keeps every other record as often as it occurred |
| `Store.ItemsWithCategory` | src/categories/categories.service.ts:25-27 | the item lookup returns exactly the items whose category id is the one deleted |
| `Store.RenameCategory` | src/categories/categories.service.ts:108-111 | the cascade keeps the number and order of items, gives each item carrying the old name the new name and leaves every other item as it was |
| `Store.RenameCategoryComplete` | src/categories/categories.service.ts:108-111 | after a rename to a different name no item carries the old name, and every item keeps its id and its category's id |
| `Store.RenameCategoryIdempotent` | src/categories/categories.service.ts:108-111 | repeating the cascade changes nothing further, for any old and new name |
| `Store.RemoveByIdKeepsDistinct` | src/categories/categories.service.ts:32 | deleting keeps ids and category names unique in the store |
| `Store.ReplaceKeepsDistinct` | src/categories/categories.service.ts:102-105 | patching a record under its own id, to a name no other record has, keeps ids and names unique |
| `Store.Paginate` | src/categories/categories.service.ts:51 | a page reports the number of matching records, carries the requested limit (0 when not positive) and page (1 when below 1), holds at most the requested limit of records, each stored and admitted by the filter, and on page 1 with a limit no smaller than the number of matches holds all of them in store order |
| `Listing.ListOptions` | src/categories/categories.service.ts:39-43 | the options carry the caller's sort, `perPage` or 25 as the limit and `page` or 1 as the page |
| `Listing.ListFilter` | src/categories/categories.service.ts:45-49 | the filter admits exactly the categories of the requested status, and is the empty filter when no status is given |
| `Listing.ClampIndex` | src/categories/categories.service.ts:53-55 | the index is within the page when the page is non-empty, equals an in-range `prioriry`, is 0 below the page, the last position above it, and -1 for an empty page |
| `Listing.PickFirst` | src/categories/categories.service.ts:57-59 | the picked document is on the page, has the least priority on it, and is absent exactly when the page is empty |
| `Listing.PickRanked` | src/categories/categories.service.ts:53-59 | the intended pick is on the page and has the priority at the clamped rank of the sorted page, and is absent exactly when the page is empty |
| `Listing.GetListIgnoresIndex` | src/categories/categories.service.ts:52-59 | on a page of priorities 3, 1, 2 asked for index 2 the returned document has priority 1 while the document at index 2 has priority 3 |
| `Service.PreparedPatch` | src/categories/categories.service.ts:77-92 | a falsy priority leaves the patch as it is; a truthy one fails with BadRequest exactly when at most one category is ACTIVE, else is replaced by the reinsertion priority for rank `priority - 1` among the ACTIVE categories, or fails as that computation fails; nothing else in the patch changes |
| `Service.CategoriesService.Create` | src/categories/categories.service.ts:16-19 | a taken name is a conflict and changes nothing; otherwise the category is appended with a fresh id and the clock reading as priority, and ids and names stay unique |
| `Service.CategoriesService.Delete` | src/categories/categories.service.ts:22-34 | with an item referring to the category it fails with BadRequest and the store is unchanged; otherwise it answers success and the store is the old store without that id; items are never touched |
| `Service.CategoriesService.GetList` | src/categories/categories.service.ts:37-63 | without `prioriry` the answer is the page; with it, a document of that page with the requested status and the least priority on it, the priority of element 0 of the page sorted by priority, absent exactly when the page is empty |
| `Service.CategoriesService.GetCategory` | src/categories/categories.service.ts:66-68 | the answer is a stored category of that name, and absent exactly when there is none |
| `Service.CategoriesService.Update` | src/categories/categories.service.ts:71-116 | a failed priority step leaves store and items unchanged; without a name nothing is written and the answer is `undefined`; with one, an unknown id is a TypeError with no write, a name held by another record leaves the store as it was but still renames the items, and otherwise the patched record replaces the old one, the items carrying the old name get the new one and the answer is the patched record |
| `Service.CategoriesService.PriorityStep` | src/categories/categories.service.ts:77-92 | the priority step, run over an array copy of the ACTIVE categories through updatePriority, yields exactly the prepared patch or its failure |
| `Service.CategoriesService.WriteNamed` | src/categories/categories.service.ts:95-115 | with a name in the patch: an unknown id is a TypeError with no write; a name held by another record leaves the store as it was but still renames the items; otherwise the patched record replaces the old one, the items carrying the old name get the new one, and the answer is the patched record |

## Left out

- The controller (src/categories/categories.controller.ts) only delegates to the service under routing, guard and documentation decorators.
- `Date.now()` is the `now` parameter of Create, and `console.log` in delete has no effect on the model.
- The store's own ids are drawn from a counter field, `nextId`, standing in for the database's id generation.
- The repository's `paginate`, `find`, `findOne`, `findOneAndUpdate` and `deleteMany`, and the item service's `find` and `updateMany`, have internals that are not modelled; the model gives them as operations on sequences in store order.
- Store.Paginate: does not model the database's sort by `sortBy`/`sortType` (pages are cut from the records in store order), nor the pagination library's metadata beyond the total count; a non-positive page or limit is read as page 1 or an empty page.
- `findOneAndUpdate` is taken to answer with the record after the patch, as the update's contract promises its callers.
- `Promise.all` in update: the category write and the item cascade run one after the other; a refused write still lets the cascade happen, as the two requests are issued independently.
- Failures of the database itself (lost connection and the like) are not modelled; only the unique index on `categoryName` is.
- Request validation (required name and image, number formats) happens before the service and is not part of this model.
- JavaScript's string-to-number coercion and NaN are not modelled: query values are optional integers, and a query value that is present counts as given.
- Floating point: priorities are exact reals, so precision running out after many midpoints is not captured.
- Service.CategoriesService.GetList: says the document is one of least priority, not which of several tied ones the sort puts first (the sort's stability is not proved).
- Priority.SortByPriority: the engine's sort algorithm is not part of this model; an insertion sort that consults the comparator only through `< 0` stands in for it, and its stability is not proved.
- Items carry only their id and their category snapshot; their other fields are not modelled.

## Findings

| source | as written | input that shows it | evidently intended | confidence | as-written member | corrected member |
|---|---|---|---|---|---|---|
| src/categories/categories.service.ts:120-123 | the comparator returns -1 when `a` has the lower priority and 0 otherwise, never a positive value, so it is not a consistent comparator and the sort order it yields is left to the JavaScript engine | two categories of priorities 1 and 2: -1 one way round, 0 the other | a positive answer when `a` has the higher priority, as getList's `a.priority - b.priority` at line 58 gives | medium, not executed: an engine that tests only `< 0` still sorts correctly with it, as `Priority.ComparatorsAgreeBelowZero` states | `Priority.UpdatePriorityComparatorInconsistent` | `Priority.ComparePriority` |
| src/categories/categories.service.ts:52-59 | the index clamped from `prioriry` is computed and never used; element 0 of the sorted page is returned | a page of priorities 3, 1, 2 with `prioriry` 2 returns the document of priority 1 instead of the one of priority 3 | return the document at the clamped index of the sorted page | high, not executed | `Listing.GetListIgnoresIndex` | `Listing.PickRanked` |

The model's sorts use the corrected comparator. `GetList` keeps the
behaviour as written: it returns element 0 through `Listing.PickFirst`.
`Listing.PickRanked` states the intended behaviour beside it.
