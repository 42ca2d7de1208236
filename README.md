# Cosmoport ship service, modelled in Dafny

This project models `ShipService`, the service layer of the Cosmoport
ship registry. It covers:

- the twelve-criterion ship search (`getShipsList`) and its count (`getShipsCount`);
- sorting by id, speed, production date or rating, followed by paging (`getSortedList`, `getComparator`);
- creating a ship, with field validation, rating computation and speed rounding (`createShip`);
- reading and deleting a ship by id (`getShipById`, `deleteShipById`);
- the field-by-field update with its early rejections (`updateShip`);
- the rating formula (`computeRating`).

The modules are:

- `Wrappers`: `Option`.
- `ShipModel`: the ship record, the update/create payload (every field optional, standing for Java `null`), ship types, sort orders and the response datatype.
- `Streams`: the stream operations the service uses: `filter`, `skip` and `limit`.
- `ShipFilter`: the search criteria, the per-criterion tests and the query they define.
- `ShipSort`: the comparator key, a stable insertion sort and the page slice.
- `Validation`: the range and length checks and their constants, with text length in UTF-16 code units.
- `Rating`: Java's two-decimal `Math.round` over reals, and the rating.
- `Service`: the class `ShipService`. It holds the store (`ships`, the sequence `findAll()` returns), the next id the store assigns, and the year function. It has one method per service operation.

A production date is an integer instant. The calendar year of an instant, which the source computes in the system time zone, is a function `yearOf` given to the service when it is built.

`getShipsList` is a method. It reassigns its local `result` through twelve steps. Each step is the service's guarded filter, `if (criterion != null) result = filter(result, test)`, written as `Narrow(result, criterion, test)`. Alongside, a ghost copy of the criteria applied so far shows that after every step the list is the query of those criteria. `createShip`, `deleteShipById` and `updateShip` change the store and keep a store invariant: ids are unique, positive and below the next id, and every record passes the field checks.

Rating and speed are `real`. The rating is `round2(80 * speed * usedRatio / (3019 - year + 1))`, and `round2(x) = floor(100 * x + 0.5) / 100`.

Two behaviours of the code deserve a note:

- Page 3 of size 3 over ten ships holds the tenth ship: the code skips 9 and keeps up to 3 (lines 114-115). `ShipSort.PagesOfTen` states this.
- On create, the rating is computed from the unrounded speed (line 172), and only then is the speed rounded (line 173). So a new ship's rating can differ from the formula applied to its stored, rounded speed. `Rating.RatingBeforeRoundingDiffers` exhibits such a speed, and `Service.ShipService.CreateShip` states the code's order.

Text lengths are Java's: `String.length()` counts UTF-16 code units, so a character outside the Basic Multilingual Plane counts twice (`Validation.Utf16Length`).

## Model

All source paths are in `space/src/main/java/com/space/service/ShipService.java`.

| member | source | states |
|---|---|---|
| Streams.FilterMembers | space/src/main/java/com/space/service/ShipService.java:41-101 | every element a filter step keeps comes from its input and passes the test, and every input element that passes is kept |
| Streams.FilterPositions | space/src/main/java/com/space/service/ShipService.java:41-101 | a filter step's output sits in its input at strictly increasing positions (order is preserved), and every position whose element passes is among them |
| Streams.FilterFilter | space/src/main/java/com/space/service/ShipService.java:41-101 | filtering by one test and then another equals one filter by their conjunction |
| Streams.FilterKeepsAll | space/src/main/java/com/space/service/ShipService.java:41-101 | a filter whose test every element passes returns its input unchanged |
| ShipFilter.ContainsIff | space/src/main/java/com/space/service/ShipService.java:44 | `String.contains` holds exactly when the pattern is a prefix of some suffix of the text |
| ShipFilter.QuerySelects | space/src/main/java/com/space/service/ShipService.java:41-102 | the search result is an order-preserving subsequence of the store, and a ship of the store is in it if and only if it meets every criterion that is set |
| ShipFilter.QueryNoCriteria | space/src/main/java/com/space/service/ShipService.java:41-102 | with every criterion null the search returns the whole store in order: a null criterion never narrows |
| ShipFilter.NarrowQuery | space/src/main/java/com/space/service/ShipService.java:41-102 | narrowing a query result by one more test gives the query whose criteria are the old ones plus that test |
| ShipFilter.QueryCommutes | space/src/main/java/com/space/service/ShipService.java:41-102 | two searches applied one after the other give the same list in either order: the ships that meet both |
| ShipFilter.NarrowByName | space/src/main/java/com/space/service/ShipService.java:42-46 | the name step: a set name narrows to ships whose name contains it, and a null name changes nothing |
| ShipFilter.NarrowByPlanet | space/src/main/java/com/space/service/ShipService.java:47-51 | the planet step: a set planet narrows to ships whose planet contains it, and a null one changes nothing |
| ShipFilter.NarrowByType | space/src/main/java/com/space/service/ShipService.java:52-56 | the type step: a set type narrows to ships of that type, and a null one changes nothing |
| ShipFilter.NarrowByAfter | space/src/main/java/com/space/service/ShipService.java:57-61 | the `after` step keeps ships produced strictly after the instant, and a null one changes nothing |
| ShipFilter.NarrowByBefore | space/src/main/java/com/space/service/ShipService.java:62-66 | the `before` step keeps ships produced strictly before the instant, and a null one changes nothing |
| ShipFilter.NarrowByUsed | space/src/main/java/com/space/service/ShipService.java:67-71 | the used-flag step keeps ships with that flag, and a null one changes nothing |
| ShipFilter.NarrowByMinSpeed | space/src/main/java/com/space/service/ShipService.java:72-76 | the minimum-speed step keeps ships with at least that speed (inclusive), and a null one changes nothing |
| ShipFilter.NarrowByMaxSpeed | space/src/main/java/com/space/service/ShipService.java:77-81 | the maximum-speed step keeps ships with at most that speed (inclusive), and a null one changes nothing |
| ShipFilter.NarrowByMinCrewSize | space/src/main/java/com/space/service/ShipService.java:82-86 | the minimum-crew step keeps ships with at least that crew (inclusive), and a null one changes nothing |
| ShipFilter.NarrowByMaxCrewSize | space/src/main/java/com/space/service/ShipService.java:87-91 | the maximum-crew step keeps ships with at most that crew (inclusive), and a null one changes nothing |
| ShipFilter.NarrowByMinRating | space/src/main/java/com/space/service/ShipService.java:92-96 | the minimum-rating step keeps ships with at least that rating (inclusive), and a null one changes nothing |
| ShipFilter.NarrowByMaxRating | space/src/main/java/com/space/service/ShipService.java:97-101 | the maximum-rating step keeps ships with at most that rating (inclusive), and a null one changes nothing |
| Service.ShipService.GetShipsList | space/src/main/java/com/space/service/ShipService.java:29-103 | the list after the twelve guarded steps is exactly the query of the given criteria over the store |
| Service.ShipService.GetShipsCount | space/src/main/java/com/space/service/ShipService.java:119-133 | the count is the length of the list `getShipsList` returns for the same criteria |
| ShipSort.KeyCompares | space/src/main/java/com/space/service/ShipService.java:135-147 | comparing keys is comparing the field the comparator selects: the id when the order is null or names the id, otherwise the speed, the production instant or the rating |
| ShipSort.SortByDefault | space/src/main/java/com/space/service/ShipService.java:137-138 | a null order sorts exactly as ordering by id does |
| ShipSort.SortBy | space/src/main/java/com/space/service/ShipService.java:112-113 | the sorted list is a permutation of the input (same multiset) and is non-decreasing in the comparator's key; a null order sorts by id |
| ShipSort.SortStable | space/src/main/java/com/space/service/ShipService.java:113 | for every key value, the ships with that key appear in the sorted list in their input order (the sort is stable) |
| ShipSort.SortedUnique | space/src/main/java/com/space/service/ShipService.java:113 | two key-sorted lists that agree, key by key, on the order of their ships are equal |
| ShipSort.StableSortIsSortBy | space/src/main/java/com/space/service/ShipService.java:113 | any sorted, stable rearrangement of the input is the model's sorted list, so the model fixes the only result a stable sort can give |
| ShipSort.Page | space/src/main/java/com/space/service/ShipService.java:114-115 | a page holds at most `pageSize` ships, is empty when it starts at or after the end, and otherwise is the slice from `pageNumber * pageSize` up to `min(start + pageSize, length)` |
| ShipSort.DefaultPage | space/src/main/java/com/space/service/ShipService.java:105-111 | for every list, a null page number is 0 and a null page size is 3: the first three sorted ships, or all of them when there are fewer |
| ShipSort.GetSortedList | space/src/main/java/com/space/service/ShipService.java:105-117 | the returned page holds at most the page size (3 by default) ships, all from the list, sorted by the chosen key; it is empty when it starts at or past the end, and otherwise is the slice of the sorted list from page number times page size (0 by default) |
| ShipSort.PagesOfTen | space/src/main/java/com/space/service/ShipService.java:105-117 | over ten ships in pages of three, page 0 is sorted positions 0-2, page 3 is position 9 alone and page 4 is empty |
| Validation.CreateStricterThanUpdate | space/src/main/java/com/space/service/ShipService.java:150-166 | a payload create accepts passes every check update applies, and create rejects an empty payload |
| Validation.Utf16Length | space/src/main/java/com/space/service/ShipService.java:153 | Java's `length()` counts at least one and at most two code units per character, and is zero exactly for the empty string |
| Validation.Utf16LengthBmp | space/src/main/java/com/space/service/ShipService.java:153 | a text of characters below U+10000 has as many code units as characters |
| Validation.Utf16LengthSupplementary | space/src/main/java/com/space/service/ShipService.java:153 | a text of characters from U+10000 up has twice as many code units as characters |
| Validation.SupplementaryText | space/src/main/java/com/space/service/ShipService.java:150-156 | 25 copies of U+1F680 (50 units) pass the text check and 26 (52 units) fail it; 50 ASCII letters pass and 51 fail |
| Validation.Boundaries | space/src/main/java/com/space/service/ShipService.java:150-166 | each range check accepts both of its end points and rejects the values just outside; a text of 50 code units passes, one of 51 or an empty one fails |
| Rating.Round2 | space/src/main/java/com/space/service/ShipService.java:276 | `Math.round(x * 100) / 100` lies within half a hundredth of `x` (ties round up) and is a whole number of hundredths |
| Rating.Round2Unique | space/src/main/java/com/space/service/ShipService.java:276 | any whole number of hundredths within that half-open half-hundredth window of `x` is the rounding of `x` |
| Rating.Round2Monotone | space/src/main/java/com/space/service/ShipService.java:276 | rounding preserves order |
| Rating.Round2KeepsSpeed | space/src/main/java/com/space/service/ShipService.java:173 | a speed in [0.01, 0.99] is still in that range after rounding |
| Rating.ComputeRating | space/src/main/java/com/space/service/ShipService.java:270-277 | the rating is a whole number of hundredths within half a hundredth of `80 * speed * usedRatio / (3019 - year + 1)` |
| Rating.RatingExample | space/src/main/java/com/space/service/ShipService.java:270-277 | speed 0.5, unused, year 2800 rates 0.18 |
| Rating.RatingBounds | space/src/main/java/com/space/service/ShipService.java:270-277 | for a valid speed and year the rating lies in [0, 79.2] |
| Rating.RatingMonotone | space/src/main/java/com/space/service/ShipService.java:270-277 | the rating does not decrease with a higher speed or a later production year |
| Rating.RatingUsedNotAbove | space/src/main/java/com/space/service/ShipService.java:272 | a used ship never rates above the same ship unused |
| Rating.RatingBeforeRoundingDiffers | space/src/main/java/com/space/service/ShipService.java:172-173 | rating the speed before rounding, as create does, can differ from rating the rounded speed: 0.125 in year 3019 gives 10.0, while 0.13 gives 10.4 |
| Service.ShipService.constructor | space/src/main/java/com/space/service/ShipService.java:25-27 | a service wraps a repository that already holds any store meeting the invariant; it starts with exactly that store and next id |
| Service.FindById | space/src/main/java/com/space/service/ShipService.java:180 | the lookup is empty exactly when no stored ship has the id; otherwise it is a stored ship with that id |
| Service.FindByIdAt | space/src/main/java/com/space/service/ShipService.java:180-183 | with unique ids, the lookup of a stored ship's id returns that ship |
| Service.ShipService.GetShipById | space/src/main/java/com/space/service/ShipService.java:178-186 | NOT_FOUND with no body when no ship has the id, otherwise OK with the stored ship of that id |
| Service.ShipService.CreateShip | space/src/main/java/com/space/service/ShipService.java:149-176 | BAD_REQUEST with the store untouched if and only if a check fails. Otherwise OK with the saved ship under the next id: absent used flag stored as false, rating from the unrounded speed, speed rounded, appended to the store, found by its id, and the invariant kept |
| Service.FindAfterAppend | space/src/main/java/com/space/service/ShipService.java:174 | after saving a ship under a fresh id, looking that id up finds it, and every other lookup is unchanged |
| Service.AppendKeepsStore | space/src/main/java/com/space/service/ShipService.java:174 | saving a valid new ship under the next id keeps the store invariant |
| Service.ShipService.DeleteShipById | space/src/main/java/com/space/service/ShipService.java:188-196 | NOT_FOUND and the store unchanged for an absent id. Otherwise OK, exactly that record removed (one fewer, the others in order), the id no longer found, and the invariant kept |
| Service.DeleteRemovesOne | space/src/main/java/com/space/service/ShipService.java:193 | deleting a present id from a store with unique ids removes one record: no ship keeps that id, every other ship stays, and none is added |
| Service.WithoutIdUnique | space/src/main/java/com/space/service/ShipService.java:193 | deleting keeps ids unique |
| Service.FindAfterDelete | space/src/main/java/com/space/service/ShipService.java:193 | after a delete the deleted id is not found, and every other id finds what it found before |
| Service.DeleteKeepsStore | space/src/main/java/com/space/service/ShipService.java:193 | deleting keeps the store invariant |
| Service.Overlay | space/src/main/java/com/space/service/ShipService.java:222-258 | the field merge keeps the stored id, and an omitted used flag becomes false |
| Service.Merge | space/src/main/java/com/space/service/ShipService.java:222-260 | the merged ship keeps the id, is valid when the stored ship was, and carries the rating of its own speed, used flag and year; an omitted used flag becomes false |
| Service.ShipService.PatchShip | space/src/main/java/com/space/service/ShipService.java:222-259 | the field-by-field merge rejects if and only if a supplied name, planet, date, speed or crew size fails its check; otherwise it is the merge of payload onto stored ship |
| Service.ShipService.UpdateShip | space/src/main/java/com/space/service/ShipService.java:198-263 | outcomes in source order. An empty payload on a stored id returns the ship unchanged. An absent id gives NOT_FOUND. A null payload or a failing field gives BAD_REQUEST. None of these change the store. Otherwise OK with the merged, re-rated ship, which replaces that id's record only and is then what the id finds; the invariant is kept |
| Service.FindAfterReplace | space/src/main/java/com/space/service/ShipService.java:261 | after a record is replaced, its id finds the new ship, and every other id finds what it found before |
| Service.ReplaceKeepsStore | space/src/main/java/com/space/service/ShipService.java:261 | replacing a stored record by a valid ship with the same id keeps every id in place and keeps the invariant |

## Left out

- HTTP and Spring plumbing:
  - `ResponseEntity` and `HttpStatus` become the `Response` datatype, with statuses `Ok`, `BadRequest` and `NotFound`.
  - Dependency injection and `@Transactional` are not modelled; each operation is one sequential step on the store.
- The controller `space/src/main/java/com/space/controller/ShipRestController.java` is not part of this model. That includes its `id > 0` check. Here a non-positive id is simply not found.
- Repository semantics:
  - The store changes only through `save` and `deleteById`.
  - In the source, `updateShip` runs setters on the managed entity, and a later field can still fail. With JPA dirty checking, the earlier setters could then reach the database. The model does not capture such partial writes: a rejected update leaves the store unchanged.
  - `getOne` proxies are modelled as the stored value.
- `getProdDateYear`: the time-zone conversion is the `yearOf` parameter.
- Floating point:
  - Speeds and ratings are exact reals.
  - `Math.round` is `floor(x + 0.5)`, so IEEE double artefacts of `0.01d`, `0.99d` and the rounding are not modelled.
- Paging arguments are natural numbers. A negative page number or size, which makes `skip`/`limit` throw, and the `int` overflow of `pageNumber * pageSize` are not modelled.
- Create payload id and rating: the payload carries neither. The source overwrites the rating, but it passes any id the caller supplied on to `save`, which then merges onto the stored record with that id. That case is not modelled: the model's payload has no id, and create always saves under the next id.
- Unshown types:
  - `ShipType` has three stand-in values.
  - `ShipOrder` has one constructor per sort key: id, speed, production date and rating.
  - The entity and repository classes are not part of this model.
- Service.ShipService.GetShipsList: each guarded step is the function `Narrow` applied to the list, not an `if` statement around a reassignment.
- Service.ShipService.PatchShip: tests each supplied field's check as one condition in front of the copy, instead of nesting the check under the presence test. The outcome is the same.
- Strings: text is a sequence of Unicode scalar values, so a Java string holding an unpaired surrogate has no counterpart. For such well-formed text, `contains` on code units and on characters agree.
