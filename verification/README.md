# Time-manager task listing, modelled in Dafny

This project models the read path of the time-manager application. The
path is `GET /api/users/{id}/tasks`, which lists one user's time entries
(tasks), filtered and paged, with their money amounts.

- **`UserTasksController.listUserTasks`** checks the request in a fixed
  order. The first failing check decides the answer:
  1. the route id must be positive (400);
  2. the user must exist (404);
  3. `project_id` must be digits and greater than zero (400);
  4. `from`, then `to`, must be `YYYY-MM-DD` dates the date library accepts (400);
  5. `from` must not be after `to` (400).

  It then runs the search and builds the envelope:
  - `user`;
  - `meta`: the clamped page, the applied limit, the total, `total_pages =
    ceil(total / limit)`, and the echo of the applied filters;
  - `items`.
- **`TaskRepository.searchUserTasks`** clamps the page to at least 1 and the
  limit to 1..100. It keeps the user's tasks inside the inclusive date bounds
  and on the optional project, and orders them by `date DESC, id DESC`. It
  returns the window at offset `(page-1)*limit`, normalised into items, with
  the count of all matching rows.

Modules, one file each:

- `Wrappers`: `Option` and `Result`.
- `Dates`: calendar days; the `YYYY-MM-DD` shape check; the `Y-m-d`
  rendering and its round trips.
- `Entities`: the `Task`, `RateAssignment` and `Store` records. Also the
  schema invariants: task ids are distinct, and every task's project exists.
- `Ordering`: the listing order and a sort that realises it.
- `Pagination`: the clamps, the offset window, the page count, and how
  consecutive pages fit together.
- `TaskRepository`: the search.
- `UserTasksController`: the handler.
- `Scenarios`: concrete requests, checked against the model.

The database, the user lookup and PHP's `DateTimeImmutable` are inputs:
- the task and project tables form a `Store`;
- users are a map from id to name;
- the date library is a function `Date -> Option<Date>`. `None` means the
  constructor throws. `Some(d)` is the day it settles on, which may be a
  rolled-over one.

Money columns are integers counting cents.

## Model

| member | source | states |
|---|---|---|
| Dates.ParseDateShape | src/Controller/Api/UserTasksController.php:83-88 | a date value is read exactly when it satisfies `IsDateShape`, the regex `^\d{4}-\d{2}-\d{2}$`: four digits, dash, two digits, dash, two digits; the fields read are bounded by their widths |
| Dates.PadDigits | src/Repository/TaskRepository.php:99 | the zero-padded rendering is all digits, denotes the number, and is exactly `width` long whenever the number fits |
| Dates.PadDigitsOfValue | src/Controller/Api/UserTasksController.php:147-148 | re-rendering a digit string at its own width gives back the same string, leading zeros included |
| Dates.FormatDate | src/Repository/TaskRepository.php:99 | `Y-m-d` of a four-digit year with two-digit month and day has the `YYYY-MM-DD` shape |
| Dates.FormatThenParse | src/Repository/TaskRepository.php:99 | an item's rendered date reads back as the task's own day |
| Dates.ParseThenFormat | src/Controller/Api/UserTasksController.php:147-148 | any well-shaped string is exactly the rendering of the day it denotes |
| Dates.NotBeforeIsAtOrBefore | src/Controller/Api/UserTasksController.php:106 | "from is not later than to" is the same as "from is at or before to" |
| Dates.BeforeIsStrictTotalOrder | src/Repository/TaskRepository.php:73 | the order on DATE values is irreflexive, asymmetric, transitive and total |
| Ordering.NotPrecedesTransitive | src/Repository/TaskRepository.php:73-74 | "not listed after" is transitive under `date DESC, id DESC` |
| Ordering.PrecedesTotalOnDistinctIds | src/Repository/TaskRepository.php:73-74 | of two tasks with different ids, exactly one is listed first |
| Ordering.Insert | src/Repository/TaskRepository.php:73-74 | inserting a task into a listing adds exactly that task, with every other row kept as often as before |
| Ordering.InsertKeepsOrder | src/Repository/TaskRepository.php:73-74 | inserting a task into a listing in `date DESC, id DESC` order leaves it in that order |
| Ordering.Sort | src/Repository/TaskRepository.php:72-74 | the result is a permutation of its input: every row, as often as it occurs |
| Ordering.SortIsOrdered | src/Repository/TaskRepository.php:72-74 | the result is ordered by date descending, then id descending |
| Ordering.InsertKeepsIdsDistinct | src/Repository/TaskRepository.php:72-74 | inserting a task with a fresh id keeps the ids distinct |
| Ordering.SortKeepsIdsDistinct | src/Repository/TaskRepository.php:72-74 | sorting rows with distinct ids keeps them distinct |
| Ordering.OrderedDistinctIsStrict | src/Repository/TaskRepository.php:72-74 | with distinct ids, every earlier row is strictly before every later one |
| Ordering.OrderedArrangementUnique | src/Repository/TaskRepository.php:72-74 | the id tie-break makes the order stable: only one ordered arrangement of a set of rows exists |
| Ordering.SortIgnoresStorageOrder | src/Repository/TaskRepository.php:72-74 | the listing does not depend on the order rows are stored in |
| Pagination.ClampPage | src/Repository/TaskRepository.php:40 | the page used is at least 1; a valid page is kept; zero or negative becomes 1 |
| Pagination.ClampLimit | src/Repository/TaskRepository.php:41 | the limit used is within 1..100; a valid limit is kept; below 1 becomes 1, above 100 becomes 100 |
| Pagination.SafeLimit | src/Controller/Api/UserTasksController.php:132 | the limit reported in `meta` equals the limit the repository applies |
| Pagination.ClampsIdempotent | src/Controller/Api/UserTasksController.php:123-124 | the repository re-clamping the controller's clamped values changes nothing |
| Pagination.OffsetStep | src/Repository/TaskRepository.php:77 | `Offset` is `(page-1)*limit` rows skipped; each page starts where the previous one ends |
| Pagination.Window | src/Repository/TaskRepository.php:80-81 | the window has `min(limit, rows left)` elements, and element i is the row at offset + i |
| Pagination.WindowExtendsPrefix | src/Repository/TaskRepository.php:77-81 | the rows before an offset, followed by the window there, are the rows before offset + limit |
| Pagination.CeilDiv | src/Controller/Api/UserTasksController.php:133 | the page count is 0 for no rows; otherwise it is the fewest pages of `limit` rows that hold all of them |
| Pagination.FirstPagesArePrefix | src/Repository/TaskRepository.php:77-81 | pages 1..k laid end to end are exactly the first `k*limit` rows |
| Pagination.AllPagesYieldEverything | src/Repository/TaskRepository.php:77-81 | pages 1..ceil(n/limit) laid end to end are the whole sequence |
| Pagination.PagesBeyondTheEnd | src/Repository/TaskRepository.php:77-81 | a page past the last is empty; the last page holds the remainder |
| TaskRepository.Filter | src/Repository/TaskRepository.php:50-70 | each stored row is kept (as often as stored) exactly when it satisfies `Matches`, the WHERE clause: the owner, `from <= date`, `date <= to` (both inclusive, each only when given), and the project when given |
| TaskRepository.FilterKeepsIdsDistinct | src/Repository/TaskRepository.php:50-70 | filtering rows with distinct ids keeps them distinct |
| TaskRepository.MatchingRows | src/Repository/TaskRepository.php:44-74 | a task is among the matching rows exactly when it is stored and satisfies every filter: soundness and completeness of the WHERE clause |
| TaskRepository.MatchingRowsMultiplicity | src/Repository/TaskRepository.php:44-74 | the query neither duplicates nor drops rows: each matching task appears as often as it is stored, any other task not at all |
| TaskRepository.MatchingRowsInListingOrder | src/Repository/TaskRepository.php:72-74 | the matching rows are in listing order; with distinct ids they are strictly descending and no task repeats |
| TaskRepository.ToItem | src/Repository/TaskRepository.php:96-110 | the projection (`ItemOf`) gives an item carrying the task's id, title, duration, and stored rate and amount unchanged, plus its project's id and name; its date string reads back as the task's day |
| TaskRepository.ToItems | src/Repository/TaskRepository.php:89-113 | one item per row, in row order |
| TaskRepository.SearchUserTasks | src/Repository/TaskRepository.php:31-119 | `total` counts every matching row, whatever the window; the page holds `min(limit, total - offset)` items (none past the end), with page and limit clamped first |
| TaskRepository.PageItemsAreMatchingRows | src/Repository/TaskRepository.php:76-111 | item i of a page is the matching row at offset `(page-1)*limit + i`, in listing order, normalised |
| TaskRepository.PageRowsPassFilters | src/Repository/TaskRepository.php:49-70 | every row behind a page is a stored task of the user, inside the date bounds and on the requested project |
| TaskRepository.SearchIsSound | src/Repository/TaskRepository.php:50-70 | every item comes from a stored task of the user, inside both date bounds (inclusive) and on the requested project |
| TaskRepository.WindowKeepsStrict | src/Repository/TaskRepository.php:77-81 | any window of a strictly descending listing is strictly descending |
| TaskRepository.PageRowsStrictlyDescending | src/Repository/TaskRepository.php:72-81 | a page's rows are in strictly descending (date, id) order, and its items are those rows in that order |
| TaskRepository.TotalIgnoresWindow | src/Repository/TaskRepository.php:84-87 | `total` is the same for every page and limit of one search |
| TaskRepository.SearchIgnoresRates | src/Repository/TaskRepository.php:96-108 | items copy the stored rate, amount and duration; changing the rate assignments changes no result |
| TaskRepository.PagePastTheEnd | src/Repository/TaskRepository.php:77-87 | a page beyond the last gives no items but still the full total |
| TaskRepository.Listing | src/Repository/TaskRepository.php:89-113 | the full listing has one item per matching row, in listing order |
| TaskRepository.ToItemsWindow | src/Repository/TaskRepository.php:80-113 | normalising a window of rows equals that window of the normalised rows |
| TaskRepository.PageIsWindowOfListing | src/Repository/TaskRepository.php:77-81 | page p is the window of the full listing at offset `(p-1)*limit` |
| TaskRepository.PagesUpToStep | src/Repository/TaskRepository.php:77-81 | reading page k extends pages 1..k-1 by the next window of the listing |
| TaskRepository.PagesUpToAreListingPages | src/Repository/TaskRepository.php:77-81 | the items of pages 1..k of a search are pages 1..k of the full listing |
| TaskRepository.PagesReassemble | src/Repository/TaskRepository.php:72-81 | walking pages 1..total_pages yields every matching item exactly once, in listing order |
| TaskRepository.PagesHaveNoDuplicates | src/Repository/TaskRepository.php:72-81 | no task id appears twice across the pages of one search |
| UserTasksController.StatusCode | src/Controller/Api/UserTasksController.php:32-115 | an unknown user is the only 404; every other rejection is 400. Each error carries its `Message` text, as at lines 35, 45, 61, 68, 86, 95 and 108 |
| UserTasksController.ValidateProjectId | src/Controller/Api/UserTasksController.php:55-72 | absent or empty means no filter; otherwise: non-digits are rejected as such, zero is rejected as not positive, and any other digit string is the filter, with its decimal value |
| UserTasksController.ProjectIdAcceptsDecimal | src/Controller/Api/UserTasksController.php:58-65 | every positive id, written with or without leading zeros, is accepted as itself |
| UserTasksController.ParseDate | src/Controller/Api/UserTasksController.php:79-98 | absent or empty means no bound; a value is rejected as malformed exactly when it lacks the shape; a well-shaped value the date library rejects is "not a real date" for that field, and one it accepts becomes the bound as the library gives it |
| UserTasksController.DateEchoRepeatsInput | src/Controller/Api/UserTasksController.php:147-148 | when the library keeps the day, the echoed filter (`FormatOptionalDate`, `Y-m-d` or null) is the client's own string |
| UserTasksController.ValidateFilters | src/Controller/Api/UserTasksController.php:55-115 | accepted filters passed each individual check, and `from` is at or before `to` |
| UserTasksController.AppliedDefaults | src/Controller/Api/UserTasksController.php:52-53 | `PageParam` and `LimitParam` read the cast parameters with defaults 1 and 20: an absent limit serves 20 rows; a non-numeric one (cast to 0) serves 1; an absent or non-numeric page serves page 1 |
| UserTasksController.Envelope | src/Controller/Api/UserTasksController.php:127-153 | the 200 body names the user; meta page is at least 1, limit is in 1..100 and equals the applied limit, total counts every match, total_pages is the fewest pages holding them, and the filters echo the validated values; items are the search's page at that page and limit |
| UserTasksController.ListUserTasks | src/Controller/Api/UserTasksController.php:28-157 | a non-positive id gives 400; an unknown user gives 404; a filter error is reported as is; the answer is 200 exactly when id, user and filters pass; on success: page ≥ 1, limit in 1..100, total counts all matches, total_pages = ceil(total/limit), the filters are echoed, and the items are the search's page |
| UserTasksController.FirstFailureWins | src/Controller/Api/UserTasksController.php:30-115 | the request fails iff some check rejects it; the reported error is the earliest rejecting check's error, and every earlier check passed |
| UserTasksController.UnknownUserBeatsBadFilters | src/Controller/Api/UserTasksController.php:40-48 | an unknown user gets 404 whatever the query string holds |
| UserTasksController.ProjectIdBeatsDates | src/Controller/Api/UserTasksController.php:56-103 | a bad `project_id` is reported even when the dates are bad too |
| UserTasksController.EqualBoundsAccepted | src/Controller/Api/UserTasksController.php:105-111 | `from == to` passes |
| UserTasksController.OnlyLaterFromRejected | src/Controller/Api/UserTasksController.php:105-111 | once every other check passes, the request is rejected with the from-after-to error exactly when both bounds are given and `from` is strictly later than `to`, and answered 200 otherwise |
| Scenarios.TwoTasksFiltered | src/Repository/TaskRepository.php:49-70 | two entries of one user both pass a filter on that user alone, in storage order |
| Scenarios.TwoTasksSorted | src/Repository/TaskRepository.php:72-74 | of two entries on consecutive days the later day is listed first |
| Scenarios.TwoTasksListing | src/Repository/TaskRepository.php:50-74 | two entries of one user on consecutive days list the later day first |
| Scenarios.BoundDatesIncluded | src/Repository/TaskRepository.php:53-64 | a task dated exactly `from` and one dated exactly `to` are both listed: the bounds are `>=` and `<=` |
| Scenarios.FirstPageOfTwo | src/Repository/TaskRepository.php:77-108 | at one row per page, page 1 is the later entry with its stored amount 25.00, and total is 2 |
| Scenarios.SecondPageOfTwo | src/Repository/TaskRepository.php:77-108 | at one row per page, page 2 is the earlier entry with its stored amount 37.50, and total is 2 |
| Scenarios.PageFiftyOfFive | src/Controller/Api/UserTasksController.php:123-145 | for a known user with valid filters, page 50 at limit 10 with 5 matches answers 200: no items, total 5, total_pages 1, page 50 echoed |

## Left out

- The database, Doctrine's query builder and `Paginator` are left out. The search is a pure function of a `Store` snapshot.
- A database failure (an exception from the COUNT or the page fetch, ending in a 5xx response) has no path in the model: there is no 5xx error.
- The page query and its separate COUNT query are taken as reading the same snapshot. Concurrent writes between them are not modelled.
- The JOIN to `project` is modelled as a lookup in the project map. `ValidStore` requires every task's project to exist and task ids to be distinct; the schema's foreign key and primary key guarantee both.
- The stored `DATE` is compared with the `Y-m-d` string of each bound. This is modelled as a comparison of days.
- `number_format` and the float cast of `applied_rate` and `amount` are not modelled. Money is an integer count of cents, copied from the row unchanged, so two-decimal rounding is the identity.
- How amounts are computed when a task is created is out of scope; this path only reads them. The same goes for the rate lookup and the fixtures.
- PHP's `DateTimeImmutable` is not modelled; it is the `DateLibrary` parameter. In particular the model does not claim that an impossible day such as `2025-02-30` is rejected. PHP's constructor may roll it over to a later real day. The comment at src/Controller/Api/UserTasksController.php:93 expects a rejection. The model covers both behaviours.
- Time of day and time zones are not modelled. Parsed bounds are whole days.
- UserTasksController.ParseDate: PHP's `$` also matches before a trailing newline. The shape check here requires exactly ten characters, so a value like `"2025-01-10\n"` is not modelled as accepted.
- `page` and `limit` enter the model after PHP's `(int)` cast:
  - `None` means absent;
  - a non-numeric string is `Some(0)`;
  - leading-digit strings such as `"5abc"` are assumed cast by the caller.
  - The cast itself is not modelled.
- Integers are unbounded. Overflow is not modelled for:
  - the 64-bit `(int)` cast of a very long `project_id`;
  - `(page-1)*limit` for enormous pages;
  - the float division inside `ceil`.
- Pagination.CeilDiv: computed exactly on integers. PHP divides as a float, and the model does not claim the two agree for totals beyond 2^53.
- A non-integer `{id}` never reaches the handler's checks and is not modelled: the route puts no requirement on it, and it fails when the framework converts it for `int $id`. JSON serialisation and HTTP plumbing are left out too.
- `UserRepository::find` is not modelled; users are a map from id to name.
- The web page (`WebTasksController`, `public/js/tasks.js`) and `PingController` are other readers of this endpoint or unrelated, and are not modelled.
- The migrations and entity mappings only give the records their shape. The migration file lacks the task `date` column; the field follows src/Entity/Task.php.
