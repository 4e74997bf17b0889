/**
  `TaskRepository::searchUserTasks`: the filtered, ordered, windowed query
  over a user's tasks, together with the count of every matching row and the
  projection of each row into a response item.
 */
module TaskRepository {
  import opened Wrappers
  import opened Dates
  import opened Entities
  import opened Ordering
  import opened Pagination

  /** The filters of one search: the owner is mandatory, the rest optional. */
  datatype Criteria = Criteria(
    userId: int,
    from: Option<Date>,
    to: Option<Date>,
    projectId: Option<int>)

  /** One element of the response's `items` array. `appliedRate` and `amount`
      are the task's stored cents. */
  datatype Item = Item(
    taskId: int,
    taskTitle: string,
    date: string,
    projectId: int,
    projectName: string,
    durationMinutes: int,
    appliedRate: int,
    amount: int)

  /** The page of items and the number of rows matching the filters. */
  datatype SearchResult = SearchResult(items: seq<Item>, total: nat)

  /** The WHERE clause: the owner, inclusive date bounds, optional project. */
  predicate Matches(t: Task, c: Criteria) {
    && t.userId == c.userId
    && (c.from.Some? ==> AtOrBefore(c.from.value, t.date))
    && (c.to.Some? ==> AtOrBefore(t.date, c.to.value))
    && (c.projectId.Some? ==> t.projectId == c.projectId.value)
  }

  /** The rows satisfying the WHERE clause, each as often as it is stored. */
  function Filter(tasks: seq<Task>, c: Criteria): (r: seq<Task>)
    ensures forall t :: multiset(r)[t] == if Matches(t, c) then multiset(tasks)[t] else 0
    ensures |r| <= |tasks|
  {
    if |tasks| == 0 then
      []
    else
      var rest := Filter(tasks[1..], c);
      assert tasks == [tasks[0]] + tasks[1..];
      if Matches(tasks[0], c) then [tasks[0]] + rest else rest
  }

  /** Filtering rows with distinct ids keeps them distinct. */
  lemma {:induction false} FilterKeepsIdsDistinct(tasks: seq<Task>, c: Criteria)
    ensures IdsDistinct(tasks) ==> IdsDistinct(Filter(tasks, c))
    decreases |tasks|
  {
    if |tasks| > 0 && IdsDistinct(tasks) {
      var rest := Filter(tasks[1..], c);
      TailKeepsIdsDistinct(tasks);
      FilterKeepsIdsDistinct(tasks[1..], c);
      if Matches(tasks[0], c) {
        forall x | x in rest ensures x.id != tasks[0].id {
          assert multiset(rest)[x] > 0;
          var k :| 0 <= k < |tasks[1..]| && tasks[1..][k] == x;
          assert tasks[k + 1] == x;
        }
        ConsKeepsIdsDistinct(tasks[0], rest);
      }
    }
  }

  /** Every row matching the filters, in listing order (`date DESC, id DESC`):
      the query before OFFSET/LIMIT. */
  function MatchingRows(store: Store, c: Criteria): (rows: seq<Task>)
    ensures forall t :: t in rows <==> t in store.tasks && Matches(t, c)
  {
    var rows := Sort(Filter(store.tasks, c));
    assert forall t :: multiset(rows)[t] == if Matches(t, c) then multiset(store.tasks)[t] else 0;
    assert forall t :: t in rows <==> t in multiset(rows);
    assert forall t :: t in store.tasks <==> t in multiset(store.tasks);
    rows
  }

  /** Each matching task appears as often as it is stored; no other task
      appears at all. */
  lemma MatchingRowsMultiplicity(store: Store, c: Criteria)
    ensures forall t ::
      multiset(MatchingRows(store, c))[t] == (if Matches(t, c) then multiset(store.tasks)[t] else 0)
  {
  }

  /** The matching rows are in listing order; with the primary key distinct,
      strictly so, and no task appears twice. */
  lemma MatchingRowsInListingOrder(store: Store, c: Criteria)
    ensures Ordered(MatchingRows(store, c))
    ensures IdsDistinct(store.tasks) ==>
      IdsDistinct(MatchingRows(store, c)) && StrictlyDescending(MatchingRows(store, c))
  {
    var filtered := Filter(store.tasks, c);
    SortIsOrdered(filtered);
    FilterKeepsIdsDistinct(store.tasks, c);
    if IdsDistinct(store.tasks) {
      SortKeepsIdsDistinct(filtered);
      OrderedDistinctIsStrict(Sort(filtered));
    }
  }

  /** The rows of one page: the matching rows after skipping `(page-1)*limit`,
      at most `limit` of them, with page and limit clamped first. */
  function PageRows(store: Store, c: Criteria, page: int, limit: int): seq<Task> {
    PageWindow(MatchingRows(store, c), ClampPage(page), ClampLimit(limit))
  }

  /** The normalisation of one row into an item: the task's own fields and
      its project's id and name. */
  function ToItem(t: Task, projects: map<int, string>): (item: Item)
    requires t.projectId in projects
    ensures item.taskId == t.id && item.taskTitle == t.title
    ensures item.projectId == t.projectId && item.projectName == projects[t.projectId]
    ensures item.durationMinutes == t.durationMinutes
    ensures item.appliedRate == t.appliedRate && item.amount == t.amount
    ensures 0 <= t.date.year < 10000 && t.date.month < 100 && t.date.day < 100 ==>
      ParseDateShape(item.date) == Some(t.date)
  {
    RenderedDateReadsBack(t.date);
    ItemOf(t, projects)
  }

  function ItemOf(t: Task, projects: map<int, string>): Item
    requires t.projectId in projects
  {
    Item(
      t.id, t.title, FormatDate(t.date), t.projectId, projects[t.projectId],
      t.durationMinutes, t.appliedRate, t.amount)
  }

  /** The rows normalised one by one, in the same order. */
  function ToItems(rows: seq<Task>, projects: map<int, string>): (items: seq<Item>)
    requires forall t :: t in rows ==> t.projectId in projects
    ensures |items| == |rows|
    ensures forall i :: 0 <= i < |rows| ==> items[i] == ToItem(rows[i], projects)
  {
    if |rows| == 0 then [] else [ToItem(rows[0], projects)] + ToItems(rows[1..], projects)
  }

  /** `searchUserTasks`: one page of items and the count of all matching
      rows. `total` ignores the window; the page holds as many items as
      there are matching rows left after offset `(page-1)*limit`, at most
      `limit` of them. Which rows those are is `PageItemsAreMatchingRows`
      and `PageRowsPassFilters`. */
  function SearchUserTasks(store: Store, c: Criteria, page: int, limit: int): (r: SearchResult)
    requires ValidStore(store)
    ensures r.total == |MatchingRows(store, c)|
    ensures |r.items| ==
      Min(ClampLimit(limit), Max(0, r.total - Offset(ClampPage(page), ClampLimit(limit))))
  {
    var rows := MatchingRows(store, c);
    var p, l := ClampPage(page), ClampLimit(limit);
    assert forall t :: t in rows ==> t in store.tasks;
    SearchResult(ToItems(PageWindow(rows, p, l), store.projects), |rows|)
  }

  /** Item i of the normalised window at `offset` is row `offset + i`. */
  lemma ItemsOfWindow(rows: seq<Task>, projects: map<int, string>, offset: nat, limit: nat)
    requires forall t :: t in rows ==> t.projectId in projects
    ensures var items := ToItems(Window(rows, offset, limit), projects);
      forall i :: 0 <= i < |items| ==>
        offset + i < |rows| && rows[offset + i] in rows && items[i] == ToItem(rows[offset + i], projects)
  {
  }

  /** Item i of a page is the matching row at offset `(page-1)*limit + i`,
      in listing order, normalised. */
  lemma PageItemsAreMatchingRows(store: Store, c: Criteria, page: int, limit: int)
    requires ValidStore(store)
    ensures var items := SearchUserTasks(store, c, page, limit).items;
      var offset := Offset(ClampPage(page), ClampLimit(limit));
      forall i :: 0 <= i < |items| ==>
        offset + i < |MatchingRows(store, c)| && items[i] == ToItem(MatchingRows(store, c)[offset + i], store.projects)
  {
    var rows := MatchingRows(store, c);
    assert forall t :: t in rows ==> t in store.tasks;
    ItemsOfWindow(rows, store.projects, Offset(ClampPage(page), ClampLimit(limit)), ClampLimit(limit));
  }

  /** The rows behind a page, at offsets `(page-1)*limit` onwards, are
      stored tasks that pass every filter. */
  lemma PageRowsPassFilters(store: Store, c: Criteria, page: int, limit: int)
    requires ValidStore(store)
    ensures var items := SearchUserTasks(store, c, page, limit).items;
      var offset := Offset(ClampPage(page), ClampLimit(limit));
      forall k :: offset <= k < offset + |items| ==>
        k < |MatchingRows(store, c)| && MatchingRows(store, c)[k] in store.tasks && Matches(MatchingRows(store, c)[k], c)
  {
  }

  // ---------------------------------------------------------------------------
  // Properties of the search

  /** Soundness: every item comes from a stored task of the requested user,
      inside the inclusive date bounds and on the requested project. */
  lemma SearchIsSound(store: Store, c: Criteria, page: int, limit: int, item: Item)
    requires ValidStore(store)
    ensures item in SearchUserTasks(store, c, page, limit).items ==> exists t ::
      && t in store.tasks
      && item == ToItem(t, store.projects)
      && t.userId == c.userId
      && (c.from.Some? ==> AtOrBefore(c.from.value, t.date))
      && (c.to.Some? ==> AtOrBefore(t.date, c.to.value))
      && (c.projectId.Some? ==> t.projectId == c.projectId.value)
  {
    var items := SearchUserTasks(store, c, page, limit).items;
    PageItemsAreMatchingRows(store, c, page, limit);
    PageRowsPassFilters(store, c, page, limit);
    if item in items {
      var i :| 0 <= i < |items| && items[i] == item;
      var t := MatchingRows(store, c)[Offset(ClampPage(page), ClampLimit(limit)) + i];
      assert t in store.tasks && Matches(t, c);
    }
  }

  lemma WindowKeepsStrict(rows: seq<Task>, offset: nat, limit: nat)
    requires StrictlyDescending(rows)
    ensures StrictlyDescending(Window(rows, offset, limit))
  {
    var w := Window(rows, offset, limit);
    forall i | 0 <= i < |w| - 1 ensures Precedes(w[i], w[i + 1]) {
      assert w[i] == rows[offset + i] && w[i + 1] == rows[offset + i + 1];
    }
  }

  /** The rows behind a page are in strictly descending (date, id) order,
      and the page's items are those rows normalised in the same order. */
  lemma PageRowsStrictlyDescending(store: Store, c: Criteria, page: int, limit: int)
    requires ValidStore(store)
    ensures StrictlyDescending(PageRows(store, c, page, limit))
    ensures SearchUserTasks(store, c, page, limit).items == ToItems(PageRows(store, c, page, limit), store.projects)
  {
    var rows := MatchingRows(store, c);
    MatchingRowsInListingOrder(store, c);
    WindowKeepsStrict(rows, Offset(ClampPage(page), ClampLimit(limit)), ClampLimit(limit));
  }

  /** `total` depends only on the filters, never on the page or the limit. */
  lemma TotalIgnoresWindow(store: Store, c: Criteria, page1: int, limit1: int, page2: int, limit2: int)
    requires ValidStore(store)
    ensures SearchUserTasks(store, c, page1, limit1).total == SearchUserTasks(store, c, page2, limit2).total
  {
  }

  /** Items copy the stored rate and amount; the rate assignments are never
      consulted, so editing them cannot change any listed amount. */
  lemma SearchIgnoresRates(store: Store, rates: seq<RateAssignment>, c: Criteria, page: int, limit: int)
    requires ValidStore(store)
    ensures ValidStore(store.(rates := rates))
    ensures SearchUserTasks(store.(rates := rates), c, page, limit) == SearchUserTasks(store, c, page, limit)
    ensures forall i :: 0 <= i < |SearchUserTasks(store, c, page, limit).items| ==>
      var item := SearchUserTasks(store, c, page, limit).items[i];
      exists t :: t in store.tasks && t.id == item.taskId
        && item.appliedRate == t.appliedRate && item.amount == t.amount
        && item.durationMinutes == t.durationMinutes
  {
    PageItemsAreMatchingRows(store, c, page, limit);
    PageRowsPassFilters(store, c, page, limit);
    forall i | 0 <= i < |SearchUserTasks(store, c, page, limit).items|
      ensures var item := SearchUserTasks(store, c, page, limit).items[i];
        exists t :: t in store.tasks && t.id == item.taskId
          && item.appliedRate == t.appliedRate && item.amount == t.amount
          && item.durationMinutes == t.durationMinutes
    {
      var t := MatchingRows(store, c)[Offset(ClampPage(page), ClampLimit(limit)) + i];
      assert t in store.tasks;
    }
  }

  /** A page past the last one is empty, and `total` is still reported. */
  lemma PagePastTheEnd(store: Store, c: Criteria, page: int, limit: int)
    requires ValidStore(store)
    ensures page > CeilDiv(|MatchingRows(store, c)|, ClampLimit(limit)) ==>
      SearchUserTasks(store, c, page, limit).items == []
    ensures SearchUserTasks(store, c, page, limit).total == |MatchingRows(store, c)|
  {
    PagesBeyondTheEnd(MatchingRows(store, c), ClampPage(page), ClampLimit(limit));
  }

  /** Pages 1..k of one search, laid end to end. */
  function PagesUpTo(store: Store, c: Criteria, limit: int, k: nat): seq<Item>
    requires ValidStore(store)
  {
    if k == 0 then [] else PagesUpTo(store, c, limit, k - 1) + SearchUserTasks(store, c, k, limit).items
  }

  /** The full listing: every matching row normalised, in listing order. */
  function Listing(store: Store, c: Criteria): (all: seq<Item>)
    requires ValidStore(store)
    ensures |all| == |MatchingRows(store, c)|
    ensures forall i :: 0 <= i < |all| ==> all[i] == ToItem(MatchingRows(store, c)[i], store.projects)
  {
    var rows := MatchingRows(store, c);
    assert forall t :: t in rows ==> t in store.tasks;
    ToItems(rows, store.projects)
  }

  /** Normalising a window of rows is the same window of the normalised rows. */
  lemma ToItemsWindow(rows: seq<Task>, projects: map<int, string>, offset: nat, limit: nat)
    requires forall t :: t in rows ==> t.projectId in projects
    ensures ToItems(Window(rows, offset, limit), projects) == Window(ToItems(rows, projects), offset, limit)
  {
    var a := ToItems(Window(rows, offset, limit), projects);
    var b := Window(ToItems(rows, projects), offset, limit);
    assert |a| == |b|;
    forall i | 0 <= i < |a| ensures a[i] == b[i] {
      assert a[i] == ToItem(rows[offset + i], projects);
    }
  }

  /** Page `page` is the window of the full listing that starts at offset
      `(page-1)*limit`. */
  lemma PageIsWindowOfListing(store: Store, c: Criteria, page: int, limit: int)
    requires ValidStore(store) && page >= 1
    ensures SearchUserTasks(store, c, page, limit).items ==
      Window(Listing(store, c), Offset(page, ClampLimit(limit)), ClampLimit(limit))
  {
    var rows := MatchingRows(store, c);
    assert forall t :: t in rows ==> t in store.tasks;
    ToItemsWindow(rows, store.projects, Offset(page, ClampLimit(limit)), ClampLimit(limit));
  }

  /** Page k appends the window at offset `(k-1)*limit` of the listing. */
  lemma PagesUpToStep(store: Store, c: Criteria, limit: int, k: nat)
    requires ValidStore(store) && k > 0
    ensures PagesUpTo(store, c, limit, k) ==
      PagesUpTo(store, c, limit, k - 1) + Window(Listing(store, c), Offset(k, ClampLimit(limit)), ClampLimit(limit))
  {
    PageIsWindowOfListing(store, c, k, limit);
  }

  /** Pages 1..k of the search are pages 1..k of the full listing. */
  lemma {:induction false} PagesUpToAreListingPages(store: Store, c: Criteria, limit: int, k: nat)
    requires ValidStore(store)
    ensures PagesUpTo(store, c, limit, k) == FirstPages(Listing(store, c), ClampLimit(limit), k)
  {
    if k > 0 {
      PagesUpToStep(store, c, limit, k);
      PagesUpToAreListingPages(store, c, limit, k - 1);
    }
  }

  /** Page stability: walking pages 1..ceil(total/limit) of one search
      yields every matching row exactly once, in listing order. */
  lemma PagesReassemble(store: Store, c: Criteria, limit: int)
    requires ValidStore(store)
    ensures var total := SearchUserTasks(store, c, 1, limit).total;
      PagesUpTo(store, c, limit, CeilDiv(total, ClampLimit(limit))) == Listing(store, c)
  {
    var all := Listing(store, c);
    var l := ClampLimit(limit);
    PagesUpToAreListingPages(store, c, limit, CeilDiv(|all|, l));
    AllPagesYieldEverything(all, l);
  }

  /** No task appears twice across the pages of one search. */
  lemma PagesHaveNoDuplicates(store: Store, c: Criteria, limit: int)
    requires ValidStore(store)
    ensures var all := PagesUpTo(store, c, limit, CeilDiv(SearchUserTasks(store, c, 1, limit).total, ClampLimit(limit)));
      forall i, j :: 0 <= i < j < |all| ==> all[i].taskId != all[j].taskId
  {
    PagesReassemble(store, c, limit);
    var rows := MatchingRows(store, c);
    MatchingRowsInListingOrder(store, c);
    var all := Listing(store, c);
    forall i, j | 0 <= i < j < |all| ensures all[i].taskId != all[j].taskId {
      assert all[i] == ToItem(rows[i], store.projects);
      assert all[j] == ToItem(rows[j], store.projects);
    }
  }
}
