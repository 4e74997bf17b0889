/**
  Concrete requests checked against the model: two tasks of one user at
  25.00 per hour on consecutive days, listed one per page and between
  bounds on exactly their two days, and page 50 of a
  search with 5 matching rows at 10 rows per page.
 */
module Scenarios {
  import opened Wrappers
  import opened Dates
  import opened Entities
  import opened Ordering
  import opened Pagination
  import opened TaskRepository
  import opened UserTasksController

  /** Two tasks of user 7 at 25.00 per hour: 90 minutes the day before
      (37.50) and 60 minutes on the later day (25.00). */
  const Earlier: Task := Task(1, 7, 3, "Diseño", Date(2025, 1, 9), 90, 2500, 3750)
  const Later: Task := Task(2, 7, 3, "Revisión", Date(2025, 1, 10), 60, 2500, 2500)
  const TwoTasks: Store := Store([Earlier, Later], map[3 := "Portal"], [RateAssignment(1, 7, 3, 2500)])

  /** Both tasks match user 7 with no other filter. */
  lemma TwoTasksFiltered()
    ensures Filter(TwoTasks.tasks, Criteria(7, None, None, None)) == [Earlier, Later]
  {
    var c := Criteria(7, None, None, None);
    assert Filter([Later], c) == [Later] by {
      assert [Later][1..] == [];
    }
    assert TwoTasks.tasks[1..] == [Later];
  }

  /** The later day is listed first. */
  lemma TwoTasksSorted()
    ensures Sort([Earlier, Later]) == [Later, Earlier]
  {
    assert Sort([Later]) == [Later] by {
      assert [Later][1..] == [];
    }
    assert Sort([Earlier, Later]) == Insert(Earlier, [Later]) by {
      assert [Earlier, Later][1..] == [Later];
    }
    assert Precedes(Later, Earlier);
    assert Insert(Earlier, [Later]) == [Later] + Insert(Earlier, []) by {
      assert [Later][1..] == [];
    }
  }

  /** Both tasks match user 7 with no other filter, later day first. */
  lemma TwoTasksListing()
    ensures MatchingRows(TwoTasks, Criteria(7, None, None, None)) == [Later, Earlier]
  {
    TwoTasksFiltered();
    TwoTasksSorted();
  }

  /** The date bounds are inclusive: with `from` on the earlier task's day
      and `to` on the later task's day, both tasks are listed. */
  lemma BoundDatesIncluded()
    ensures MatchingRows(TwoTasks, Criteria(7, Some(Date(2025, 1, 9)), Some(Date(2025, 1, 10)), None)) ==
      [Later, Earlier]
  {
    var c := Criteria(7, Some(Date(2025, 1, 9)), Some(Date(2025, 1, 10)), None);
    assert Matches(Earlier, c) && Matches(Later, c);
    assert Filter([Later], c) == [Later] by {
      assert [Later][1..] == [];
    }
    assert TwoTasks.tasks[1..] == [Later];
    assert Filter(TwoTasks.tasks, c) == [Earlier, Later];
    TwoTasksSorted();
  }

  /** The store meets the schema's guarantees. */
  lemma TwoTasksValid()
    ensures ValidStore(TwoTasks)
  {
    assert forall t :: t in TwoTasks.tasks ==> t == Earlier || t == Later;
  }

  /** With one row per page, page 1 holds the later day with its own amount. */
  lemma FirstPageOfTwo()
    ensures ValidStore(TwoTasks)
    ensures var r := SearchUserTasks(TwoTasks, Criteria(7, None, None, None), 1, 1);
      r.items == [ToItem(Later, TwoTasks.projects)] && r.items[0].amount == 2500 && r.total == 2
  {
    TwoTasksValid();
    TwoTasksListing();
    assert PageWindow([Later, Earlier], 1, 1) == [Later];
  }

  /** With one row per page, page 2 holds the earlier day with its own amount. */
  lemma SecondPageOfTwo()
    ensures ValidStore(TwoTasks)
    ensures var r := SearchUserTasks(TwoTasks, Criteria(7, None, None, None), 2, 1);
      r.items == [ToItem(Earlier, TwoTasks.projects)] && r.items[0].amount == 3750 && r.total == 2
  {
    TwoTasksValid();
    TwoTasksListing();
    assert PageWindow([Later, Earlier], 2, 1) == [Earlier];
  }

  /** Asking for page 50 at 10 rows per page of a known user with valid
      filters, when only 5 rows match, answers 200 with no items, one page
      in all, and page 50 echoed. */
  lemma PageFiftyOfFive(req: Request, users: map<int, string>, store: Store, calendar: DateLibrary)
    requires ValidStore(store)
    requires req.page == Some(50) && req.limit == Some(10)
    requires req.id > 0 && req.id in users && ValidateFilters(req, calendar).Success?
    requires |MatchingRows(store, CriteriaOf(req.id, ValidateFilters(req, calendar).value))| == 5
    ensures ListUserTasks(req, users, store, calendar).Success?
    ensures ListUserTasks(req, users, store, calendar).value.meta.total == 5
    ensures ListUserTasks(req, users, store, calendar).value.items == []
    ensures ListUserTasks(req, users, store, calendar).value.meta.totalPages == 1
    ensures ListUserTasks(req, users, store, calendar).value.meta.page == 50
  {
    var f := ValidateFilters(req, calendar).value;
    PagePastTheEnd(store, CriteriaOf(req.id, f), 50, 10);
  }
}
