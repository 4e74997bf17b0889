/**
  The stored records the read path consults. Entities refer to each other by
  id (foreign keys), never by object links.
 */
module Entities {
  import opened Dates

  /** One recorded unit of work. `appliedRate` and `amount` are the rate and
      the money frozen when the task was created, in integer cents; the read
      path copies them and never recomputes them. */
  datatype Task = Task(
    id: int,
    userId: int,
    projectId: int,
    title: string,
    date: Date,
    durationMinutes: int,
    appliedRate: int,
    amount: int)

  /** An hourly rate of a user on a project. Only entry creation consults it. */
  datatype RateAssignment = RateAssignment(id: int, userId: int, projectId: int, rate: int)

  /** A snapshot of the tables the query reads: tasks, project names by id,
      and the rate assignments. */
  datatype Store = Store(
    tasks: seq<Task>,
    projects: map<int, string>,
    rates: seq<RateAssignment>)

  /** No two rows share a task id. */
  predicate IdsDistinct(tasks: seq<Task>) {
    forall i, j :: 0 <= i < j < |tasks| ==> tasks[i].id != tasks[j].id
  }

  /** A row whose id no other row has can be put in front. */
  lemma ConsKeepsIdsDistinct(x: Task, s: seq<Task>)
    requires IdsDistinct(s)
    requires forall y :: y in s ==> y.id != x.id
    ensures IdsDistinct([x] + s)
  {
    var r := [x] + s;
    forall i, j | 0 <= i < j < |r| ensures r[i].id != r[j].id {
      assert r[j] == s[j - 1];
      if i > 0 {
        assert r[i] == s[i - 1];
      }
    }
  }

  /** Dropping the first row keeps the ids distinct. */
  lemma TailKeepsIdsDistinct(s: seq<Task>)
    requires |s| > 0 && IdsDistinct(s)
    ensures IdsDistinct(s[1..])
  {
    assert forall i :: 0 <= i < |s[1..]| ==> s[1..][i] == s[i + 1];
  }

  /** What the schema guarantees: `id` is the task table's primary key and
      every task's project foreign key resolves to a project row. */
  predicate ValidStore(store: Store) {
    && IdsDistinct(store.tasks)
    && forall t :: t in store.tasks ==> t.projectId in store.projects
  }
}
