/**
  The listing order of the task query: `ORDER BY t.date DESC, t.id DESC`.
  Sorting is modelled as a functional insertion sort whose result is
  characterised by its contract, so nothing depends on how the database
  actually sorts.
 */
module Ordering {
  import opened Dates
  import opened Entities

  /** `a` is listed strictly before `b`: a later date, or the same date and a
      larger id. */
  predicate Precedes(a: Task, b: Task) {
    Before(b.date, a.date) || (a.date == b.date && a.id > b.id)
  }

  /** No row is preceded by a row listed after it. */
  predicate Ordered(s: seq<Task>) {
    forall i, j :: 0 <= i < j < |s| ==> !Precedes(s[j], s[i])
  }

  /** Every row strictly precedes the one after it. */
  predicate StrictlyDescending(s: seq<Task>) {
    forall i :: 0 <= i < |s| - 1 ==> Precedes(s[i], s[i + 1])
  }

  /** "Not listed after" chains: the key (date, id) is totally preordered. */
  lemma NotPrecedesTransitive(a: Task, b: Task, c: Task)
    requires !Precedes(b, a) && !Precedes(c, b)
    ensures !Precedes(c, a)
  {
    BeforeIsStrictTotalOrder(a.date, b.date, c.date);
    BeforeIsStrictTotalOrder(c.date, b.date, a.date);
  }

  /** Two tasks with different ids are always strictly ordered one way or the
      other: the id tie-break makes the order total. */
  lemma PrecedesTotalOnDistinctIds(a: Task, b: Task)
    requires a.id != b.id
    ensures Precedes(a, b) != Precedes(b, a)
  {
    BeforeIsStrictTotalOrder(a.date, b.date, a.date);
  }

  /** A row no later row is listed before can head an ordered listing. */
  lemma ConsKeepsOrder(x: Task, s: seq<Task>)
    requires Ordered(s)
    requires forall y :: y in s ==> !Precedes(y, x)
    ensures Ordered([x] + s)
  {
    var r := [x] + s;
    forall i, j | 0 <= i < j < |r| ensures !Precedes(r[j], r[i]) {
      assert r[j] == s[j - 1];
      if i > 0 {
        assert r[i] == s[i - 1];
      }
    }
  }

  /** Inserting `t` behind the head `s[0]` keeps the head in front. */
  lemma InsertBehindHead(t: Task, s: seq<Task>, rest: seq<Task>)
    requires |s| > 0 && Ordered(s) && Precedes(s[0], t)
    requires Ordered(rest) && multiset(rest) == multiset(s[1..]) + multiset{t}
    ensures Ordered([s[0]] + rest)
    ensures multiset([s[0]] + rest) == multiset(s) + multiset{t}
  {
    assert s == [s[0]] + s[1..];
    forall x | x in rest ensures !Precedes(x, s[0]) {
      assert x in multiset(rest);
      if x != t {
        assert x in multiset(s[1..]);
        var k :| 0 <= k < |s[1..]| && s[1..][k] == x;
        assert s[k + 1] == x;
      }
    }
    ConsKeepsOrder(s[0], rest);
  }

  /** A row not listed after the head of an ordered listing can go first. */
  lemma InsertInFront(t: Task, s: seq<Task>)
    requires |s| > 0 && Ordered(s) && !Precedes(s[0], t)
    ensures Ordered([t] + s)
  {
    forall y | y in s ensures !Precedes(y, t) {
      var j :| 0 <= j < |s| && s[j] == y;
      if j > 0 {
        NotPrecedesTransitive(t, s[0], s[j]);
      }
    }
    ConsKeepsOrder(t, s);
  }

  /** Places `t` in front of the first row it is not listed after: the
      rows are kept and `t` is added. */
  function Insert(t: Task, s: seq<Task>): (r: seq<Task>)
    ensures multiset(r) == multiset(s) + multiset{t}
  {
    if |s| == 0 then
      [t]
    else if Precedes(s[0], t) then
      assert s == [s[0]] + s[1..];
      [s[0]] + Insert(t, s[1..])
    else
      [t] + s
  }

  /** Inserting into an ordered listing keeps it ordered. */
  lemma {:induction false} InsertKeepsOrder(t: Task, s: seq<Task>)
    requires Ordered(s)
    ensures Ordered(Insert(t, s))
    decreases |s|
  {
    if |s| > 0 {
      if Precedes(s[0], t) {
        TailKeepsOrder(s);
        InsertKeepsOrder(t, s[1..]);
        InsertBehindHead(t, s, Insert(t, s[1..]));
      } else {
        InsertInFront(t, s);
      }
    }
  }

  /** The query's ORDER BY: the same rows, rearranged. */
  function Sort(s: seq<Task>): (r: seq<Task>)
    ensures multiset(r) == multiset(s)
  {
    if |s| == 0 then
      []
    else
      assert s == [s[0]] + s[1..];
      Insert(s[0], Sort(s[1..]))
  }

  /** The rearrangement is in listing order. */
  lemma {:induction false} SortIsOrdered(s: seq<Task>)
    ensures Ordered(Sort(s))
    decreases |s|
  {
    if |s| > 0 {
      SortIsOrdered(s[1..]);
      InsertKeepsOrder(s[0], Sort(s[1..]));
    }
  }

  /** Inserting a row whose id is new keeps the ids distinct. */
  lemma {:induction false} InsertKeepsIdsDistinct(t: Task, s: seq<Task>)
    requires IdsDistinct(s)
    requires forall x :: x in s ==> x.id != t.id
    ensures IdsDistinct(Insert(t, s))
    decreases |s|
  {
    if |s| > 0 && Precedes(s[0], t) {
      var rest := Insert(t, s[1..]);
      TailKeepsIdsDistinct(s);
      InsertKeepsIdsDistinct(t, s[1..]);
      assert s == [s[0]] + s[1..];
      forall x | x in rest ensures x.id != s[0].id {
        assert x in multiset(rest);
        if x != t {
          var k :| 0 <= k < |s[1..]| && s[1..][k] == x;
          assert s[k + 1] == x;
        }
      }
      ConsKeepsIdsDistinct(s[0], rest);
    } else if |s| > 0 {
      ConsKeepsIdsDistinct(t, s);
    }
  }

  /** Sorting rows with distinct ids keeps them distinct. */
  lemma {:induction false} SortKeepsIdsDistinct(s: seq<Task>)
    requires IdsDistinct(s)
    ensures IdsDistinct(Sort(s))
    decreases |s|
  {
    if |s| > 0 {
      var rest := Sort(s[1..]);
      TailKeepsIdsDistinct(s);
      SortKeepsIdsDistinct(s[1..]);
      forall x | x in rest ensures x.id != s[0].id {
        assert x in multiset(rest);
        var k :| 0 <= k < |s[1..]| && s[1..][k] == x;
        assert s[k + 1] == x;
      }
      InsertKeepsIdsDistinct(s[0], rest);
    }
  }

  /** With distinct ids the listing order is strict: every row comes strictly
      before every later one, in particular before its successor. */
  lemma OrderedDistinctIsStrict(s: seq<Task>)
    requires Ordered(s) && IdsDistinct(s)
    ensures forall i, j :: 0 <= i < j < |s| ==> Precedes(s[i], s[j])
    ensures StrictlyDescending(s)
  {
    forall i, j | 0 <= i < j < |s| ensures Precedes(s[i], s[j]) {
      PrecedesTotalOnDistinctIds(s[i], s[j]);
    }
  }

  /** Dropping the first row keeps a listing ordered. */
  lemma TailKeepsOrder(s: seq<Task>)
    requires Ordered(s) && |s| > 0
    ensures Ordered(s[1..])
  {
    assert forall i :: 0 <= i < |s[1..]| ==> s[1..][i] == s[i + 1];
  }

  lemma TailMultiset(s: seq<Task>)
    requires |s| > 0
    ensures multiset(s[1..]) == multiset(s) - multiset{s[0]}
  {
    assert s == [s[0]] + s[1..];
  }

  /** Two ordered arrangements of the same rows with distinct ids start with
      the same row. */
  lemma SameFirstRow(a: seq<Task>, b: seq<Task>)
    requires Ordered(a) && Ordered(b) && IdsDistinct(a) && IdsDistinct(b)
    requires multiset(a) == multiset(b) && |a| > 0
    ensures |b| > 0 && a[0] == b[0]
  {
    assert a[0] in multiset(b);
    var kb :| 0 <= kb < |b| && b[kb] == a[0];
    assert b[0] in multiset(a);
    var ka :| 0 <= ka < |a| && a[ka] == b[0];
    if a[0] != b[0] {
      assert !Precedes(a[ka], a[0]) && a[ka].id != a[0].id;
      assert !Precedes(b[kb], b[0]) && b[kb].id != b[0].id;
      PrecedesTotalOnDistinctIds(a[0], b[0]);
      assert false;
    }
  }

  /** With distinct ids there is only one way to list a set of rows: two
      ordered arrangements of the same rows are identical. This is why every
      page fetch sees the rows in the same positions. */
  lemma {:induction false} OrderedArrangementUnique(a: seq<Task>, b: seq<Task>)
    requires Ordered(a) && Ordered(b) && IdsDistinct(a) && IdsDistinct(b)
    requires multiset(a) == multiset(b)
    ensures a == b
    decreases |a|
  {
    if |a| == 0 {
      assert |b| == |multiset(b)| == 0;
    } else {
      SameFirstRow(a, b);
      var a', b' := a[1..], b[1..];
      TailKeepsOrder(a);
      TailKeepsOrder(b);
      TailKeepsIdsDistinct(a);
      TailKeepsIdsDistinct(b);
      TailMultiset(a);
      TailMultiset(b);
      OrderedArrangementUnique(a', b');
    }
  }

  /** The listing does not depend on the physical order of the table: any
      permutation of rows with distinct ids sorts to the same sequence. */
  lemma SortIgnoresStorageOrder(a: seq<Task>, b: seq<Task>)
    requires IdsDistinct(a) && multiset(a) == multiset(b) && IdsDistinct(b)
    ensures Sort(a) == Sort(b)
  {
    SortIsOrdered(a);
    SortIsOrdered(b);
    SortKeepsIdsDistinct(a);
    SortKeepsIdsDistinct(b);
    OrderedArrangementUnique(Sort(a), Sort(b));
  }
}
