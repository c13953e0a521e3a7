/**
 * The task use cases: the tasks due by a date, sorted by priority in the
 * chosen direction with the target date as tie-break (a stable sort), and the
 * pass-through lookups and saves.
 */
module UseCases {
  import opened TaskTypes
  import opened Cache
  import opened Repository

  /** `TaskItemOrder.Priority(SortingDirection.Down)`, the default order of `getTasks`. */
  const DefaultOrder: TaskItemOrder := Priority(Down)

  /** The filter of `getTasks`: a target date is set and is not after `date`. */
  predicate Due(t: TaskDomain, date: Date) {
    t.targetDate.Some? && t.targetDate.value <= date
  }

  /** `filter`: the due tasks, in their input order. */
  function FilterDue(ts: seq<TaskDomain>, date: Date): (r: seq<TaskDomain>)
    ensures forall i :: 0 <= i < |r| ==> Due(r[i], date)
    ensures forall t :: multiset(r)[t] == if Due(t, date) then multiset(ts)[t] else 0
  {
    if ts == [] then []
    else
      assert ts == [ts[0]] + ts[1..];
      (if Due(ts[0], date) then [ts[0]] else []) + FilterDue(ts[1..], date)
  }

  /**
   * `thenBy { it.targetDate ?: LocalDate.MAX }`: a missing target date sorts
   * after every date.
   */
  predicate DateNotAfter(a: Option<Date>, b: Option<Date>) {
    match b
    case None => true
    case Some(y) => a.Some? && a.value <= y
  }

  /**
   * The comparator says `a` may come before `b`: a higher priority first with
   * `Down`, a lower one first with `Up`, and on equal priorities the earlier
   * target date first.
   */
  predicate Precedes(dir: SortingDirection, a: TaskDomain, b: TaskDomain) {
    if a.priority != b.priority then
      (if dir == Down then a.priority > b.priority else a.priority < b.priority)
    else DateNotAfter(a.targetDate, b.targetDate)
  }

  /** Any two tasks are comparable. */
  lemma PrecedesTotal(dir: SortingDirection, a: TaskDomain, b: TaskDomain)
    ensures Precedes(dir, a, b) || Precedes(dir, b, a)
  {
  }

  lemma PrecedesTransitive(dir: SortingDirection, a: TaskDomain, b: TaskDomain, c: TaskDomain)
    requires Precedes(dir, a, b) && Precedes(dir, b, c)
    ensures Precedes(dir, a, c)
  {
  }

  predicate Sorted(dir: SortingDirection, s: seq<TaskDomain>) {
    forall i, j :: 0 <= i < j < |s| ==> Precedes(dir, s[i], s[j])
  }

  /** Inserts `x` before the first task it may precede, so after every task strictly ahead of it. */
  function Insert(dir: SortingDirection, x: TaskDomain, s: seq<TaskDomain>): (r: seq<TaskDomain>)
    ensures multiset(r) == multiset(s) + multiset{x}
  {
    if s == [] || Precedes(dir, x, s[0]) then [x] + s
    else
      assert s == [s[0]] + s[1..];
      [s[0]] + Insert(dir, x, s[1..])
  }

  /** `sortedWith(comparator)`: a stable sort, here an insertion sort. */
  function SortTasks(dir: SortingDirection, s: seq<TaskDomain>): (r: seq<TaskDomain>)
    ensures multiset(r) == multiset(s)
  {
    if s == [] then []
    else
      assert s == [s[0]] + s[1..];
      Insert(dir, s[0], SortTasks(dir, s[1..]))
  }

  lemma {:induction false} InsertSorted(dir: SortingDirection, x: TaskDomain, s: seq<TaskDomain>)
    requires Sorted(dir, s)
    ensures Sorted(dir, Insert(dir, x, s))
  {
    if s == [] || Precedes(dir, x, s[0]) {
      var r := [x] + s;
      forall i, j | 0 <= i < j < |r| ensures Precedes(dir, r[i], r[j]) {
        if i == 0 && j > 1 {
          PrecedesTransitive(dir, x, s[0], s[j - 1]);
        }
      }
    } else {
      var tail := Insert(dir, x, s[1..]);
      InsertSorted(dir, x, s[1..]);
      PrecedesTotal(dir, x, s[0]);
      forall j | 0 <= j < |tail| ensures Precedes(dir, s[0], tail[j]) {
        assert tail[j] in multiset(tail);
        if tail[j] != x {
          assert tail[j] in multiset(s[1..]);
          var k :| 0 <= k < |s[1..]| && s[1..][k] == tail[j];
          assert s[k + 1] == tail[j];
        }
      }
      var r := [s[0]] + tail;
      forall i, j | 0 <= i < j < |r| ensures Precedes(dir, r[i], r[j]) {
        if i > 0 {
          assert r[i] == tail[i - 1] && r[j] == tail[j - 1];
        }
      }
    }
  }

  /** The sort's result is ordered by the comparator. */
  lemma {:induction false} SortSorted(dir: SortingDirection, s: seq<TaskDomain>)
    ensures Sorted(dir, SortTasks(dir, s))
  {
    if s != [] {
      SortSorted(dir, s[1..]);
      InsertSorted(dir, s[0], SortTasks(dir, s[1..]));
    }
  }

  /** The tasks of `s` whose priority and target date are `p` and `d`: those the comparator ranks equal. */
  function KeyClass(s: seq<TaskDomain>, p: int, d: Option<Date>): seq<TaskDomain> {
    if s == [] then [] else InClass(s[0], p, d) + KeyClass(s[1..], p, d)
  }

  /** `[a]` when `a` has priority `p` and target date `d`, else nothing. */
  function InClass(a: TaskDomain, p: int, d: Option<Date>): seq<TaskDomain> {
    if a.priority == p && a.targetDate == d then [a] else []
  }

  lemma KeyClassCons(a: TaskDomain, s: seq<TaskDomain>, p: int, d: Option<Date>)
    ensures KeyClass([a] + s, p, d) == InClass(a, p, d) + KeyClass(s, p, d)
  {
    assert ([a] + s)[1..] == s;
  }

  /** A task strictly ahead of `x` is never ranked equal to it. */
  lemma AheadNotInSameClass(dir: SortingDirection, x: TaskDomain, a: TaskDomain, p: int, d: Option<Date>)
    requires !Precedes(dir, x, a)
    ensures InClass(x, p, d) == [] || InClass(a, p, d) == []
  {
  }

  lemma SwapEmpty(a: seq<TaskDomain>, b: seq<TaskDomain>, c: seq<TaskDomain>)
    requires a == [] || b == []
    ensures a + (b + c) == b + (a + c)
  {
    if a == [] {
      assert a + (b + c) == b + c;
    } else {
      assert b + (a + c) == a + c;
    }
  }

  /** Inserting puts `x` in front of the tasks ranked equal to it, and leaves every other class alone. */
  lemma {:induction false} InsertKeyClass(dir: SortingDirection, x: TaskDomain, s: seq<TaskDomain>, p: int, d: Option<Date>)
    ensures KeyClass(Insert(dir, x, s), p, d) == InClass(x, p, d) + KeyClass(s, p, d)
  {
    if s == [] || Precedes(dir, x, s[0]) {
      KeyClassCons(x, s, p, d);
    } else {
      var tail := Insert(dir, x, s[1..]);
      assert Insert(dir, x, s) == [s[0]] + tail;
      InsertKeyClass(dir, x, s[1..], p, d);
      KeyClassCons(s[0], tail, p, d);
      assert s == [s[0]] + s[1..];
      KeyClassCons(s[0], s[1..], p, d);
      AheadNotInSameClass(dir, x, s[0], p, d);
      SwapEmpty(InClass(s[0], p, d), InClass(x, p, d), KeyClass(s[1..], p, d));
    }
  }

  /** Stability: tasks the comparator ranks equal keep their input order. */
  lemma {:induction false} SortStable(dir: SortingDirection, s: seq<TaskDomain>, p: int, d: Option<Date>)
    ensures KeyClass(SortTasks(dir, s), p, d) == KeyClass(s, p, d)
  {
    if s != [] {
      SortStable(dir, s[1..], p, d);
      InsertKeyClass(dir, s[0], SortTasks(dir, s[1..]), p, d);
    }
  }

  /** A class holds only tasks of the list with that priority and target date, and each such task. */
  lemma {:induction false} KeyClassMembers(s: seq<TaskDomain>, p: int, d: Option<Date>, x: TaskDomain)
    ensures x in KeyClass(s, p, d) <==> x in s && x.priority == p && x.targetDate == d
  {
    if s != [] {
      KeyClassMembers(s[1..], p, d, x);
      assert s == [s[0]] + s[1..];
    }
  }

  /** Two tasks that may each precede the other are ranked equal. */
  lemma PrecedesBothWays(dir: SortingDirection, a: TaskDomain, b: TaskDomain)
    requires Precedes(dir, a, b) && Precedes(dir, b, a)
    ensures a.priority == b.priority && a.targetDate == b.targetDate
  {
  }

  /** A list all of whose classes are empty is empty. */
  lemma KeyClassesEmpty(s: seq<TaskDomain>)
    ensures (forall p, d :: KeyClass(s, p, d) == []) ==> s == []
  {
    if s != [] {
      KeyClassMembers(s, s[0].priority, s[0].targetDate, s[0]);
    }
  }

  /** In an ordered list the first task may precede every task of the list. */
  lemma FirstPrecedesAll(dir: SortingDirection, s: seq<TaskDomain>, x: TaskDomain)
    requires Sorted(dir, s) && s != [] && x in s
    ensures Precedes(dir, s[0], x)
  {
    var i :| 0 <= i < |s| && s[i] == x;
    if i == 0 {
      PrecedesTotal(dir, x, x);
    }
  }

  /** The class of a list's first task starts with that task. */
  lemma KeyClassOfHead(s: seq<TaskDomain>, p: int, d: Option<Date>)
    requires s != [] && s[0].priority == p && s[0].targetDate == d
    ensures KeyClass(s, p, d) != [] && KeyClass(s, p, d)[0] == s[0]
  {
  }

  /** Two ordered lists with the same classes start with the same task. */
  lemma SameClassesSameHead(dir: SortingDirection, r: seq<TaskDomain>, q: seq<TaskDomain>)
    requires r != [] && q != []
    requires Sorted(dir, r) && Sorted(dir, q)
    requires forall p, d :: KeyClass(r, p, d) == KeyClass(q, p, d)
    ensures r[0] == q[0]
  {
    var a, b := r[0], q[0];
    KeyClassMembers(r, a.priority, a.targetDate, a);
    KeyClassMembers(q, a.priority, a.targetDate, a);
    KeyClassMembers(q, b.priority, b.targetDate, b);
    KeyClassMembers(r, b.priority, b.targetDate, b);
    FirstPrecedesAll(dir, r, b);
    FirstPrecedesAll(dir, q, a);
    PrecedesBothWays(dir, a, b);
    KeyClassOfHead(r, a.priority, a.targetDate);
    KeyClassOfHead(q, a.priority, a.targetDate);
  }

  /** Removing the same first task from two lists with the same classes leaves the same classes. */
  lemma SameClassesTails(r: seq<TaskDomain>, q: seq<TaskDomain>)
    requires r != [] && q != [] && r[0] == q[0]
    requires forall p, d :: KeyClass(r, p, d) == KeyClass(q, p, d)
    ensures forall p, d :: KeyClass(r[1..], p, d) == KeyClass(q[1..], p, d)
  {
    var a := r[0];
    assert r == [a] + r[1..] && q == [a] + q[1..];
    forall p, d ensures KeyClass(r[1..], p, d) == KeyClass(q[1..], p, d) {
      KeyClassCons(a, r[1..], p, d);
      KeyClassCons(a, q[1..], p, d);
      var h := InClass(a, p, d);
      assert KeyClass(r[1..], p, d) == (h + KeyClass(r[1..], p, d))[|h|..];
      assert KeyClass(q[1..], p, d) == (h + KeyClass(q[1..], p, d))[|h|..];
    }
  }

  /**
   * Sorting by the comparator and keeping ranked-equal tasks in order fixes the
   * result: two such orderings of the same classes are the same list.
   */
  lemma {:induction false} StableOrderUnique(dir: SortingDirection, r: seq<TaskDomain>, q: seq<TaskDomain>)
    requires Sorted(dir, r) && Sorted(dir, q)
    requires forall p, d :: KeyClass(r, p, d) == KeyClass(q, p, d)
    ensures r == q
    decreases |r|
  {
    if r == [] {
      KeyClassesEmpty(q);
    } else if q == [] {
      KeyClassesEmpty(r);
    } else {
      SameClassesSameHead(dir, r, q);
      SameClassesTails(r, q);
      StableOrderUnique(dir, r[1..], q[1..]);
      assert r == [r[0]] + r[1..] && q == [q[0]] + q[1..];
    }
  }

  /**
   * Any stable sort by this comparator, `sortedWith` among them, yields exactly
   * `SortTasks`: it is the only ordered list that keeps every class of s in order.
   */
  lemma StableSortIsSortTasks(dir: SortingDirection, s: seq<TaskDomain>, r: seq<TaskDomain>)
    requires Sorted(dir, r)
    requires forall p, d :: KeyClass(r, p, d) == KeyClass(s, p, d)
    ensures r == SortTasks(dir, s)
  {
    SortSorted(dir, s);
    forall p, d ensures KeyClass(r, p, d) == KeyClass(SortTasks(dir, s), p, d) {
      SortStable(dir, s, p, d);
    }
    StableOrderUnique(dir, r, SortTasks(dir, s));
  }

  /** Filtering keeps a whole class when its target date is due and drops it otherwise. */
  lemma {:induction false} FilterKeyClass(ts: seq<TaskDomain>, date: Date, p: int, d: Option<Date>)
    ensures KeyClass(FilterDue(ts, date), p, d) == if d.Some? && d.value <= date then KeyClass(ts, p, d) else []
  {
    if ts != [] {
      FilterKeyClass(ts[1..], date, p, d);
      assert ts == [ts[0]] + ts[1..];
      KeyClassCons(ts[0], ts[1..], p, d);
      if Due(ts[0], date) {
        KeyClassCons(ts[0], FilterDue(ts[1..], date), p, d);
      } else {
        assert FilterDue(ts, date) == FilterDue(ts[1..], date);
      }
    }
  }

  /** The pure part of `getTasks`: filter, sort in the order's direction, wrap as a success. */
  function GetTasksResult(tasks: seq<TaskDomain>, targetDate: Date, taskItemOrder: TaskItemOrder := DefaultOrder)
    : (r: TaskUseCaseResult)
    ensures r.Success?
    ensures forall i :: 0 <= i < |r.tasks| ==> Due(r.tasks[i], targetDate)
    ensures forall t :: multiset(r.tasks)[t] == if Due(t, targetDate) then multiset(tasks)[t] else 0
    ensures Sorted(taskItemOrder.sortingDirection, r.tasks)
  {
    var filteredTasks := FilterDue(tasks, targetDate);
    var sortedTasks := SortTasks(taskItemOrder.sortingDirection, filteredTasks);
    SortSorted(taskItemOrder.sortingDirection, filteredTasks);
    assert forall i :: 0 <= i < |sortedTasks| ==> sortedTasks[i] in multiset(filteredTasks);
    Success(sortedTasks)
  }

  /** With `Down`: priorities never increase, and on equal priorities target dates never decrease. */
  lemma GetTasksDownOrder(tasks: seq<TaskDomain>, targetDate: Date)
    ensures var r := GetTasksResult(tasks, targetDate, Priority(Down)).tasks;
      forall i, j :: 0 <= i < j < |r| ==>
        && r[i].priority >= r[j].priority
        && (r[i].priority == r[j].priority ==> r[i].targetDate.value <= r[j].targetDate.value)
  {
    var r := GetTasksResult(tasks, targetDate, Priority(Down)).tasks;
    forall i, j | 0 <= i < j < |r| ensures r[i].priority >= r[j].priority {
      assert Precedes(Down, r[i], r[j]);
    }
  }

  /** With `Up`: priorities never decrease, with the same target-date tie-break. */
  lemma GetTasksUpOrder(tasks: seq<TaskDomain>, targetDate: Date)
    ensures var r := GetTasksResult(tasks, targetDate, Priority(Up)).tasks;
      forall i, j :: 0 <= i < j < |r| ==>
        && r[i].priority <= r[j].priority
        && (r[i].priority == r[j].priority ==> r[i].targetDate.value <= r[j].targetDate.value)
  {
    var r := GetTasksResult(tasks, targetDate, Priority(Up)).tasks;
    forall i, j | 0 <= i < j < |r| ensures r[i].priority <= r[j].priority {
      assert Precedes(Up, r[i], r[j]);
    }
  }

  /**
   * Stability of `getTasks`: the due tasks with a given priority and target
   * date come out in their input order; a class that is not due is dropped.
   */
  lemma GetTasksStable(tasks: seq<TaskDomain>, targetDate: Date, taskItemOrder: TaskItemOrder, p: int, d: Option<Date>)
    ensures KeyClass(GetTasksResult(tasks, targetDate, taskItemOrder).tasks, p, d)
         == if d.Some? && d.value <= targetDate then KeyClass(tasks, p, d) else []
  {
    SortStable(taskItemOrder.sortingDirection, FilterDue(tasks, targetDate), p, d);
    FilterKeyClass(tasks, targetDate, p, d);
  }

  /** A task without a target date never appears in the result. */
  lemma GetTasksDropsUndated(tasks: seq<TaskDomain>, targetDate: Date, taskItemOrder: TaskItemOrder, t: TaskDomain)
    requires t.targetDate.None?
    ensures t !in GetTasksResult(tasks, targetDate, taskItemOrder).tasks
  {
    var r := GetTasksResult(tasks, targetDate, taskItemOrder).tasks;
    assert multiset(r)[t] == 0;
  }

  /** Two tasks due by the 10th, the higher priority one later: descending priority puts it first. */
  lemma GetTasksExample()
    ensures var t1 := TaskDomain(id := "1", title := "", description := "", targetDate := Some(5), priority := 2);
      var t2 := TaskDomain(id := "2", title := "", description := "", targetDate := Some(1), priority := 5);
      GetTasksResult([t1, t2], 10) == Success([t2, t1])
  {
  }

  class TaskUseCases {
    const repository: TaskRepositoryImpl

    constructor (repository: TaskRepositoryImpl)
      ensures this.repository == repository
    {
      this.repository := repository;
    }

    /**
     * `getTasks(targetDate, taskItemOrder)`: asks the repository with its
     * default `forceUpdate = false`, then filters and sorts what it answered.
     */
    method GetTasks(targetDate: Date, remote: RemoteOutcome, parse: string -> Option<Date>,
                    taskItemOrder: TaskItemOrder := DefaultOrder)
      returns (r: TaskUseCaseResult)
      requires repository.Valid()
      modifies repository.dao, repository.cache
      ensures repository.Valid()
      ensures exists tasks ::
        && GetTasksStep(old(repository.cache.tasks), old(repository.dao.table), false, remote, parse,
                        repository.cache.tasks, repository.dao.table, tasks)
        && r == GetTasksResult(tasks, targetDate, taskItemOrder)
    {
      var tasks := repository.GetTasks(false, remote, parse);
      r := GetTasksResult(tasks, targetDate, taskItemOrder);
    }

    method GetTaskById(id: string) returns (r: Option<TaskDomain>)
      ensures r == FindById(repository.cache.tasks, id)
    {
      r := repository.GetTaskById(id);
    }

    method SaveTask(task: TaskDomain)
      requires repository.Valid()
      modifies repository.dao, repository.cache
      ensures repository.Valid()
      ensures repository.cache.tasks == Upsert(old(repository.cache.tasks), task)
      ensures repository.dao.table == old(repository.dao.table)[task.id := TaskMapper.ToLocalTask(task)]
    {
      repository.SaveTask(task);
    }
  }
}
