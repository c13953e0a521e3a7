/**
 * The in-memory cache: a mutable list of domain tasks with replace-all and
 * upsert-by-id, plus the list searches (`indexOfFirst`, `find`) it and the
 * repository rely on.
 */
module Cache {
  import opened TaskTypes

  /** No two tasks of the list share an id. */
  predicate DistinctIds(ts: seq<TaskDomain>) {
    forall i, j :: 0 <= i < j < |ts| ==> ts[i].id != ts[j].id
  }

  /** `indexOfFirst { it.id == id }`: the first position holding the id, or -1. */
  function IndexOfFirst(ts: seq<TaskDomain>, id: string): (r: int)
    ensures -1 <= r < |ts|
    ensures r == -1 <==> forall i :: 0 <= i < |ts| ==> ts[i].id != id
    ensures 0 <= r ==> ts[r].id == id && forall j :: 0 <= j < r ==> ts[j].id != id
  {
    if ts == [] then -1
    else if ts[0].id == id then 0
    else
      var k := IndexOfFirst(ts[1..], id);
      if k == -1 then -1 else k + 1
  }

  /** `find { it.id == id }`: the first task holding the id, or null. */
  function FindById(ts: seq<TaskDomain>, id: string): (r: Option<TaskDomain>)
    ensures r.None? <==> forall i :: 0 <= i < |ts| ==> ts[i].id != id
    ensures r.Some? ==> IndexOfFirst(ts, id) != -1 && r.value == ts[IndexOfFirst(ts, id)]
  {
    if ts == [] then None
    else if ts[0].id == id then Some(ts[0])
    else FindById(ts[1..], id)
  }

  /**
   * Reference definition of an upsert by id: the first task with the same id
   * is replaced, and when there is none the task goes at the end.
   */
  function Upsert(ts: seq<TaskDomain>, t: TaskDomain): seq<TaskDomain> {
    if ts == [] then [t]
    else if ts[0].id == t.id then [t] + ts[1..]
    else [ts[0]] + Upsert(ts[1..], t)
  }

  /** With the id present, only its first occurrence is replaced: same length, every other position kept. */
  lemma {:induction false} UpsertReplacesFirst(ts: seq<TaskDomain>, t: TaskDomain)
    requires IndexOfFirst(ts, t.id) != -1
    ensures Upsert(ts, t) == ts[IndexOfFirst(ts, t.id) := t]
    ensures |Upsert(ts, t)| == |ts|
    ensures forall j :: 0 <= j < |ts| && j != IndexOfFirst(ts, t.id) ==> Upsert(ts, t)[j] == ts[j]
  {
    if ts[0].id != t.id {
      UpsertReplacesFirst(ts[1..], t);
      assert ts == [ts[0]] + ts[1..];
    }
  }

  /** With the id absent, the task is appended and the old list is a prefix. */
  lemma {:induction false} UpsertAppends(ts: seq<TaskDomain>, t: TaskDomain)
    requires IndexOfFirst(ts, t.id) == -1
    ensures Upsert(ts, t) == ts + [t]
    ensures |Upsert(ts, t)| == |ts| + 1 && Upsert(ts, t)[..|ts|] == ts
  {
    if ts != [] {
      UpsertAppends(ts[1..], t);
      assert ts == [ts[0]] + ts[1..];
    }
  }

  /** After an upsert the first task with the saved id is the saved task. */
  lemma UpsertFind(ts: seq<TaskDomain>, t: TaskDomain)
    ensures FindById(Upsert(ts, t), t.id) == Some(t)
  {
    if IndexOfFirst(ts, t.id) == -1 {
      UpsertAppends(ts, t);
      assert (ts + [t])[|ts|] == t;
    } else {
      UpsertReplacesFirst(ts, t);
    }
  }

  /** An upsert keeps ids unique. */
  lemma UpsertDistinct(ts: seq<TaskDomain>, t: TaskDomain)
    requires DistinctIds(ts)
    ensures DistinctIds(Upsert(ts, t))
  {
    if IndexOfFirst(ts, t.id) == -1 {
      UpsertAppends(ts, t);
    } else {
      UpsertReplacesFirst(ts, t);
    }
  }

  class TaskCache {
    var tasks: seq<TaskDomain>

    constructor ()
      ensures tasks == []
    {
      tasks := [];
    }

    method IsEmpty() returns (b: bool)
      ensures b <==> tasks == []
    {
      b := |tasks| == 0;
    }

    method GetTasks() returns (r: seq<TaskDomain>)
      ensures r == tasks
    {
      r := tasks;
    }

    /** Clears the list and refills it: the contents become exactly `newTasks`, in order. */
    method SaveTasks(newTasks: seq<TaskDomain>)
      modifies this
      ensures tasks == newTasks
    {
      tasks := [];
      tasks := tasks + newTasks;
    }

    /** Replaces the first task with the same id in place, or appends. */
    method SaveTask(task: TaskDomain)
      modifies this
      ensures tasks == Upsert(old(tasks), task)
    {
      var existingTaskIndex := IndexOfFirst(tasks, task.id);
      if existingTaskIndex != -1 {
        UpsertReplacesFirst(tasks, task);
        tasks := tasks[existingTaskIndex := task];
      } else {
        UpsertAppends(tasks, task);
        tasks := tasks + [task];
      }
    }
  }
}
