/**
 * The local store: the Room table `task`, keyed by task id, with a full scan,
 * insert-or-replace of one or many rows, and the five-column UPDATE used by
 * remote sync.
 */
module Local {
  import opened TaskTypes

  type Table = map<string, TaskLocal>

  /** The primary key: every row is stored under its own id. */
  predicate Keyed(table: Table) {
    forall k :: k in table ==> table[k].id == k
  }

  function IdsOf(rows: seq<TaskLocal>): set<string> {
    set i | 0 <= i < |rows| :: rows[i].id
  }

  lemma IdsOfAppend(rows: seq<TaskLocal>, row: TaskLocal)
    ensures IdsOf(rows + [row]) == IdsOf(rows) + {row.id}
  {
    var all := rows + [row];
    forall k | k in IdsOf(rows) ensures k in IdsOf(all) {
      var i :| 0 <= i < |rows| && rows[i].id == k;
      assert all[i] == rows[i];
    }
    assert all[|rows|] == row;
  }

  predicate DistinctRowIds(rows: seq<TaskLocal>) {
    forall i, j :: 0 <= i < j < |rows| ==> rows[i].id != rows[j].id
  }

  /**
   * `rows` is what `SELECT * FROM task` may return for `table`: every row
   * exactly once, in some order (the query has no ORDER BY).
   */
  predicate Enumerates(rows: seq<TaskLocal>, table: Table) {
    && DistinctRowIds(rows)
    && (forall i :: 0 <= i < |rows| ==> rows[i].id in table && table[rows[i].id] == rows[i])
    && IdsOf(rows) == table.Keys
  }

  /** A scan is empty exactly when the table is. */
  lemma EnumeratesEmpty(rows: seq<TaskLocal>, table: Table)
    requires Enumerates(rows, table)
    ensures rows == [] <==> table == map[]
  {
    if rows != [] {
      assert rows[0].id in IdsOf(rows);
    }
  }

  /** The row after `UPDATE task SET title, description, dueDate, targetDate, priority`. */
  function UpdateRow(row: TaskLocal, title: string, description: string,
                     dueDate: Option<Date>, targetDate: Option<Date>, priority: int): (r: TaskLocal)
    ensures r.id == row.id && r.status == row.status && r.comment == row.comment
  {
    row.(title := title, description := description, dueDate := dueDate,
         targetDate := targetDate, priority := priority)
  }

  /**
   * The table after the five-column UPDATE ... WHERE id = :id: the set of keys
   * never changes, only the row with that id (if any) changes, and on it
   * status and comment are kept.
   */
  function UpdateTable(table: Table, id: string, title: string, description: string,
                       dueDate: Option<Date>, targetDate: Option<Date>, priority: int): (r: Table)
    ensures r.Keys == table.Keys
    ensures forall k :: k in table && k != id ==> r[k] == table[k]
    ensures id !in table ==> r == table
    ensures id in table ==>
      && r[id].title == title && r[id].description == description
      && r[id].dueDate == dueDate && r[id].targetDate == targetDate && r[id].priority == priority
      && r[id].id == table[id].id && r[id].status == table[id].status && r[id].comment == table[id].comment
  {
    if id in table then table[id := UpdateRow(table[id], title, description, dueDate, targetDate, priority)]
    else table
  }

  /** Inserting (with REPLACE) each row in turn. */
  function SaveAll(table: Table, rows: seq<TaskLocal>): Table
    decreases |rows|
  {
    if rows == [] then table
    else SaveAll(table, rows[..|rows| - 1])[rows[|rows| - 1].id := rows[|rows| - 1]]
  }

  /** The last row of the list that holds the id, if any. */
  function LastRowWithId(rows: seq<TaskLocal>, id: string): (r: Option<TaskLocal>)
    ensures r.None? <==> id !in IdsOf(rows)
    ensures r.Some? ==> r.value in rows && r.value.id == id
    decreases |rows|
  {
    if rows == [] then None
    else if rows[|rows| - 1].id == id then Some(rows[|rows| - 1])
    else
      var prefix := rows[..|rows| - 1];
      assert rows == prefix + [rows[|rows| - 1]];
      IdsOfAppend(prefix, rows[|rows| - 1]);
      LastRowWithId(prefix, id)
  }

  /**
   * Saving a list of rows: the keys are the old keys plus the saved ids, a saved
   * id holds the last row saved under it, and every other row is untouched.
   */
  lemma {:induction false} SaveAllSpec(table: Table, rows: seq<TaskLocal>, id: string)
    ensures var r := SaveAll(table, rows);
      && r.Keys == table.Keys + IdsOf(rows)
      && (LastRowWithId(rows, id).Some? ==> r[id] == LastRowWithId(rows, id).value)
      && (LastRowWithId(rows, id).None? && id in table ==> r[id] == table[id])
    decreases |rows|
  {
    if rows != [] {
      var prefix := rows[..|rows| - 1];
      SaveAllSpec(table, prefix, id);
      assert rows == prefix + [rows[|rows| - 1]];
      IdsOfAppend(prefix, rows[|rows| - 1]);
    }
  }

  /** Saving rows keeps every row under its own id. */
  lemma {:induction false} SaveAllKeyed(table: Table, rows: seq<TaskLocal>)
    requires Keyed(table)
    ensures Keyed(SaveAll(table, rows))
    decreases |rows|
  {
    if rows != [] {
      SaveAllKeyed(table, rows[..|rows| - 1]);
    }
  }

  class TaskDao {
    var table: Table

    predicate Valid()
      reads this
    {
      Keyed(table)
    }

    constructor ()
      ensures Valid() && table == map[]
    {
      table := map[];
    }

    /** `SELECT * FROM task`: every row once, in an order the store chooses. */
    method GetTasks() returns (rows: seq<TaskLocal>)
      requires Valid()
      ensures Enumerates(rows, table)
    {
      rows := [];
      var pending := table.Keys;
      while pending != {}
        invariant pending <= table.Keys
        invariant Enumerates(rows, table - pending)
        decreases pending
      {
        var k :| k in pending;
        IdsOfAppend(rows, table[k]);
        rows := rows + [table[k]];
        pending := pending - {k};
      }
      assert table - {} == table;
    }

    /** `@Insert(onConflict = REPLACE)` of one row: the row with that id is now `task`. */
    method SaveTask(task: TaskLocal)
      requires Valid()
      modifies this
      ensures Valid()
      ensures table == old(table)[task.id := task]
    {
      table := table[task.id := task];
    }

    /** `@Insert(onConflict = REPLACE)` of a list: each row in order, as `SaveTask` would. */
    method SaveTasks(tasks: seq<TaskLocal>)
      requires Valid()
      modifies this
      ensures Valid()
      ensures table == SaveAll(old(table), tasks)
    {
      for i := 0 to |tasks|
        invariant Valid()
        invariant table == SaveAll(old(table), tasks[..i])
      {
        assert tasks[..i + 1][..i] == tasks[..i];
        SaveTask(tasks[i]);
      }
      assert tasks[..|tasks|] == tasks;
    }

    /** The five-column UPDATE ... WHERE id = :id. */
    method UpdateTask(id: string, title: string, description: string,
                      dueDate: Option<Date>, targetDate: Option<Date>, priority: int)
      requires Valid()
      modifies this
      ensures Valid()
      ensures table == UpdateTable(old(table), id, title, description, dueDate, targetDate, priority)
    {
      table := UpdateTable(table, id, title, description, dueDate, targetDate, priority);
    }
  }
}
