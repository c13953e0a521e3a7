/**
 * The repository: the policy that ties the remote source, the local store and
 * the in-memory cache together (remote first, local fallback, the cache as
 * what callers read).
 */
module Repository {
  import opened TaskTypes
  import opened TaskMapper
  import opened Local
  import opened Cache

  /** What `api.fetchTasks()` does on one call: the fetched list, or the class of exception it throws. */
  datatype RemoteOutcome = Fetched(tasks: seq<TaskRemote>) | NetworkError | OtherError

  /**
   * An exception leaving the refresh: the "device offline" one raised when a
   * network-class failure meets an empty store, or the original one rethrown.
   */
  datatype Failure = DeviceOffline | Rethrown

  datatype Completion = Returned | Threw(failure: Failure)

  /** The cache lists exactly the store's rows, each once. */
  predicate Mirrors(cache: seq<TaskDomain>, table: Table) {
    Enumerates(ToLocalTaskItems(cache), table)
  }

  /** `associateBy { it.id }`: a map from id to the last row holding it. */
  function AssociateById(rows: seq<TaskLocal>): (r: Table)
    ensures r.Keys == IdsOf(rows)
    ensures forall k :: k in r ==> LastRowWithId(rows, k) == Some(r[k])
    decreases |rows|
  {
    if rows == [] then map[]
    else
      var prefix, last := rows[..|rows| - 1], rows[|rows| - 1];
      assert rows == prefix + [last];
      IdsOfAppend(prefix, last);
      AssociateById(prefix)[last.id := last]
  }

  /** Keying a full scan by id gives back the table. */
  lemma AssociateEnumerated(rows: seq<TaskLocal>, table: Table)
    requires Enumerates(rows, table)
    ensures AssociateById(rows) == table
  {
    var m := AssociateById(rows);
    forall k | k in m ensures m[k] == table[k] {
      var row := LastRowWithId(rows, k).value;
      var i :| 0 <= i < |rows| && rows[i] == row;
    }
  }

  /** The last task of the list that holds the id, if any. */
  function LastWithId(ts: seq<TaskDomain>, id: string): (r: Option<TaskDomain>)
    ensures r.None? <==> forall i :: 0 <= i < |ts| ==> ts[i].id != id
    ensures r.Some? ==> r.value in ts && r.value.id == id
    decreases |ts|
  {
    if ts == [] then None
    else if ts[|ts| - 1].id == id then Some(ts[|ts| - 1])
    else LastWithId(ts[..|ts| - 1], id)
  }

  /**
   * One step of reconciliation: an id absent from the snapshot is inserted as
   * a full row, a present one gets the five-column update.
   */
  function SyncOne(table: Table, snapshot: set<string>, t: TaskDomain): Table {
    if t.id !in snapshot then table[t.id := ToLocalTask(t)]
    else UpdateTable(table, t.id, t.title, t.description, t.dueDate, t.targetDate, t.priority)
  }

  /** Reconciliation of the fetched tasks, in order, against a snapshot of the store's ids. */
  function Sync(table: Table, snapshot: set<string>, ts: seq<TaskDomain>): Table
    decreases |ts|
  {
    if ts == [] then table
    else SyncOne(Sync(table, snapshot, ts[..|ts| - 1]), snapshot, ts[|ts| - 1])
  }

  /** The row a stored task ends with after syncing `t` into it: the five fields from `t`. */
  function Synced(row: TaskLocal, t: TaskDomain): TaskLocal {
    UpdateRow(row, t.title, t.description, t.dueDate, t.targetDate, t.priority)
  }

  /**
   * What reconciliation does to one id: untouched when not fetched; when
   * fetched and new, the full row of the last fetched task with that id; when
   * fetched and already stored, the stored row with the five fields of that
   * last task, so status and comment survive.
   */
  lemma {:induction false} SyncSpec(table: Table, snapshot: set<string>, ts: seq<TaskDomain>, id: string)
    requires snapshot <= table.Keys
    ensures var r := Sync(table, snapshot, ts);
      && (id in r <==> id in table || LastWithId(ts, id).Some?)
      && (LastWithId(ts, id).None? && id in table ==> r[id] == table[id])
      && (LastWithId(ts, id).Some? && id !in snapshot ==> r[id] == ToLocalTask(LastWithId(ts, id).value))
      && (LastWithId(ts, id).Some? && id in snapshot ==> r[id] == Synced(table[id], LastWithId(ts, id).value))
    decreases |ts|
  {
    if ts != [] {
      var prefix, t := ts[..|ts| - 1], ts[|ts| - 1];
      SyncSpec(table, snapshot, prefix, id);
      if t.id != id {
        assert LastWithId(ts, id) == LastWithId(prefix, id);
      }
    }
  }

  /** Reconciliation keeps every row under its own id. */
  lemma {:induction false} SyncKeyed(table: Table, snapshot: set<string>, ts: seq<TaskDomain>)
    requires Keyed(table)
    ensures Keyed(Sync(table, snapshot, ts))
    decreases |ts|
  {
    if ts != [] {
      SyncKeyed(table, snapshot, ts[..|ts| - 1]);
    }
  }

  /** The exception, if any, with which `getTasksFromRemote` ends. */
  function RefreshCompletion(table: Table, remote: RemoteOutcome): (c: Completion)
    ensures c == Threw(DeviceOffline) <==> remote.NetworkError? && table == map[]
    ensures c == Threw(Rethrown) <==> remote.OtherError?
  {
    match remote
    case Fetched(_) => Returned
    case NetworkError => if table != map[] then Returned else Threw(DeviceOffline)
    case OtherError => Threw(Rethrown)
  }

  /**
   * The state change of `getTasksFromRemote`: after a fetch the store is
   * reconciled against its own snapshot and the cache mirrors it; after a
   * network-class failure the store is unchanged and, when it holds rows, the
   * cache mirrors it; after any other failure nothing changes.
   */
  ghost predicate RefreshStep(cache: seq<TaskDomain>, table: Table, remote: RemoteOutcome,
                              parse: string -> Option<Date>, cache': seq<TaskDomain>, table': Table)
  {
    match remote
    case Fetched(rs) =>
      table' == Sync(table, table.Keys, ToDomainTaskItemsFromRemote(rs, parse)) && Mirrors(cache', table')
    case NetworkError =>
      table' == table && (if table != map[] then Mirrors(cache', table) else cache' == cache)
    case OtherError =>
      table' == table && cache' == cache
  }

  /**
   * The state change and the result of `getTasks(forceUpdate)`: with a
   * non-empty cache and no forced refresh, the cache as it is; otherwise a
   * refresh, then the cache if the refresh returned, or a fresh scan of the
   * store if it threw (the exception never leaves `getTasks`).
   */
  ghost predicate GetTasksStep(cache: seq<TaskDomain>, table: Table, forceUpdate: bool, remote: RemoteOutcome,
                               parse: string -> Option<Date>,
                               cache': seq<TaskDomain>, table': Table, r: seq<TaskDomain>)
  {
    if !forceUpdate && cache != [] then
      cache' == cache && table' == table && r == cache
    else
      && RefreshStep(cache, table, remote, parse, cache', table')
      && (RefreshCompletion(table, remote) == Returned ==> r == cache')
      && (RefreshCompletion(table, remote).Threw? ==> Mirrors(r, table'))
  }

  /** A non-empty cache that is not forced answers by itself and nothing changes. */
  lemma GetTasksFromCache(cache: seq<TaskDomain>, table: Table, remote: RemoteOutcome,
                          parse: string -> Option<Date>, cache': seq<TaskDomain>, table': Table, r: seq<TaskDomain>)
    requires cache != []
    requires GetTasksStep(cache, table, false, remote, parse, cache', table', r)
    ensures r == cache && cache' == cache && table' == table
  {
  }

  /**
   * A successful refresh: a fetched id the store did not hold is inserted as the
   * full row of the last fetched task with that id, unresolved and without comment.
   */
  lemma RefreshInsertsNewTasks(cache: seq<TaskDomain>, table: Table, rs: seq<TaskRemote>,
                               parse: string -> Option<Date>, cache': seq<TaskDomain>, table': Table, id: string)
    requires RefreshStep(cache, table, Fetched(rs), parse, cache', table')
    requires id !in table
    requires LastWithId(ToDomainTaskItemsFromRemote(rs, parse), id).Some?
    ensures id in table'
    ensures table'[id] == ToLocalTask(LastWithId(ToDomainTaskItemsFromRemote(rs, parse), id).value)
    ensures table'[id].status == Unresolved && table'[id].comment == ""
  {
    var ts := ToDomainTaskItemsFromRemote(rs, parse);
    SyncSpec(table, table.Keys, ts, id);
    var t := LastWithId(ts, id).value;
    var i :| 0 <= i < |ts| && ts[i] == t;
    RemoteToDomainTaskFields(rs[i], parse);
  }

  /**
   * A successful refresh never overwrites status or comment of a stored task:
   * if fetched, only the five synced fields change; if not fetched, the row is kept.
   */
  lemma RefreshKeepsStatusAndComment(cache: seq<TaskDomain>, table: Table, rs: seq<TaskRemote>,
                                     parse: string -> Option<Date>, cache': seq<TaskDomain>, table': Table, id: string)
    requires RefreshStep(cache, table, Fetched(rs), parse, cache', table')
    requires id in table
    ensures id in table'
    ensures table'[id].status == table[id].status && table'[id].comment == table[id].comment
    ensures var last := LastWithId(ToDomainTaskItemsFromRemote(rs, parse), id);
      && (last.None? ==> table'[id] == table[id])
      && (last.Some? ==> table'[id] == Synced(table[id], last.value))
  {
    SyncSpec(table, table.Keys, ToDomainTaskItemsFromRemote(rs, parse), id);
  }

  /** A refresh keeps every stored id, and adds exactly the fetched ids. */
  lemma RefreshKeys(cache: seq<TaskDomain>, table: Table, rs: seq<TaskRemote>,
                    parse: string -> Option<Date>, cache': seq<TaskDomain>, table': Table)
    requires RefreshStep(cache, table, Fetched(rs), parse, cache', table')
    ensures forall id :: id in table' <==> id in table || exists i :: 0 <= i < |rs| && rs[i].id == id
  {
    var ts := ToDomainTaskItemsFromRemote(rs, parse);
    forall id ensures id in table' <==> id in table || exists i :: 0 <= i < |rs| && rs[i].id == id {
      SyncSpec(table, table.Keys, ts, id);
      if exists i :: 0 <= i < |rs| && rs[i].id == id {
        var i :| 0 <= i < |rs| && rs[i].id == id;
        assert ts[i].id == id;
      }
    }
  }

  /**
   * After a refresh that returned, whatever the outcome, `getTasks` hands back
   * exactly the store's rows, which are now also the cache.
   */
  lemma RefreshedGetTasksReturnsStore(cache: seq<TaskDomain>, table: Table, forceUpdate: bool, remote: RemoteOutcome,
                                      parse: string -> Option<Date>,
                                      cache': seq<TaskDomain>, table': Table, r: seq<TaskDomain>)
    requires forceUpdate || cache == []
    requires GetTasksStep(cache, table, forceUpdate, remote, parse, cache', table', r)
    requires remote.Fetched? || (remote.NetworkError? && table != map[])
    ensures r == cache' && Mirrors(r, table')
  {
  }

  /** A network-class failure with an empty store raises "device offline", and `getTasks` yields no tasks. */
  lemma OfflineWithEmptyStore(cache: seq<TaskDomain>, forceUpdate: bool, parse: string -> Option<Date>,
                              cache': seq<TaskDomain>, table': Table, r: seq<TaskDomain>)
    requires forceUpdate || cache == []
    requires GetTasksStep(cache, map[], forceUpdate, NetworkError, parse, cache', table', r)
    ensures RefreshCompletion(map[], NetworkError) == Threw(DeviceOffline)
    ensures r == [] && cache' == cache && table' == map[]
  {
  }

  /** Any other failure leaves the cache alone, and `getTasks` still answers with the store's rows. */
  lemma OtherErrorReturnsStore(cache: seq<TaskDomain>, table: Table, forceUpdate: bool, parse: string -> Option<Date>,
                               cache': seq<TaskDomain>, table': Table, r: seq<TaskDomain>)
    requires forceUpdate || cache == []
    requires GetTasksStep(cache, table, forceUpdate, OtherError, parse, cache', table', r)
    ensures cache' == cache && table' == table && Mirrors(r, table)
  {
  }

  /**
   * Once the cache mirrors the store, `getTasks` keeps it so and always answers
   * with exactly the store's rows, whatever the remote does.
   */
  lemma GetTasksKeepsMirror(cache: seq<TaskDomain>, table: Table, forceUpdate: bool, remote: RemoteOutcome,
                            parse: string -> Option<Date>,
                            cache': seq<TaskDomain>, table': Table, r: seq<TaskDomain>)
    requires Mirrors(cache, table)
    requires GetTasksStep(cache, table, forceUpdate, remote, parse, cache', table', r)
    ensures Mirrors(cache', table') && Mirrors(r, table')
  {
    if (forceUpdate || cache == []) && remote.NetworkError? && table == map[] {
      assert Enumerates([], map[]);
    }
  }

  /** A new row at the end of a scan is a scan of the table with that row added. */
  lemma EnumeratesAppend(rows: seq<TaskLocal>, table: Table, row: TaskLocal)
    requires Enumerates(rows, table) && row.id !in table
    ensures Enumerates(rows + [row], table[row.id := row])
  {
    IdsOfAppend(rows, row);
  }

  /** Replacing a row of a scan in place is a scan of the table with that row replaced. */
  lemma EnumeratesReplace(rows: seq<TaskLocal>, table: Table, idx: int, row: TaskLocal)
    requires Enumerates(rows, table) && 0 <= idx < |rows| && rows[idx].id == row.id
    ensures Enumerates(rows[idx := row], table[row.id := row])
  {
    var rows' := rows[idx := row];
    assert IdsOf(rows') == IdsOf(rows) by {
      forall k | k in IdsOf(rows) ensures k in IdsOf(rows') {
        var i :| 0 <= i < |rows| && rows[i].id == k;
        assert rows'[i].id == k;
      }
      forall k | k in IdsOf(rows') ensures k in IdsOf(rows) {
        var i :| 0 <= i < |rows'| && rows'[i].id == k;
        assert rows[i].id == k;
      }
    }
  }

  /** `saveTask` (upsert in the cache, insert-or-replace in the store) keeps the cache mirroring the store. */
  lemma SaveTaskKeepsMirror(cache: seq<TaskDomain>, table: Table, t: TaskDomain)
    requires Mirrors(cache, table)
    ensures Mirrors(Upsert(cache, t), table[t.id := ToLocalTask(t)])
  {
    var rows := ToLocalTaskItems(cache);
    var idx := IndexOfFirst(cache, t.id);
    if idx == -1 {
      UpsertAppends(cache, t);
      ToLocalTaskItemsAppend(cache, t);
      EnumeratesAppend(rows, table, ToLocalTask(t));
    } else {
      UpsertReplacesFirst(cache, t);
      ToLocalTaskItemsUpdate(cache, idx, t);
      EnumeratesReplace(rows, table, idx, ToLocalTask(t));
    }
  }

  /** While the cache mirrors the store, `getTaskById` agrees with a lookup in the store. */
  lemma FindByIdMirrorsStore(cache: seq<TaskDomain>, table: Table, id: string)
    requires Mirrors(cache, table)
    ensures FindById(cache, id) == if id in table then Some(ToDomainTask(table[id])) else None
  {
    var rows := ToLocalTaskItems(cache);
    if id in table {
      var i :| 0 <= i < |rows| && rows[i].id == id;
      assert cache[i].id == id;
      var k := IndexOfFirst(cache, id);
      assert rows[k].id == id;
      assert k == i;
      assert ToDomainTask(rows[i]) == cache[i];
    } else {
      forall i | 0 <= i < |cache| ensures cache[i].id != id {
        assert rows[i].id in IdsOf(rows);
      }
    }
  }

  /** A fresh install: the empty cache lists exactly the rows of the empty store. */
  lemma MirrorsEmpty()
    ensures Mirrors([], map[])
  {
    assert ToLocalTaskItems([]) == [];
    assert IdsOf([]) == {};
  }

  /**
   * `Mirrors` is kept but not restored by every path. Start with an empty
   * cache over a store holding `a`; a refresh that fails with a non-network
   * exception leaves the cache empty, `saveTask(b)` then puts only `b` in it,
   * and the next `getTasks()` answers from that cache alone although `a` is
   * still stored.
   */
  lemma StaleCacheAfterOtherError(a: TaskDomain, b: TaskDomain, parse: string -> Option<Date>,
                                  cache1: seq<TaskDomain>, table1: Table, r1: seq<TaskDomain>,
                                  remote: RemoteOutcome,
                                  cache2: seq<TaskDomain>, table2: Table, r2: seq<TaskDomain>)
    requires a.id != b.id
    requires GetTasksStep([], map[a.id := ToLocalTask(a)], false, OtherError, parse, cache1, table1, r1)
    requires GetTasksStep(Upsert(cache1, b), table1[b.id := ToLocalTask(b)], false, remote, parse, cache2, table2, r2)
    ensures r2 == [b] && a.id in table2
    ensures !Mirrors(r2, table2)
  {
    var rows := ToLocalTaskItems(r2);
    assert rows == [ToLocalTask(b)];
    assert a.id !in IdsOf(rows);
  }

  /**
   * What a user of the app can see of a stale cache: after a refresh of an
   * empty cache fails with a non-network exception, `getTasks` lists the
   * stored task `a`, yet `getTaskById(a.id)`, which reads only the cache, finds
   * nothing.
   */
  lemma ListedButNotFound(a: TaskDomain, parse: string -> Option<Date>,
                          cache1: seq<TaskDomain>, table1: Table, r1: seq<TaskDomain>)
    requires GetTasksStep([], map[a.id := ToLocalTask(a)], false, OtherError, parse, cache1, table1, r1)
    ensures a in r1
    ensures FindById(cache1, a.id) == None
  {
    var rows := ToLocalTaskItems(r1);
    assert a.id in IdsOf(rows);
    var i :| 0 <= i < |rows| && rows[i].id == a.id;
    assert r1[i] == ToDomainTask(rows[i]);
  }

  class TaskRepositoryImpl {
    const dao: TaskDao
    const cache: TaskCache

    predicate Valid()
      reads this, dao
    {
      dao.Valid()
    }

    constructor (dao: TaskDao, cache: TaskCache)
      requires dao.Valid()
      ensures this.dao == dao && this.cache == cache && Valid()
    {
      this.dao := dao;
      this.cache := cache;
    }

    /** `getTasks(forceUpdate)`; the remote's behaviour and the date parser are inputs. */
    method GetTasks(forceUpdate: bool, remote: RemoteOutcome, parse: string -> Option<Date>)
      returns (r: seq<TaskDomain>)
      requires Valid()
      modifies dao, cache
      ensures Valid()
      ensures GetTasksStep(old(cache.tasks), old(dao.table), forceUpdate, remote, parse, cache.tasks, dao.table, r)
    {
      var empty := cache.IsEmpty();
      if forceUpdate || empty {
        var completion := GetTasksFromRemote(remote, parse);
        if completion == Returned {
          r := cache.GetTasks();
        } else {
          // the exception is caught here and the store is read instead
          var rows := dao.GetTasks();
          r := ToDomainTaskItemsFromLocal(rows);
          LocalItemsRoundTrip(rows);
        }
      } else {
        r := cache.GetTasks();
      }
    }

    /** `getTasksFromRemote`: fetch, reconcile into the store, refill the cache; on failure fall back. */
    method GetTasksFromRemote(remote: RemoteOutcome, parse: string -> Option<Date>) returns (completion: Completion)
      requires Valid()
      modifies dao, cache
      ensures Valid()
      ensures completion == RefreshCompletion(old(dao.table), remote)
      ensures RefreshStep(old(cache.tasks), old(dao.table), remote, parse, cache.tasks, dao.table)
    {
      match remote
      case Fetched(fetched) =>
        var tasks := ToDomainTaskItemsFromRemote(fetched, parse);
        Reconcile(tasks);
        var stored := dao.GetTasks();
        cache.SaveTasks(ToDomainTaskItemsFromLocal(stored));
        LocalItemsRoundTrip(stored);
        completion := Returned;
      case NetworkError =>
        var localTaskItems := dao.GetTasks();
        EnumeratesEmpty(localTaskItems, dao.table);
        if localTaskItems != [] {
          cache.SaveTasks(ToDomainTaskItemsFromLocal(localTaskItems));
          LocalItemsRoundTrip(localTaskItems);
          completion := Returned;
        } else {
          completion := Threw(DeviceOffline);
        }
      case OtherError =>
        completion := Threw(Rethrown);
    }

    /**
     * The `forEach` of `getTasksFromRemote`: against a snapshot of the store
     * taken before the loop, insert each fetched task whose id is new and give
     * the five-column update to each one already stored.
     */
    method Reconcile(tasks: seq<TaskDomain>)
      requires Valid()
      modifies dao
      ensures Valid()
      ensures dao.table == Sync(old(dao.table), old(dao.table).Keys, tasks)
    {
      var snapshot := dao.GetTasks();
      var existingTaskMap := AssociateById(snapshot);
      AssociateEnumerated(snapshot, dao.table);
      for i := 0 to |tasks|
        invariant dao.Valid()
        invariant dao.table == Sync(old(dao.table), existingTaskMap.Keys, tasks[..i])
      {
        var task := tasks[i];
        assert tasks[..i + 1][..i] == tasks[..i];
        if task.id !in existingTaskMap {
          dao.SaveTask(ToLocalTask(task));
        } else {
          dao.UpdateTask(task.id, task.title, task.description, task.dueDate, task.targetDate, task.priority);
        }
      }
      assert tasks[..|tasks|] == tasks;
    }

    /** `saveTask`: write through to the cache and the store; the task is then found by its id. */
    method SaveTask(task: TaskDomain)
      requires Valid()
      modifies dao, cache
      ensures Valid()
      ensures cache.tasks == Upsert(old(cache.tasks), task)
      ensures dao.table == old(dao.table)[task.id := ToLocalTask(task)]
      ensures FindById(cache.tasks, task.id) == Some(task)
    {
      cache.SaveTask(task);
      dao.SaveTask(ToLocalTask(task));
      UpsertFind(old(cache.tasks), task);
    }

    /** `getTaskById`: the first cached task with the id, or null; only the cache is read. */
    method GetTaskById(id: string) returns (r: Option<TaskDomain>)
      ensures r == FindById(cache.tasks, id)
    {
      var tasks := cache.GetTasks();
      r := FindById(tasks, id);
    }
  }
}
