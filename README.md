# Smart Tasks data layer, modelled in Dafny

This project models the data layer of the Smart Tasks Android app. The app
keeps tasks in three tiers: a remote endpoint, a local Room table keyed by task
id, and an in-memory cache. On top of those sits a use case that filters and
sorts tasks for a date. The model covers:

- **TaskCache** (`task_cache.dfy`, module `Cache`). A class over a
  `seq<TaskDomain>`. It has an emptiness test, replace-all and upsert-by-id.
  The upsert uses `indexOfFirst` and is proved equal to an independent
  recursive reference definition `Upsert`.
- **TaskDao** (`task_dao.dfy`, module `Local`). A class over a
  `map<string, TaskLocal>`. It has a full scan and insert-or-replace of one or
  many rows. It also has the five-column `UPDATE ... WHERE id = :id`, which
  leaves status and comment as they are. `SELECT * FROM task` has no
  `ORDER BY`, so the scan returns the rows in an order the store chooses. Its
  contract `Enumerates` says every row appears exactly once.
- **TaskRepositoryImpl** (`task_repository.dfy`, module `Repository`). The
  sync policy:
  - A non-empty cache answers unless a refresh is forced.
  - Otherwise the repository fetches. Every fetched task is reconciled against
    a snapshot of the store taken before the loop. New ids are inserted as full
    rows. Known ids get the five-column update. The cache is then refilled from
    the store.
  - On a network-class failure the cache is refilled from the store. If the
    store is empty, "device offline" is thrown.
  - Every exception is caught in `getTasks`, which then answers with a fresh
    scan of the store.

  The remote call is an input `RemoteOutcome = Fetched(tasks) | NetworkError | OtherError`.
  The reconciliation loop is proved against the specification function `Sync`.
  The whole `getTasks` transition is the relation `GetTasksStep`.
- **TaskUseCases** (`task_use_cases.dfy`, module `UseCases`).
  - A filter keeps tasks whose target date is set and not after the requested
    date.
  - The comparator orders by priority, down or up, with the target date
    (missing = `LocalDate.MAX`) as the tie-break.
  - `sortedWith` is modelled by a stable insertion sort. A lemma shows that
    any stable sort by that comparator gives the same list.
  - The use case also passes lookups and saves through to the repository.
- **TaskMapper** and **TaskStatusConverter** (`task_mapper.dfy`,
  `task_status_converter.dfy`). The domain/local/remote mappers, the list
  mappers and the status-string converter.
- **Data types** (`task_types.dfy`, module `TaskTypes`). `TaskDomain`,
  `TaskLocal` and `TaskRemote` keep the Kotlin defaults, written as Dafny
  default parameter values. Also `TaskStatus` with its display strings,
  `SortingDirection`, `TaskItemOrder` and `TaskUseCaseResult`. A date is an
  integer day number compared with `<=`.

Date parsing (`DateUtil.toDate`) is a parameter `parse: string -> Option<Date>`.
It yields `None` for a string that is not a date, which is what the `catch` in
`toDate` does.

The doc comment of `getTasksFromRemote` (`TaskRepositoryImpl.kt:55-56`) says
it throws on any error. The code throws in two of the three error cases:
"device offline" at `:88`, and the rethrow of a non-network exception at
`:92`. A network-class failure with stored rows is absorbed at `:84-85`: the
cache is refilled from the store and the method returns normally
(`RefreshCompletion`). The `catch` at `:46` in `getTasks` then swallows every
exception that does leave the refresh and answers with a fresh scan of the store, so
`getTasks` never fails. `OfflineWithEmptyStore` proves that a network failure
with an empty store answers with the empty list. `OtherErrorReturnsStore`
proves that any other failure answers with the store's rows.

The invariant `Mirrors(cache, table)` says the cache lists exactly the store's
rows.
- `GetTasksKeepsMirror` and `SaveTaskKeepsMirror` prove that `getTasks` and
  `saveTask` preserve it. While it holds, `getTasks` answers with the store's
  contents whatever the remote does, and `getTaskById` agrees with a lookup in
  the store (`FindByIdMirrorsStore`).
- It is not established by construction. It holds for an empty cache over an
  empty store (`MirrorsEmpty`). Any refresh that fetches, or that falls back
  to a non-empty store, re-establishes it (`RefreshedGetTasksReturnsStore`).
- A refresh that ends in a non-network exception leaves the cache as it was.
  `StaleCacheAfterOtherError` traces the consequence for a caller of the
  repository:
  1. it starts with an empty cache over a store holding task `a`;
  2. `getTasks()` meets such a failure and answers from the store, but the
     cache stays empty;
  3. `saveTask(b)` puts only `b` in the cache;
  4. the next `getTasks()` answers `[b]` alone, although `a` is still stored.

  The app's own screens save only tasks they looked up with `getTaskById`, so
  they do not reach step 3. What they can reach is `ListedButNotFound`: after
  step 2, `getTasks` has listed `a`, yet `getTaskById(a.id)` reads the empty
  cache and finds nothing.

## Model

| member | source | states |
|---|---|---|
| `TaskStatusConverter.FromTaskStatus` | app/src/main/java/com/zhbcompany/smarttasks/data/util/TaskStatusConverter.kt:19-21 | the stored string is one of the three display strings, and `toTaskStatus` of it gives back the status |
| `TaskStatusConverter.ToTaskStatus` | app/src/main/java/com/zhbcompany/smarttasks/data/util/TaskStatusConverter.kt:31-37 | total; any string that is not a display string reads as UNRESOLVED |
| `TaskStatusConverter.FromTaskStatusStrings` | app/src/main/java/com/zhbcompany/smarttasks/domain/model/TaskStatus.kt:12-22 | the display strings are "Unresolved", "Resolved" and "Can't resolve" |
| `TaskStatusConverter.FromTaskStatusInjective` | app/src/main/java/com/zhbcompany/smarttasks/domain/model/TaskStatus.kt:12-22 | distinct statuses are stored as distinct strings |
| `TaskStatusConverter.ToTaskStatusRoundTrip` | app/src/main/java/com/zhbcompany/smarttasks/data/util/TaskStatusConverter.kt:31-37 | writing back what was read gives the same string exactly when it is a display string (both directions) |
| `TaskMapper.ToLocalTask` | app/src/main/java/com/zhbcompany/smarttasks/data/mapper/TaskMapper.kt:8-19 | every field (id, title, description, both dates, priority, status, comment) is copied unchanged, and domain to local to domain is the identity |
| `TaskMapper.ToDomainTask` | app/src/main/java/com/zhbcompany/smarttasks/data/mapper/TaskMapper.kt:21-32 | local row to domain task, copying all eight fields; its contract is carried by `ToLocalTask` and `LocalRoundTrip`, which make the two mappers mutually inverse |
| `TaskMapper.LocalRoundTrip` | app/src/main/java/com/zhbcompany/smarttasks/data/mapper/TaskMapper.kt:21-32 | local to domain to local is the identity |
| `TaskMapper.ToDate` | app/src/main/java/com/zhbcompany/smarttasks/util/DateUtil.kt:41-48 | a null string stays null and a present one goes to the parser, which gives null when the string is not a date; stated for both dates by `RemoteToDomainTaskFields` |
| `TaskMapper.RemoteToDomainTask` | app/src/main/java/com/zhbcompany/smarttasks/data/mapper/TaskMapper.kt:34-43 | remote record to domain task; its contract is carried by `RemoteToDomainTaskFields` (next row) |
| `TaskMapper.RemoteToDomainTaskFields` | app/src/main/java/com/zhbcompany/smarttasks/data/mapper/TaskMapper.kt:34-43 | id, title, description and priority are copied; status is UNRESOLVED and comment ""; a present date string is parsed (None when unparsable) and a null one stays null |
| `TaskMapper.RemoteToLocalTask` | app/src/main/java/com/zhbcompany/smarttasks/data/mapper/TaskMapper.kt:45-54 | remote to local equals domain to local applied to remote to domain |
| `TaskMapper.ToLocalTaskItems` | app/src/main/java/com/zhbcompany/smarttasks/data/mapper/TaskMapper.kt:56 | same length; element i is the i-th task mapped |
| `TaskMapper.ToDomainTaskItemsFromLocal` | app/src/main/java/com/zhbcompany/smarttasks/data/mapper/TaskMapper.kt:57 | same length; element i is the i-th row mapped |
| `TaskMapper.ToDomainTaskItemsFromRemote` | app/src/main/java/com/zhbcompany/smarttasks/data/mapper/TaskMapper.kt:58 | same length; element i is the i-th remote record mapped |
| `TaskMapper.ToLocalTaskItemsFromRemote` | app/src/main/java/com/zhbcompany/smarttasks/data/mapper/TaskMapper.kt:59 | same length; element i is the i-th remote record mapped |
| `TaskMapper.DomainItemsRoundTrip` | app/src/main/java/com/zhbcompany/smarttasks/data/mapper/TaskMapper.kt:56-57 | mapping a domain list to rows and back gives the same list |
| `TaskMapper.LocalItemsRoundTrip` | app/src/main/java/com/zhbcompany/smarttasks/data/mapper/TaskMapper.kt:56-57 | mapping a row list to domain tasks and back gives the same list |
| `TaskMapper.RemoteItemsCommute` | app/src/main/java/com/zhbcompany/smarttasks/data/mapper/TaskMapper.kt:58-59 | remote rows mapped directly equal those mapped through the domain list |
| `Cache.IndexOfFirst` | app/src/main/java/com/zhbcompany/smarttasks/data/cache/TaskCache.kt:42 | -1 exactly when no task has the id; otherwise a position holding the id with none before it |
| `Cache.FindById` | app/src/main/java/com/zhbcompany/smarttasks/data/repo/TaskRepositoryImpl.kt:115 | null exactly when no task has the id; otherwise the task at the first position holding it |
| `Cache.Upsert` | app/src/main/java/com/zhbcompany/smarttasks/data/cache/TaskCache.kt:41-48 | the reference upsert by id; its contract is carried by `UpsertReplacesFirst`, `UpsertAppends`, `UpsertFind` and `UpsertDistinct`, and `TaskCache.SaveTask` is proved equal to it |
| `Cache.UpsertReplacesFirst` | app/src/main/java/com/zhbcompany/smarttasks/data/cache/TaskCache.kt:42-44 | with the id present, only its first occurrence is replaced; length and every other position are unchanged |
| `Cache.UpsertAppends` | app/src/main/java/com/zhbcompany/smarttasks/data/cache/TaskCache.kt:45-47 | with the id absent, the task is appended; length grows by one and the old contents are a prefix |
| `Cache.UpsertFind` | app/src/main/java/com/zhbcompany/smarttasks/data/cache/TaskCache.kt:41-48 | after the upsert the first task with that id is the saved task |
| `Cache.UpsertDistinct` | app/src/main/java/com/zhbcompany/smarttasks/data/cache/TaskCache.kt:41-48 | unique ids stay unique |
| `Cache.TaskCache.constructor` | app/src/main/java/com/zhbcompany/smarttasks/data/cache/TaskCache.kt:6 | the cache starts empty |
| `Cache.TaskCache.IsEmpty` | app/src/main/java/com/zhbcompany/smarttasks/data/cache/TaskCache.kt:13 | true exactly when the cache holds no task |
| `Cache.TaskCache.GetTasks` | app/src/main/java/com/zhbcompany/smarttasks/data/cache/TaskCache.kt:20 | returns the cached list |
| `Cache.TaskCache.SaveTasks` | app/src/main/java/com/zhbcompany/smarttasks/data/cache/TaskCache.kt:28-31 | the contents become exactly the new list, in order; nothing old survives |
| `Cache.TaskCache.SaveTask` | app/src/main/java/com/zhbcompany/smarttasks/data/cache/TaskCache.kt:41-48 | the new contents are `Upsert` of the old ones (see the Upsert lemmas) |
| `Local.EnumeratesEmpty` | app/src/main/java/com/zhbcompany/smarttasks/data/local/TaskDao.kt:12-13 | a scan is empty exactly when the table is |
| `Local.UpdateRow` | app/src/main/java/com/zhbcompany/smarttasks/data/local/TaskDao.kt:33-39 | the UPDATE keeps id, status and comment of the row |
| `Local.UpdateTable` | app/src/main/java/com/zhbcompany/smarttasks/data/local/TaskDao.kt:33-49 | keys never change; an absent id changes nothing; only the row with the id changes, getting the five fields while status and comment stay |
| `Local.SaveAll` | app/src/main/java/com/zhbcompany/smarttasks/data/local/TaskDao.kt:15-16 | REPLACE-inserting each row in order; its contract is carried by `SaveAllSpec` and `SaveAllKeyed`, and `TaskDao.SaveTasks` is proved equal to it |
| `Local.SaveAllSpec` | app/src/main/java/com/zhbcompany/smarttasks/data/local/TaskDao.kt:15-16 | saving a list adds its ids to the keys; each saved id holds the last row saved under it; other rows are untouched |
| `Local.SaveAllKeyed` | app/src/main/java/com/zhbcompany/smarttasks/data/local/TaskDao.kt:15-16 | saving rows keeps every row under its own primary key |
| `Local.TaskDao.constructor` | app/src/main/java/com/zhbcompany/smarttasks/data/local/TaskDao.kt:10-11 | an empty table |
| `Local.TaskDao.GetTasks` | app/src/main/java/com/zhbcompany/smarttasks/data/local/TaskDao.kt:12-13 | every row of the table exactly once, in some order |
| `Local.TaskDao.SaveTask` | app/src/main/java/com/zhbcompany/smarttasks/data/local/TaskDao.kt:18-19 | insert-or-replace: exactly one row under the id, equal to the task; other rows unchanged |
| `Local.TaskDao.SaveTasks` | app/src/main/java/com/zhbcompany/smarttasks/data/local/TaskDao.kt:15-16 | the same as saving each row in order (`SaveAll`) |
| `Local.TaskDao.UpdateTask` | app/src/main/java/com/zhbcompany/smarttasks/data/local/TaskDao.kt:33-49 | the table becomes `UpdateTable` of the old one |
| `Repository.AssociateById` | app/src/main/java/com/zhbcompany/smarttasks/data/repo/TaskRepositoryImpl.kt:62 | keys are the rows' ids; each holds the last row with that id |
| `Repository.AssociateEnumerated` | app/src/main/java/com/zhbcompany/smarttasks/data/repo/TaskRepositoryImpl.kt:62 | keying a full scan by id gives back the table, so the snapshot is the store |
| `Repository.SyncOne` | app/src/main/java/com/zhbcompany/smarttasks/data/repo/TaskRepositoryImpl.kt:63-76 | one body of the `forEach`: an id absent from the snapshot gets the full row, a present one the five-column update; stated per id by `SyncSpec` |
| `Repository.Sync` | app/src/main/java/com/zhbcompany/smarttasks/data/repo/TaskRepositoryImpl.kt:63-77 | the `forEach` over the fetched tasks in order; its contract is carried by `SyncSpec` and `SyncKeyed`, and `TaskRepositoryImpl.Reconcile` is proved equal to it |
| `Repository.SyncSpec` | app/src/main/java/com/zhbcompany/smarttasks/data/repo/TaskRepositoryImpl.kt:62-77 | per id: not fetched means unchanged; fetched and new means the full row of the last fetch; fetched and known means the stored row with that fetch's five fields |
| `Repository.SyncKeyed` | app/src/main/java/com/zhbcompany/smarttasks/data/repo/TaskRepositoryImpl.kt:62-77 | reconciliation keeps every row under its own id |
| `Repository.RefreshCompletion` | app/src/main/java/com/zhbcompany/smarttasks/data/repo/TaskRepositoryImpl.kt:79-93 | the refresh throws "device offline" exactly on a network-class failure with an empty store, and rethrows exactly on other failures |
| `Repository.GetTasksFromCache` | app/src/main/java/com/zhbcompany/smarttasks/data/repo/TaskRepositoryImpl.kt:42-50 | without a forced refresh a non-empty cache is returned and neither tier changes |
| `Repository.RefreshInsertsNewTasks` | app/src/main/java/com/zhbcompany/smarttasks/data/repo/TaskRepositoryImpl.kt:62-66 | a fetched id absent from the snapshot is inserted as the full row of its last fetch, UNRESOLVED with comment "" |
| `Repository.RefreshKeepsStatusAndComment` | app/src/main/java/com/zhbcompany/smarttasks/data/repo/TaskRepositoryImpl.kt:67-75 | a stored task keeps its status and comment; if fetched only the five synced fields change, otherwise nothing does |
| `Repository.RefreshKeys` | app/src/main/java/com/zhbcompany/smarttasks/data/repo/TaskRepositoryImpl.kt:61-77 | after a fetch the store's ids are the old ids plus the fetched ids |
| `Repository.RefreshedGetTasksReturnsStore` | app/src/main/java/com/zhbcompany/smarttasks/data/repo/TaskRepositoryImpl.kt:42-85 | after a fetch, or a network failure with stored rows, the cache mirrors the store and is what `getTasks` returns |
| `Repository.OfflineWithEmptyStore` | app/src/main/java/com/zhbcompany/smarttasks/data/repo/TaskRepositoryImpl.kt:81-88 | a network failure with an empty store throws "device offline", yet `getTasks` (catching at :46) returns the empty list and changes nothing |
| `Repository.OtherErrorReturnsStore` | app/src/main/java/com/zhbcompany/smarttasks/data/repo/TaskRepositoryImpl.kt:43-47 | any other failure is rethrown (:92) and caught; the cache is unchanged and `getTasks` returns the store's rows |
| `Repository.GetTasksKeepsMirror` | app/src/main/java/com/zhbcompany/smarttasks/data/repo/TaskRepositoryImpl.kt:41-52 | if the cache mirrors the store, it still does after `getTasks`, and the answer lists exactly the store's rows |
| `Repository.SaveTaskKeepsMirror` | app/src/main/java/com/zhbcompany/smarttasks/data/repo/TaskRepositoryImpl.kt:103-106 | writing through to both tiers keeps the cache mirroring the store |
| `Repository.FindByIdMirrorsStore` | app/src/main/java/com/zhbcompany/smarttasks/data/repo/TaskRepositoryImpl.kt:114-116 | while the cache mirrors the store, `getTaskById` equals a lookup in the store |
| `Repository.MirrorsEmpty` | app/src/main/java/com/zhbcompany/smarttasks/data/cache/TaskCache.kt:6 | an empty cache mirrors an empty store, so a fresh install starts in the invariant |
| `Repository.StaleCacheAfterOtherError` | app/src/main/java/com/zhbcompany/smarttasks/data/repo/TaskRepositoryImpl.kt:41-52 | an empty cache over a store holding `a`, a refresh failing with a non-network exception, then `saveTask(b)`: the next `getTasks()` answers `[b]` alone with `a` still stored, so the cache no longer mirrors the store |
| `Repository.ListedButNotFound` | app/src/main/java/com/zhbcompany/smarttasks/data/repo/TaskRepositoryImpl.kt:114-116 | after an empty cache meets a non-network failure over a store holding `a`, `getTasks` lists `a` but `getTaskById(a.id)` finds nothing |
| `Repository.TaskRepositoryImpl.constructor` | app/src/main/java/com/zhbcompany/smarttasks/data/repo/TaskRepositoryImpl.kt:27-32 | the repository holds the given store and cache |
| `Repository.TaskRepositoryImpl.GetTasks` | app/src/main/java/com/zhbcompany/smarttasks/data/repo/TaskRepositoryImpl.kt:41-52 | the state change and answer are `GetTasksStep` (see the lemmas above) |
| `Repository.TaskRepositoryImpl.GetTasksFromRemote` | app/src/main/java/com/zhbcompany/smarttasks/data/repo/TaskRepositoryImpl.kt:58-96 | ends as `RefreshCompletion` says and changes the tiers as `RefreshStep` says |
| `Repository.TaskRepositoryImpl.Reconcile` | app/src/main/java/com/zhbcompany/smarttasks/data/repo/TaskRepositoryImpl.kt:62-77 | the per-task inserts and updates against the pre-loop snapshot leave the store equal to `Sync` |
| `Repository.TaskRepositoryImpl.SaveTask` | app/src/main/java/com/zhbcompany/smarttasks/data/repo/TaskRepositoryImpl.kt:103-106 | the cache gets the upsert and the store the insert-or-replace; afterwards the task is found by its id |
| `Repository.TaskRepositoryImpl.GetTaskById` | app/src/main/java/com/zhbcompany/smarttasks/data/repo/TaskRepositoryImpl.kt:114-116 | the first cached task with the id, or null; only the cache is read |
| `UseCases.FilterDue` | app/src/main/java/com/zhbcompany/smarttasks/domain/use_case/TaskUseCases.kt:32-34 | every kept task has a target date not after the date; each due input task is kept as often as it occurs; others are dropped |
| `UseCases.Due` | app/src/main/java/com/zhbcompany/smarttasks/domain/use_case/TaskUseCases.kt:32-34 | the filter predicate: a target date is set and not after the date; `FilterDue`, `GetTasksResult` and `GetTasksDropsUndated` state what it keeps |
| `UseCases.Precedes` | app/src/main/java/com/zhbcompany/smarttasks/domain/use_case/TaskUseCases.kt:38-44 | the comparator as a "may come first" relation; `PrecedesTotal` and `PrecedesTransitive` make it a total preorder, and `GetTasksDownOrder`/`GetTasksUpOrder` spell it out per direction |
| `UseCases.PrecedesTotal` | app/src/main/java/com/zhbcompany/smarttasks/domain/use_case/TaskUseCases.kt:38-44 | the comparator relates any two tasks |
| `UseCases.PrecedesTransitive` | app/src/main/java/com/zhbcompany/smarttasks/domain/use_case/TaskUseCases.kt:38-44 | the comparator is transitive |
| `UseCases.Insert` | app/src/main/java/com/zhbcompany/smarttasks/domain/use_case/TaskUseCases.kt:46 | inserting adds exactly the one task |
| `UseCases.SortTasks` | app/src/main/java/com/zhbcompany/smarttasks/domain/use_case/TaskUseCases.kt:46 | the result is a permutation of the input |
| `UseCases.SortSorted` | app/src/main/java/com/zhbcompany/smarttasks/domain/use_case/TaskUseCases.kt:46 | the result is ordered by the comparator |
| `UseCases.SortStable` | app/src/main/java/com/zhbcompany/smarttasks/domain/use_case/TaskUseCases.kt:46 | tasks with equal priority and target date keep their input order |
| `UseCases.StableSortIsSortTasks` | app/src/main/java/com/zhbcompany/smarttasks/domain/use_case/TaskUseCases.kt:46 | any ordered list keeping each class of the input in order equals `SortTasks`, so every stable sort agrees with the model |
| `UseCases.FilterKeyClass` | app/src/main/java/com/zhbcompany/smarttasks/domain/use_case/TaskUseCases.kt:32-34 | the filter keeps the order of each class: a due class is kept whole, an undue one dropped |
| `UseCases.GetTasksResult` | app/src/main/java/com/zhbcompany/smarttasks/domain/use_case/TaskUseCases.kt:26-51 | always `Success`; every task is due; the tasks are a permutation of the due input tasks; ordered by the chosen direction |
| `UseCases.GetTasksDownOrder` | app/src/main/java/com/zhbcompany/smarttasks/domain/use_case/TaskUseCases.kt:38-40 | with `Down`, priorities never increase, and among equal priorities target dates never decrease |
| `UseCases.GetTasksUpOrder` | app/src/main/java/com/zhbcompany/smarttasks/domain/use_case/TaskUseCases.kt:42-43 | with `Up`, priorities never decrease, with the same target-date tie-break |
| `UseCases.GetTasksStable` | app/src/main/java/com/zhbcompany/smarttasks/domain/use_case/TaskUseCases.kt:32-46 | the due tasks with the same priority and target date come out in input order |
| `UseCases.GetTasksDropsUndated` | app/src/main/java/com/zhbcompany/smarttasks/domain/use_case/TaskUseCases.kt:32-34 | a task without a target date is never in the result |
| `UseCases.GetTasksExample` | app/src/main/java/com/zhbcompany/smarttasks/domain/use_case/TaskUseCases.kt:26-51 | with the default order, priority 5 (due on day 1) comes before priority 2 (due on day 5) |
| `UseCases.TaskUseCases.constructor` | app/src/main/java/com/zhbcompany/smarttasks/domain/use_case/TaskUseCases.kt:15-17 | the use cases hold the given repository |
| `UseCases.TaskUseCases.GetTasks` | app/src/main/java/com/zhbcompany/smarttasks/domain/use_case/TaskUseCases.kt:26-51 | the repository is asked with `forceUpdate = false`; the default order is `Priority(Down)`; the answer is `GetTasksResult` of what the repository returned |
| `UseCases.TaskUseCases.GetTaskById` | app/src/main/java/com/zhbcompany/smarttasks/domain/use_case/TaskUseCases.kt:60-62 | passes through to the repository's cache lookup |
| `UseCases.TaskUseCases.SaveTask` | app/src/main/java/com/zhbcompany/smarttasks/domain/use_case/TaskUseCases.kt:69-71 | passes through to the repository's write-through save |

## Left out

- The Compose UI (screens, components, theme), dependency injection and
  application bootstrap. They are rendering and wiring only.
- The view models and `SetCancelJob`. They launch coroutines, emit into flows
  and cancel jobs. Their only data effect is a record copy before `saveTask`,
  and `saveTask` is modelled.
- Coroutines and `withContext(dispatcher)`. The model is sequential, as are
  the data operations of one view-model action. It therefore hides one effect.
  A job cancelled during the reconciling `forEach` gets a cancellation
  exception at its next suspending store call. That exception is rethrown at
  `TaskRepositoryImpl.kt:92` and caught at `:46`. The store then keeps a prefix
  of the reconciliation (`Sync` of the first fetched tasks only), and the cache
  is unchanged.
- `java.time`. A date is an integer day number. `DateUtil.toDate` is reduced to
  an arbitrary `parse` function. Its formatters, the wall clock and
  `TaskDateConverter` are not modelled.
- Retrofit, Gson and Room configuration, and the SQL engine itself. The remote
  call is the input `RemoteOutcome`. The table is a map.
- Timber logging and `CustomLogTree`. They are side output only.
- Exceptions raised by the store itself, for example SQL errors. Only the
  remote call can fail in the model.
- `Cache.TaskCache.GetTasks`: Kotlin returns the cache's own `MutableList`, so
  a caller's list changes with later cache writes. The model returns the list
  as a value and does not model this aliasing.
- `UseCases.Precedes`: Kotlin compares a missing target date as
  `LocalDate.MAX`, so it ranks equal to a task dated exactly `LocalDate.MAX`.
  The model ranks a missing date after every date. The two never differ after
  the filter, which drops every task without a target date.
- Priorities are Kotlin `Int` (32-bit). They are only compared, never
  computed with, so unbounded integers give the same behaviour.
- `TaskItemOrder.copy` is not modelled. It is outside the data layer and only
  rebuilds the one order case.
- Exception messages, such as the text of the "device offline" exception. Only
  the kind of exception is modelled (`Repository.Failure`), because `getTasks`
  catches every exception and no message reaches a caller.
