/**
 * Conversions between the three shapes of a task: domain, local row and
 * remote record, one task at a time and element-wise over lists.
 */
module TaskMapper {
  import opened TaskTypes

  /**
   * Parsing a remote date string: a present string is handed to the parser
   * (which yields None when the string is not a date), an absent one stays absent.
   */
  function ToDate(dateString: Option<string>, parse: string -> Option<Date>): Option<Date> {
    match dateString
    case None => None
    case Some(s) => parse(s)
  }

  /** Domain to local row: every field copied unchanged, so the row reads back as the same domain task. */
  function ToLocalTask(t: TaskDomain): (r: TaskLocal)
    ensures r.id == t.id && r.title == t.title && r.description == t.description
    ensures r.dueDate == t.dueDate && r.targetDate == t.targetDate && r.priority == t.priority
    ensures r.status == t.status && r.comment == t.comment
    ensures ToDomainTask(r) == t
  {
    TaskLocal(
      id := t.id, title := t.title, description := t.description,
      dueDate := t.dueDate, targetDate := t.targetDate, priority := t.priority,
      status := t.status, comment := t.comment)
  }

  function ToDomainTask(l: TaskLocal): TaskDomain {
    TaskDomain(
      id := l.id, title := l.title, description := l.description,
      dueDate := l.dueDate, targetDate := l.targetDate, priority := l.priority,
      status := l.status, comment := l.comment)
  }

  /** Local to domain and back is the identity on rows. */
  lemma LocalRoundTrip(l: TaskLocal)
    ensures ToLocalTask(ToDomainTask(l)) == l
  {
  }

  /** Remote to domain: status and comment take the data-class defaults. */
  function RemoteToDomainTask(t: TaskRemote, parse: string -> Option<Date>): TaskDomain {
    TaskDomain(
      id := t.id, title := t.title, description := t.description,
      dueDate := ToDate(t.dueDate, parse), targetDate := ToDate(t.targetDate, parse),
      priority := t.priority)
  }

  /** Remote to local row directly agrees with going through the domain task. */
  function RemoteToLocalTask(t: TaskRemote, parse: string -> Option<Date>): (r: TaskLocal)
    ensures r == ToLocalTask(RemoteToDomainTask(t, parse))
  {
    TaskLocal(
      id := t.id, title := t.title, description := t.description,
      dueDate := ToDate(t.dueDate, parse), targetDate := ToDate(t.targetDate, parse),
      priority := t.priority)
  }

  /** What the remote mapping keeps, what it parses and what it fills in. */
  lemma RemoteToDomainTaskFields(t: TaskRemote, parse: string -> Option<Date>)
    ensures var d := RemoteToDomainTask(t, parse);
      && d.id == t.id && d.title == t.title && d.description == t.description
      && d.priority == t.priority
      && d.status == Unresolved && d.comment == ""
      && (t.dueDate.None? ==> d.dueDate.None?)
      && (t.dueDate.Some? ==> d.dueDate == parse(t.dueDate.value))
      && (t.targetDate.None? ==> d.targetDate.None?)
      && (t.targetDate.Some? ==> d.targetDate == parse(t.targetDate.value))
  {
  }

  function ToLocalTaskItems(ts: seq<TaskDomain>): (r: seq<TaskLocal>)
    ensures |r| == |ts|
    ensures forall i :: 0 <= i < |ts| ==> r[i] == ToLocalTask(ts[i])
  {
    if ts == [] then [] else [ToLocalTask(ts[0])] + ToLocalTaskItems(ts[1..])
  }

  lemma ToLocalTaskItemsAppend(ts: seq<TaskDomain>, t: TaskDomain)
    ensures ToLocalTaskItems(ts + [t]) == ToLocalTaskItems(ts) + [ToLocalTask(t)]
  {
    var a, b := ToLocalTaskItems(ts + [t]), ToLocalTaskItems(ts) + [ToLocalTask(t)];
    assert forall i :: 0 <= i < |a| ==> a[i] == b[i];
  }

  lemma ToLocalTaskItemsUpdate(ts: seq<TaskDomain>, idx: int, t: TaskDomain)
    requires 0 <= idx < |ts|
    ensures ToLocalTaskItems(ts[idx := t]) == ToLocalTaskItems(ts)[idx := ToLocalTask(t)]
  {
    var a, b := ToLocalTaskItems(ts[idx := t]), ToLocalTaskItems(ts)[idx := ToLocalTask(t)];
    assert forall i :: 0 <= i < |a| ==> a[i] == b[i];
  }

  function ToDomainTaskItemsFromLocal(ls: seq<TaskLocal>): (r: seq<TaskDomain>)
    ensures |r| == |ls|
    ensures forall i :: 0 <= i < |ls| ==> r[i] == ToDomainTask(ls[i])
  {
    if ls == [] then [] else [ToDomainTask(ls[0])] + ToDomainTaskItemsFromLocal(ls[1..])
  }

  function ToDomainTaskItemsFromRemote(rs: seq<TaskRemote>, parse: string -> Option<Date>): (r: seq<TaskDomain>)
    ensures |r| == |rs|
    ensures forall i :: 0 <= i < |rs| ==> r[i] == RemoteToDomainTask(rs[i], parse)
  {
    if rs == [] then [] else [RemoteToDomainTask(rs[0], parse)] + ToDomainTaskItemsFromRemote(rs[1..], parse)
  }

  function ToLocalTaskItemsFromRemote(rs: seq<TaskRemote>, parse: string -> Option<Date>): (r: seq<TaskLocal>)
    ensures |r| == |rs|
    ensures forall i :: 0 <= i < |rs| ==> r[i] == RemoteToLocalTask(rs[i], parse)
  {
    if rs == [] then [] else [RemoteToLocalTask(rs[0], parse)] + ToLocalTaskItemsFromRemote(rs[1..], parse)
  }

  /** The list mappers are mutually inverse between domain lists and row lists. */
  lemma DomainItemsRoundTrip(ts: seq<TaskDomain>)
    ensures ToDomainTaskItemsFromLocal(ToLocalTaskItems(ts)) == ts
  {
    var back := ToDomainTaskItemsFromLocal(ToLocalTaskItems(ts));
    assert forall i :: 0 <= i < |ts| ==> back[i] == ts[i];
  }

  lemma LocalItemsRoundTrip(ls: seq<TaskLocal>)
    ensures ToLocalTaskItems(ToDomainTaskItemsFromLocal(ls)) == ls
  {
    var back := ToLocalTaskItems(ToDomainTaskItemsFromLocal(ls));
    forall i | 0 <= i < |ls| ensures back[i] == ls[i] {
      LocalRoundTrip(ls[i]);
    }
  }

  /** Remote rows directly or through the domain list are the same rows. */
  lemma RemoteItemsCommute(rs: seq<TaskRemote>, parse: string -> Option<Date>)
    ensures ToLocalTaskItemsFromRemote(rs, parse) == ToLocalTaskItems(ToDomainTaskItemsFromRemote(rs, parse))
  {
  }
}
