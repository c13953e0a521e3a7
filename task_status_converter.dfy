/**
 * The Room type converter between a task status and the string stored in the
 * `status` column.
 */
module TaskStatusConverter {
  import opened TaskTypes

  /** The three strings a status is stored as. */
  const DisplayStrings: set<string> := {"Unresolved", "Resolved", "Can't resolve"}

  /** A status is stored as its display string; reading that string back gives the status again. */
  function FromTaskStatus(status: TaskStatus): (r: string)
    ensures r in DisplayStrings
    ensures ToTaskStatus(r) == status
  {
    status.Value()
  }

  /** Any string reads back as a status; one that is not a known display string reads as unresolved. */
  function ToTaskStatus(value: string): (r: TaskStatus)
    ensures value !in DisplayStrings ==> r == Unresolved
  {
    if value == Resolved.Value() then Resolved
    else if value == CantResolve.Value() then CantResolve
    else Unresolved
  }

  /** The stored strings are the enum's display strings. */
  lemma FromTaskStatusStrings()
    ensures FromTaskStatus(Unresolved) == "Unresolved"
    ensures FromTaskStatus(Resolved) == "Resolved"
    ensures FromTaskStatus(CantResolve) == "Can't resolve"
  {
  }

  /** Distinct statuses are stored as distinct strings. */
  lemma FromTaskStatusInjective(a: TaskStatus, b: TaskStatus)
    ensures FromTaskStatus(a) == FromTaskStatus(b) ==> a == b
  {
  }

  /** Writing back what was read reproduces the string exactly when it is a display string. */
  lemma ToTaskStatusRoundTrip(value: string)
    ensures FromTaskStatus(ToTaskStatus(value)) == value <==> value in DisplayStrings
  {
  }
}
