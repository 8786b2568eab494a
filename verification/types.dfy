/**
 The task record and the filter enumeration of TaskLoom.

 Dates and times are abstracted: the date picker yields either the empty
 string or a calendar day, the time picker either the empty string or a
 clock time. The empty string is falsy in the source, so it is modelled as
 `None`; a present date is a day number, a present time a minute of the day.
 */
module Types {
  import Seqs

  datatype Option<+T> = None | Some(value: T)

  /** Minutes since midnight, as an `HH:MM` time input can express them. */
  type Minute = m: nat | m < 1440

  /** The last minute of the day, `23:59`. */
  const LastMinute: Minute := 1439

  /** Midnight, `00:00`. */
  const Midnight: Minute := 0

  /** A task as stored in the collection. `createdAt` is the epoch-millisecond
      creation stamp, used only to break ties in the display order. */
  datatype Task = Task(
    id: string,
    title: string,
    date: Option<nat>,
    time: Option<Minute>,
    completed: bool,
    createdAt: int)

  /** What the form hands to the store: a task without its store-managed fields. */
  datatype TaskData = TaskData(title: string, date: Option<nat>, time: Option<Minute>)

  /** The status filter of the list view. */
  datatype TaskFilter = All | Active | Completed

  predicate IsDone(t: Task) { t.completed }

  predicate IsPending(t: Task) { !t.completed }

  function Id(t: Task): string { t.id }

  /** The number of completed tasks. */
  function CompletedCount(s: seq<Task>): nat {
    |Seqs.Filter(IsDone, s)|
  }

  /** No two tasks of the collection share an id. */
  predicate UniqueIds(s: seq<Task>) {
    forall i, j :: 0 <= i < j < |s| ==> s[i].id != s[j].id
  }

  predicate HasId(s: seq<Task>, id: string) {
    exists i :: 0 <= i < |s| && s[i].id == id
  }
}
