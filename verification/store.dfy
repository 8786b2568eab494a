/**
 The mutating operations on the task collection. Each is a pure function
 from the collection before the state update to the collection after it;
 the fresh id, the creation instant and the answer to the confirmation
 prompt are parameters.
 */
module Store {
  import opened Types
  import Seqs

  // ---------------------------------------------------------------------
  // addTask

  /** `addTask`: a new open task built from the form data, in front of the
      old tasks, which keep their order and values. */
  function AddTask(s: seq<Task>, data: TaskData, id: string, now: int): (r: seq<Task>)
    ensures |r| == |s| + 1
    ensures r[0].id == id && r[0].createdAt == now && !r[0].completed
    ensures r[0].title == data.title && r[0].date == data.date && r[0].time == data.time
    ensures r[1..] == s
  {
    [Task(id, data.title, data.date, data.time, false, now)] + s
  }

  /** Adding a task leaves the completed count alone. */
  lemma AddKeepsCompletedCount(s: seq<Task>, data: TaskData, id: string, now: int)
    ensures CompletedCount(AddTask(s, data, id, now)) == CompletedCount(s)
  {
    var r := AddTask(s, data, id, now);
    assert r == [r[0]] + s;
    assert r[1..] == s;
  }

  /** A fresh id keeps the ids unique. */
  lemma AddKeepsUniqueIds(s: seq<Task>, data: TaskData, id: string, now: int)
    requires UniqueIds(s) && !HasId(s, id)
    ensures UniqueIds(AddTask(s, data, id, now))
  {
    var r := AddTask(s, data, id, now);
    forall i, j | 0 <= i < j < |r|
      ensures r[i].id != r[j].id
    {
      assert r[j] == s[j - 1];
      if i > 0 {
        assert r[i] == s[i - 1];
      }
    }
  }

  // ---------------------------------------------------------------------
  // toggleTask

  function Flip(t: Task, id: string): Task {
    if t.id == id then t.(completed := !t.completed) else t
  }

  /** `toggleTask`: flips `completed` on the tasks carrying `id`; nothing
      else changes, no task moves. */
  function ToggleTask(s: seq<Task>, id: string): (r: seq<Task>)
    ensures |r| == |s|
    ensures forall i :: 0 <= i < |s| ==> r[i].(completed := s[i].completed) == s[i]
    ensures forall i :: 0 <= i < |s| ==> r[i].completed == (s[i].completed != (s[i].id == id))
  {
    Seqs.Map(t => Flip(t, id), s)
  }

  /** Toggling twice restores the collection. */
  lemma ToggleTwice(s: seq<Task>, id: string)
    ensures ToggleTask(ToggleTask(s, id), id) == s
  {
    var r := ToggleTask(ToggleTask(s, id), id);
    assert forall i :: 0 <= i < |s| ==> r[i] == s[i];
  }

  /** Toggling an id nobody has changes nothing. */
  lemma ToggleAbsent(s: seq<Task>, id: string)
    requires !HasId(s, id)
    ensures ToggleTask(s, id) == s
  {
    var r := ToggleTask(s, id);
    assert forall i :: 0 <= i < |s| ==> r[i] == s[i];
  }

  /** Toggling the one task with a given id moves it between the completed
      and the open count. */
  lemma {:induction false} ToggleCompletedCount(s: seq<Task>, id: string, k: int)
    requires UniqueIds(s) && 0 <= k < |s| && s[k].id == id
    ensures CompletedCount(ToggleTask(s, id)) == CompletedCount(s) + (if s[k].completed then -1 else 1)
    decreases |s|
  {
    var r := ToggleTask(s, id);
    var tail := s[1..];
    assert s == [s[0]] + tail;
    assert r == [r[0]] + r[1..];
    assert UniqueIds(tail) by {
      forall i, j | 0 <= i < j < |tail|
        ensures tail[i].id != tail[j].id
      {
        assert tail[i] == s[i + 1] && tail[j] == s[j + 1];
      }
    }
    assert r[1..] == ToggleTask(tail, id) by {
      var u := ToggleTask(tail, id);
      assert forall i :: 0 <= i < |tail| ==> r[1..][i] == u[i];
    }
    if k == 0 {
      assert !HasId(tail, id) by {
        forall i | 0 <= i < |tail|
          ensures tail[i].id != id
        {
          assert tail[i] == s[i + 1];
        }
      }
      ToggleAbsent(tail, id);
    } else {
      assert r[0] == s[0];
      ToggleCompletedCount(tail, id, k - 1);
    }
  }

  // ---------------------------------------------------------------------
  // deleteTask

  /** The filter predicate of `deleteTask`. */
  function NotId(id: string): Task -> bool {
    (t: Task) => t.id != id
  }

  /** `deleteTask`: every task carrying `id` is gone, every other task is
      still there. */
  function DeleteTask(s: seq<Task>, id: string): (r: seq<Task>)
    ensures |r| <= |s|
    ensures forall t :: t in r <==> t in s && t.id != id
    ensures !HasId(r, id)
    ensures HasId(s, id) ==> |r| < |s|
  {
    var r := Seqs.Filter(NotId(id), s);
    Seqs.FilterMultiset(NotId(id), s);
    if HasId(s, id) then
      var k :| 0 <= k < |s| && s[k].id == id;
      assert multiset(r)[s[k]] == 0 < multiset(s)[s[k]];
      DropsOne(r, s, s[k]);
      r
    else r
  }

  /** A sequence that keeps at most the copies of another but drops every
      copy of some element of it is strictly shorter. */
  lemma DropsOne(r: seq<Task>, s: seq<Task>, x: Task)
    requires forall t :: multiset(r)[t] <= multiset(s)[t]
    requires multiset(r)[x] < multiset(s)[x]
    ensures |r| < |s|
  {
    assert multiset(r) <= multiset(s);
    assert multiset(r) != multiset(s);
    assert |multiset(r)| < |multiset(s)| by {
      var d := multiset(s) - multiset(r);
      assert multiset(s) == multiset(r) + d;
      assert x in d;
    }
  }

  /** Filtering never introduces a repeated id. */
  lemma {:induction false} FilterKeepsUniqueIds(p: Task -> bool, s: seq<Task>)
    requires UniqueIds(s)
    ensures UniqueIds(Seqs.Filter(p, s))
    decreases |s|
  {
    if |s| > 0 {
      var tail := s[1..];
      assert UniqueIds(tail) by {
        forall i, j | 0 <= i < j < |tail|
          ensures tail[i].id != tail[j].id
        {
          assert tail[i] == s[i + 1] && tail[j] == s[j + 1];
        }
      }
      FilterKeepsUniqueIds(p, tail);
      var rest := Seqs.Filter(p, tail);
      if p(s[0]) {
        var r := [s[0]] + rest;
        assert Seqs.Filter(p, s) == r;
        forall i, j | 0 <= i < j < |r|
          ensures r[i].id != r[j].id
        {
          assert r[j] == rest[j - 1] && r[j] in tail;
          var k :| 0 <= k < |tail| && tail[k] == r[j];
          assert s[k + 1] == r[j];
          if i > 0 {
            assert r[i] == rest[i - 1];
          }
        }
      } else {
        assert Seqs.Filter(p, s) == rest;
      }
    }
  }

  /** The survivors of a delete keep their relative order. */
  lemma DeleteKeepsOrder(a: seq<Task>, b: seq<Task>, id: string)
    ensures DeleteTask(a + b, id) == DeleteTask(a, id) + DeleteTask(b, id)
  {
    Seqs.FilterConcat(NotId(id), a, b);
  }

  /** Deleting an id nobody has changes nothing. */
  lemma DeleteAbsent(s: seq<Task>, id: string)
    requires !HasId(s, id)
    ensures DeleteTask(s, id) == s
  {
    Seqs.FilterAll(NotId(id), s);
  }

  /** Deleting a task just added under a fresh id undoes the add. */
  lemma DeleteUndoesAdd(s: seq<Task>, data: TaskData, id: string, now: int)
    requires !HasId(s, id)
    ensures DeleteTask(AddTask(s, data, id, now), id) == s
  {
    var r := AddTask(s, data, id, now);
    assert r == [r[0]] + s;
    DeleteKeepsOrder([r[0]], s, id);
    DeleteAbsent(s, id);
  }

  /** After a delete, toggling or deleting the same id again is a no-op. */
  lemma DeletedIdIsGone(s: seq<Task>, id: string)
    ensures ToggleTask(DeleteTask(s, id), id) == DeleteTask(s, id)
    ensures DeleteTask(DeleteTask(s, id), id) == DeleteTask(s, id)
  {
    ToggleAbsent(DeleteTask(s, id), id);
    DeleteAbsent(DeleteTask(s, id), id);
  }

  // ---------------------------------------------------------------------
  // clearCompleted

  /** `clearCompleted`: declined, nothing changes; confirmed, exactly the
      open tasks remain. */
  function ClearCompleted(s: seq<Task>, confirmed: bool): (r: seq<Task>)
    ensures !confirmed ==> r == s
    ensures confirmed ==> forall t :: t in r <==> t in s && !t.completed
    ensures confirmed ==> |r| + CompletedCount(s) == |s|
  {
    if confirmed then
      Seqs.FilterPartition(IsDone, IsPending, s);
      Seqs.Filter(IsPending, s)
    else s
  }

  /** Once cleared, no completed task is left. */
  lemma ClearLeavesNoneCompleted(s: seq<Task>)
    ensures CompletedCount(ClearCompleted(s, true)) == 0
  {
    var r := ClearCompleted(s, true);
    Seqs.FilterAll(IsPending, r);
    Seqs.FilterPartition(IsDone, IsPending, r);
  }

  /** The open tasks keep their relative order. */
  lemma ClearKeepsOrder(a: seq<Task>, b: seq<Task>)
    ensures ClearCompleted(a + b, true) == ClearCompleted(a, true) + ClearCompleted(b, true)
  {
    Seqs.FilterConcat(IsPending, a, b);
  }

  /** Clearing twice is clearing once. */
  lemma ClearIdempotent(s: seq<Task>)
    ensures ClearCompleted(ClearCompleted(s, true), true) == ClearCompleted(s, true)
  {
    Seqs.FilterIdempotent(IsPending, s);
  }

  /** Clearing a list without completed tasks changes nothing. */
  lemma ClearNothingDone(s: seq<Task>)
    requires forall t :: t in s ==> !t.completed
    ensures ClearCompleted(s, true) == s
  {
    Seqs.FilterAll(IsPending, s);
  }

  // ---------------------------------------------------------------------
  // updateTask

  function Overwrite(t: Task, target: string, data: TaskData): Task {
    if t.id == target then t.(title := data.title, date := data.date, time := data.time) else t
  }

  /** `updateTask`'s change to the collection: without a task being edited
      nothing changes; otherwise the tasks carrying the edited task's id get
      the form's title, date and time and keep their id, status, creation
      stamp and position, and all other tasks stay as they are. */
  function UpdateTask(s: seq<Task>, editing: Option<Task>, data: TaskData): (r: seq<Task>)
    ensures editing.None? ==> r == s
    ensures |r| == |s|
    ensures forall i :: 0 <= i < |s| ==>
              r[i].id == s[i].id && r[i].completed == s[i].completed && r[i].createdAt == s[i].createdAt
    ensures editing.Some? ==> forall i :: 0 <= i < |s| && s[i].id == editing.value.id ==>
              r[i].title == data.title && r[i].date == data.date && r[i].time == data.time
    ensures editing.Some? ==> forall i :: 0 <= i < |s| && s[i].id != editing.value.id ==> r[i] == s[i]
  {
    match editing
    case None => s
    case Some(e) => Seqs.Map(t => Overwrite(t, e.id, data), s)
  }

  /** Editing a task that was deleted meanwhile changes nothing. */
  lemma UpdateMissing(s: seq<Task>, e: Task, data: TaskData)
    requires !HasId(s, e.id)
    ensures UpdateTask(s, Some(e), data) == s
  {
    var r := UpdateTask(s, Some(e), data);
    assert forall i :: 0 <= i < |s| ==> r[i] == s[i];
  }

  /** Two collections whose tasks agree position by position on `completed`
      have the same completed count. */
  lemma {:induction false} SameStatusSameCount(s: seq<Task>, r: seq<Task>)
    requires |r| == |s|
    requires forall i :: 0 <= i < |s| ==> r[i].completed == s[i].completed
    ensures CompletedCount(r) == CompletedCount(s)
    decreases |s|
  {
    if |s| > 0 {
      assert s == [s[0]] + s[1..] && r == [r[0]] + r[1..];
      SameStatusSameCount(s[1..], r[1..]);
    }
  }

  /** Editing changes neither the ids nor the counters. */
  lemma UpdateKeepsIdsAndCounts(s: seq<Task>, editing: Option<Task>, data: TaskData)
    ensures Seqs.Map(Id, UpdateTask(s, editing, data)) == Seqs.Map(Id, s)
    ensures CompletedCount(UpdateTask(s, editing, data)) == CompletedCount(s)
  {
    SameStatusSameCount(s, UpdateTask(s, editing, data));
  }
}
