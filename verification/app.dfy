/**
 The application component as a state machine: the collection, the view
 settings, the task being edited and the form fields, driven by the user's
 events. Storage is outside the model: the collection read at mount time is
 a parameter.
 */
module App {
  import opened Types
  import Text
  import Store
  import View
  import TaskForm

  datatype AppState = AppState(
    tasks: seq<Task>,
    filter: TaskFilter,
    query: string,
    editing: Option<Task>,
    form: TaskForm.Fields)

  /** Mounting: the stored collection, filter `All`, no query, nothing being
      edited, empty form fields. */
  function Init(saved: seq<Task>): (st: AppState)
    ensures st.tasks == saved && st.filter == All && st.query == ""
    ensures st.editing.None? && st.form == TaskForm.Blank
  {
    AppState(saved, All, "", None, TaskForm.InitialFields(None))
  }

  /** What the user can do. `Submit` carries the values `crypto.randomUUID()`
      and `Date.now()` would produce, `ClearArchive` the answer to the
      confirmation prompt. */
  datatype Event =
    | Submit(newId: string, now: int)
    | Edit(task: Task)
    | CancelEdit
    | Toggle(id: string)
    | Delete(id: string)
    | ClearArchive(confirmed: bool)
    | SetFilter(filter: TaskFilter)
    | SetQuery(query: string)

  /** Form submission: the form routes its payload to `updateTask` while a
      task is being edited and to `addTask` otherwise. */
  function SubmitForm(st: AppState, newId: string, now: int): AppState {
    var res := TaskForm.HandleSubmit(st.form, st.editing.Some?);
    match res.emitted
    case None => st
    case Some(data) =>
      if st.editing.Some? then
        st.(tasks := Store.UpdateTask(st.tasks, st.editing, data), editing := None, form := res.fields)
      else
        st.(tasks := Store.AddTask(st.tasks, data, newId, now), form := res.fields)
  }

  function Step(st: AppState, e: Event): AppState {
    match e
    case Submit(newId, now) => SubmitForm(st, newId, now)
    case Edit(t) => st.(editing := Some(t), form := TaskForm.SyncFields(st.form, Some(t)))
    case CancelEdit => st.(editing := None)
    case Toggle(id) => st.(tasks := Store.ToggleTask(st.tasks, id))
    case Delete(id) => st.(tasks := Store.DeleteTask(st.tasks, id))
    case ClearArchive(confirmed) => st.(tasks := Store.ClearCompleted(st.tasks, confirmed))
    case SetFilter(f) => st.(filter := f)
    case SetQuery(q) => st.(query := q)
  }

  /** The list the user sees. */
  function Visible(st: AppState): seq<Task> {
    View.FilteredTasks(st.tasks, st.filter, st.query)
  }

  /** Changing the filter or the query leaves the collection alone, and the
      list shown is the view of the new settings. */
  lemma SettingsOnlyChangeView(st: AppState, e: Event)
    requires e.SetFilter? || e.SetQuery?
    ensures Step(st, e).tasks == st.tasks
    ensures e.SetFilter? ==> Visible(Step(st, e)) == View.FilteredTasks(st.tasks, e.filter, st.query)
    ensures e.SetQuery? ==> Visible(Step(st, e)) == View.FilteredTasks(st.tasks, st.filter, e.query)
  {
    match e
    case SetFilter(f) =>
      assert Step(st, e) == st.(filter := f);
    case SetQuery(q) =>
      assert Step(st, e) == st.(query := q);
  }

  /** A blank title submits nothing: the whole state is unchanged. */
  lemma SubmitBlankIsNoop(st: AppState, newId: string, now: int)
    requires Text.AllSpace(st.form.title)
    ensures Step(st, Submit(newId, now)) == st
  {
  }

  /** A create-mode submit adds exactly one open task, with the trimmed
      title and the date and time as entered, and clears the form. */
  lemma SubmitCreates(st: AppState, newId: string, now: int)
    requires st.editing.None? && !Text.AllSpace(st.form.title)
    ensures var st' := Step(st, Submit(newId, now));
      && |st'.tasks| == |st.tasks| + 1
      && st'.tasks[1..] == st.tasks
      && st'.tasks[0].title == Text.Trim(st.form.title)
      && st'.tasks[0].date == st.form.date && st'.tasks[0].time == st.form.time
      && !st'.tasks[0].completed
      && View.Stats(st'.tasks).total == View.Stats(st.tasks).total + 1
      && View.Stats(st'.tasks).completed == View.Stats(st.tasks).completed
      && st'.form == TaskForm.Blank
  {
    var st' := Step(st, Submit(newId, now));
    var data := TaskForm.HandleSubmit(st.form, false).emitted.value;
    Store.AddKeepsCompletedCount(st.tasks, data, newId, now);
  }

  /** An edit-mode submit applies the trimmed payload to the edited task,
      keeps the number of tasks and the counters, ends editing, and leaves
      the edited values in the fields: the form is not cleared, and the
      effect only loads fields when a task is set. */
  lemma SubmitEdits(st: AppState, newId: string, now: int)
    requires st.editing.Some? && !Text.AllSpace(st.form.title)
    ensures var st' := Step(st, Submit(newId, now));
      && st'.editing.None?
      && |st'.tasks| == |st.tasks|
      && st'.tasks == Store.UpdateTask(st.tasks, st.editing, TaskData(Text.Trim(st.form.title), st.form.date, st.form.time))
      && View.Stats(st'.tasks) == View.Stats(st.tasks)
      && st'.form == st.form
  {
    var data := TaskForm.HandleSubmit(st.form, true).emitted.value;
    Store.UpdateKeepsIdsAndCounts(st.tasks, st.editing, data);
  }

  /** A title as the form emits it: non-empty, and neither starting nor
      ending with white space. */
  predicate CleanTitle(s: string) {
    s != "" && !Text.IsSpace(s[0]) && !Text.IsSpace(s[|s| - 1])
  }

  /** The collection invariant the store keeps: unique ids and clean titles. */
  predicate WellFormed(s: seq<Task>) {
    UniqueIds(s) && forall i :: 0 <= i < |s| ==> CleanTitle(s[i].title)
  }

  /** Every event keeps the collection well formed, provided a submit comes
      with an id that is not in use. */
  lemma StepKeepsWellFormed(st: AppState, e: Event)
    requires WellFormed(st.tasks)
    requires e.Submit? ==> !HasId(st.tasks, e.newId)
    ensures WellFormed(Step(st, e).tasks)
  {
    match e
    case Submit(newId, now) =>
      var res := TaskForm.HandleSubmit(st.form, st.editing.Some?);
      if res.emitted.Some? {
        if st.editing.None? {
          AddKeepsWellFormed(st.tasks, res.emitted.value, newId, now);
        } else {
          UpdateKeepsWellFormed(st.tasks, st.editing, res.emitted.value);
        }
      }
    case Toggle(id) =>
      ToggleKeepsWellFormed(st.tasks, id);
    case Delete(id) =>
      Store.FilterKeepsUniqueIds(Store.NotId(id), st.tasks);
      SubsetKeepsCleanTitles(st.tasks, Step(st, e).tasks);
    case ClearArchive(confirmed) =>
      if confirmed {
        Store.FilterKeepsUniqueIds(IsPending, st.tasks);
        SubsetKeepsCleanTitles(st.tasks, Step(st, e).tasks);
      }
    case _ =>
  }

  lemma AddKeepsWellFormed(s: seq<Task>, data: TaskData, id: string, now: int)
    requires WellFormed(s) && !HasId(s, id) && CleanTitle(data.title)
    ensures WellFormed(Store.AddTask(s, data, id, now))
  {
    var r := Store.AddTask(s, data, id, now);
    Store.AddKeepsUniqueIds(s, data, id, now);
    forall i | 0 <= i < |r|
      ensures CleanTitle(r[i].title)
    {
      if i > 0 {
        assert r[i] == s[i - 1];
      }
    }
  }

  lemma UpdateKeepsWellFormed(s: seq<Task>, editing: Option<Task>, data: TaskData)
    requires WellFormed(s) && CleanTitle(data.title)
    ensures WellFormed(Store.UpdateTask(s, editing, data))
  {
    var r := Store.UpdateTask(s, editing, data);
    assert forall i :: 0 <= i < |s| ==> r[i].id == s[i].id;
    forall i | 0 <= i < |r|
      ensures CleanTitle(r[i].title)
    {
      assert r[i].title == s[i].title || r[i].title == data.title;
    }
  }

  lemma ToggleKeepsWellFormed(s: seq<Task>, id: string)
    requires WellFormed(s)
    ensures WellFormed(Store.ToggleTask(s, id))
  {
    var r := Store.ToggleTask(s, id);
    assert forall i :: 0 <= i < |s| ==> r[i].id == s[i].id && r[i].title == s[i].title;
  }

  lemma SubsetKeepsCleanTitles(s: seq<Task>, r: seq<Task>)
    requires WellFormed(s) && UniqueIds(r) && forall t :: t in r ==> t in s
    ensures WellFormed(r)
  {
    forall i | 0 <= i < |r|
      ensures CleanTitle(r[i].title)
    {
      assert r[i] in s;
    }
  }
}
