/**
 The entry/edit form as a small state machine over its three field values.
 An empty date or time input is `None`.
 */
module TaskForm {
  import opened Types
  import Text

  datatype Fields = Fields(title: string, date: Option<nat>, time: Option<Minute>)

  const Blank: Fields := Fields("", None, None)

  /** The fields a task loads into the form. */
  function FieldsOf(t: Task): Fields {
    Fields(t.title, t.date, t.time)
  }

  /** The initial field state: the task being edited, or empty fields. */
  function InitialFields(initial: Option<Task>): (f: Fields)
    ensures initial.None? ==> f == Blank
    ensures initial.Some? ==> f.title == initial.value.title
    ensures initial.Some? ==> f.date == initial.value.date && f.time == initial.value.time
  {
    match initial
    case None => Blank
    // `x || ''` maps the empty string to itself, so a task's fields load as they are.
    case Some(t) => FieldsOf(t)
  }

  /** The effect that runs when the task being edited changes: a task
      overwrites all three fields, no task leaves them as they are. */
  function SyncFields(f: Fields, initial: Option<Task>): (r: Fields)
    ensures initial.None? ==> r == f
    ensures initial.Some? ==> r == FieldsOf(initial.value)
  {
    match initial
    case None => f
    case Some(t) => Fields(t.title, t.date, t.time)
  }

  /** Mounting with some task gives the fields the effect would load. */
  lemma InitialIsSynced(f: Fields, initial: Option<Task>)
    ensures initial.Some? ==> InitialFields(initial) == SyncFields(f, initial)
    ensures InitialFields(initial) == SyncFields(Blank, initial)
  {
  }

  datatype SubmitResult = SubmitResult(fields: Fields, emitted: Option<TaskData>)

  /** `handleSubmit`: a blank title emits nothing and changes nothing;
      otherwise the trimmed title with the date and time as they are is
      emitted, and the fields are cleared in create mode and kept in edit
      mode. */
  function HandleSubmit(f: Fields, isEditing: bool): (r: SubmitResult)
    ensures r.emitted.None? <==> Text.AllSpace(f.title)
    ensures r.emitted.None? ==> r.fields == f
    ensures r.emitted.Some? ==>
              && r.emitted.value.title == Text.Trim(f.title)
              && r.emitted.value.title != ""
              && !Text.IsSpace(r.emitted.value.title[0])
              && !Text.IsSpace(r.emitted.value.title[|r.emitted.value.title| - 1])
              && r.emitted.value.date == f.date
              && r.emitted.value.time == f.time
    ensures r.emitted.Some? && !isEditing ==> r.fields == Blank
    ensures isEditing ==> r.fields == f
  {
    var title := Text.Trim(f.title);
    if title == "" then SubmitResult(f, None)
    else
      SubmitResult(if isEditing then f else Blank, Some(TaskData(title, f.date, f.time)))
  }

  /** In create mode a second submit right after a successful one emits
      nothing: the form was cleared. */
  lemma NoDoubleCreate(f: Fields)
    requires !Text.AllSpace(f.title)
    ensures HandleSubmit(HandleSubmit(f, false).fields, false).emitted.None?
  {
  }

  /** In edit mode resubmitting emits the same payload again. */
  lemma EditResubmitSame(f: Fields)
    ensures HandleSubmit(HandleSubmit(f, true).fields, true) == HandleSubmit(f, true)
  {
  }

  /** The emitted title is already trimmed. */
  lemma EmittedTitleTrimmed(f: Fields, isEditing: bool)
    requires HandleSubmit(f, isEditing).emitted.Some?
    ensures Text.Trim(HandleSubmit(f, isEditing).emitted.value.title)
            == HandleSubmit(f, isEditing).emitted.value.title
  {
    Text.TrimIdempotent(f.title);
  }
}
