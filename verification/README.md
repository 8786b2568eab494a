# TaskLoom task list — a Dafny model

TaskLoom is a single-page task list. The app keeps one ordered collection of
tasks in memory. Users add, edit, complete, delete and bulk-clear tasks, and
they see a filtered, searched and sorted view of the collection with four
dashboard counters. Each task card shows an "Overdue" or "Soon" badge. One
form does both creating and editing.

This project models that core as pure functions over immutable values and
proves what the code promises about them:

- `types.dfy` (`Types`): the `Task` record, the form payload `TaskData`, and
  the `TaskFilter` enumeration. A date is a day number and a time is a
  minute of the day (`Minute`, 0..1439). The empty string of an unset date
  or time input is `None`, because the source tests both fields for
  truthiness.
- `seqs.dfy` (`Seqs`): `Array.prototype.filter` and `map` on sequences.
  Filter keeps order, membership and multiplicities and distributes over
  concatenation.
- `text.dfy` (`Text`): `trim` (the exact ECMAScript white-space set),
  `toLowerCase` (ASCII letters) and `includes`.
- `store.dfy` (`Store`): `addTask`, `updateTask`, `toggleTask`, `deleteTask`
  and `clearCompleted`. Each is a function from the collection before the
  state update to the collection after it.
- `view.dfy` (`View`): the `filteredTasks` pipeline and the dashboard
  counters.
  - The filter is the status filter combined with the case-insensitive
    search.
  - The sort comparator is modelled sign for sign. It is proved to be a
    total preorder equal to a lexicographic three-key order.
  - `sort` is a stable insertion sort whose result is a sorted permutation.
- `due.dfy` (`Due`): due instants and `getDueStatus`. The list order fills
  a missing time with 00:00 and the badge with 23:59; both defaults are
  kept.
- `form.dfy` (`TaskForm`): the form's initial fields, its sync effect and
  `handleSubmit` (trim validation, the emitted payload, reset in create
  mode only).
- `app.dfy` (`App`): the component as a state machine over user events. It
  routes submits to add or update, ends editing after an update, and keeps
  the invariant that ids are unique and titles are clean.
- `scenarios.dfy` (`Scenarios`): three concrete collections and the
  view derived from them. They cover the order B, A, C; 4 tasks with 1 done giving 25 %; and a
  search for "MILK".

Points where the model follows particular choices of the code:

- Loading a malformed stored value throws at `App.tsx:11`. Loading is not
  modelled, and no recovery path is invented.
- The badge fills a missing time with 23:59 (`components/TaskCard.tsx:15`),
  as `Due.BadgeInstant` does. The list order fills it with 00:00
  (`App.tsx:72-73`), as `Due.SortInstant` does.
- The non-empty-title check lives only in the form's `handleSubmit`;
  `addTask`/`updateTask` accept any title. `Store` does the same, and
  `App.SubmitForm` applies the form's check first.
- After an edit-mode submit (or a cancel), the form is not cleared. The sync
  effect only loads fields when a task is set, so the edited values stay in
  what is now the "Add New Task" form. `App.SubmitEdits` states this.

## Model

| member | source | states |
|---|---|---|
| Store.AddTask | App.tsx:22-29 | the result is one task longer; its head is a new open task with the given id, creation stamp, title, date and time; the old tasks follow unchanged and in order |
| Store.DeleteUndoesAdd | App.tsx:22-29 | deleting a task just added under a fresh id gives back the original collection (add and delete are inverse) |
| Store.AddKeepsUniqueIds | App.tsx:25 | adding under an id not in use keeps all ids distinct |
| Store.AddKeepsCompletedCount | App.tsx:26 | a new task is open, so the completed count is unchanged |
| Store.ToggleTask | App.tsx:41-44 | same length; at every position only `completed` may differ, and it flips exactly when the task's id matches |
| Store.ToggleTwice | App.tsx:41-44 | toggling the same id twice restores the collection |
| Store.ToggleAbsent | App.tsx:41-44 | toggling an id no task has is a no-op |
| Store.ToggleCompletedCount | App.tsx:41-44 | with unique ids, toggling a task moves the completed count by one, down if it was done and up if it was open |
| Store.DeleteTask | App.tsx:48-49 | no task with the id remains, every task with another id remains, and the list gets strictly shorter when the id was present |
| Store.DeleteKeepsOrder | App.tsx:48-49 | delete distributes over concatenation, so survivors keep their relative order |
| Store.DeleteAbsent | App.tsx:48-49 | deleting an absent id is a no-op |
| Store.DeletedIdIsGone | App.tsx:41-49 | after a delete, toggling or deleting the same id again is a no-op |
| Store.FilterKeepsUniqueIds | App.tsx:49 | removing tasks never creates a repeated id |
| Store.ClearCompleted | App.tsx:53-57 | declined, the collection is unchanged; confirmed, exactly the open tasks remain, and the length drops by the completed count |
| Store.ClearLeavesNoneCompleted | App.tsx:55 | after a confirmed clear the completed count is zero |
| Store.ClearKeepsOrder | App.tsx:55 | clearing distributes over concatenation, so open tasks keep their order |
| Store.ClearIdempotent | App.tsx:55 | clearing twice gives the same collection as clearing once |
| Store.ClearNothingDone | App.tsx:55 | clearing a collection with no completed task changes nothing |
| Store.UpdateTask | App.tsx:33-37 | with no task being edited nothing changes; otherwise tasks with the edited id get the payload's title, date and time and keep id, status, stamp and position, and every other task is unchanged |
| Store.UpdateMissing | App.tsx:35-37 | editing a task deleted meanwhile leaves the collection unchanged |
| Store.UpdateKeepsIdsAndCounts | App.tsx:35-37 | an update keeps the id sequence and the completed count |
| Store.SameStatusSameCount | App.tsx:81 | collections that agree position by position on `completed` have the same completed count |
| View.MatchesFilterCases | App.tsx:63-66 | `all` keeps every task, `active` exactly the open ones, `completed` exactly the done ones |
| View.EmptyQueryMatchesAll | App.tsx:67 | the empty query matches every title |
| View.SearchIgnoresCase | App.tsx:67 | queries equal after lower-casing select the same tasks |
| View.SearchIgnoresTitleCase | App.tsx:67 | lower-casing a title does not change whether it matches |
| View.CompareMeansNotAfter | App.tsx:70-76 | the comparator `View.Compare` is non-positive exactly when the pair is in lexicographic order: open before done, then earlier due instant with undated as +infinity, then newer creation first |
| View.CompareTotal | App.tsx:70-76 | every pair is comparable in at least one direction |
| View.CompareTransitive | App.tsx:70-76 | the comparator's order is transitive, so `sort` gets a consistent comparator |
| View.Insert | App.tsx:70 | inserting into a sorted list keeps it sorted and adds exactly one copy of the task |
| View.SortTasks | App.tsx:70-76 | the sorted list is in comparator order and is a permutation of its input |
| View.FilteredTasks | App.tsx:60-77 | the view is sorted and holds every copy of each task matching both the status filter and the search, and nothing else |
| View.DisplayOrder | App.tsx:70-76 | in the view, no done task precedes an open one; within a status, undated tasks follow dated ones, dated ones ascend by due instant, and tasks tied on due instant come newest first |
| View.ShowAll | App.tsx:60-69 | with filter `all` and an empty query the view is a permutation of the whole collection |
| View.Percent | App.tsx:83 | 0 for an empty list; otherwise the integer nearest to `100c/t`, with halves rounded up; always within 0..100, 0 when nothing is done, 100 when everything is |
| View.Stats | App.tsx:80-83 | total is the length, completed counts the done tasks, active counts the open tasks, active + completed = total, and efficiency is `Percent(completed, total)`, the rounded completion percentage: at most 100, 0 with no task or none done, 100 when all are done |
| Due.GetDueStatus | components/TaskCard.tsx:13-22 | no badge without a date or when completed; "Overdue" exactly when the badge instant is before now; "Soon" exactly when it is within the next 86 400 000 ms; the two are exclusive |
| Due.UrgencyMonotone | components/TaskCard.tsx:17-22 | as `now` grows, a card goes only from no badge to "Soon" to "Overdue", never back |
| Due.BadgeLaterThanSort | components/TaskCard.tsx:15 | without a time the badge instant is 23:59 of the date, 1439 minutes after the 00:00 the sort uses; with a time both use it |
| Due.InstantOrder | App.tsx:72-73 | the abstract due instant orders like the (day, minute) pair it comes from |
| Text.Trim | components/TaskForm.tsx:29-31 | the result is a slice of the input with only white space cut off both ends; it neither starts nor ends with white space; it is empty exactly when the input is all white space |
| Text.TrimIdempotent | components/TaskForm.tsx:31 | trimming a trimmed title changes nothing |
| Text.TrimFixedPoint | components/TaskForm.tsx:31 | `trim` leaves a string alone exactly when it is empty or starts and ends with a non-space |
| Text.Lower | App.tsx:67 | same length; each upper-case ASCII letter becomes its lower-case letter, every other character is kept, so no upper-case ASCII letter remains |
| Text.LowerIdempotent | App.tsx:67 | lower-casing twice is lower-casing once |
| Text.IncludesEmpty | App.tsx:67 | every string includes the empty string |
| TaskForm.InitialFields | components/TaskForm.tsx:13-15 | without a task the fields start empty; with one they start as its title, date and time |
| TaskForm.SyncFields | components/TaskForm.tsx:18-22 | a task being set overwrites all three fields, with a missing date or time becoming empty; no task leaves them unchanged |
| TaskForm.InitialIsSynced | components/TaskForm.tsx:13-22 | the initial fields equal what the sync effect loads into empty fields |
| TaskForm.HandleSubmit | components/TaskForm.tsx:27-38 | nothing is emitted exactly when the title is blank, and then the fields stay; otherwise the payload is the trimmed, non-empty title with date and time as entered; the fields are cleared in create mode and kept in edit mode |
| TaskForm.NoDoubleCreate | components/TaskForm.tsx:33-37 | in create mode a second submit right after a successful one emits nothing |
| TaskForm.EditResubmitSame | components/TaskForm.tsx:33 | in edit mode resubmitting emits the same payload and keeps the same fields |
| TaskForm.EmittedTitleTrimmed | components/TaskForm.tsx:31 | the emitted title is a fixed point of `trim` |
| App.Init | App.tsx:9-15 | at mount the collection is the stored one, the filter is `all`, the query is empty, nothing is being edited and the fields are empty |
| App.SettingsOnlyChangeView | App.tsx:61-66 | a filter or query change keeps the collection, and the shown list is the sorted, filtered view under the new filter or query |
| App.SubmitBlankIsNoop | components/TaskForm.tsx:29 | submitting a blank title leaves the whole app state unchanged |
| App.SubmitCreates | App.tsx:164 | a create-mode submit adds one open task with the trimmed title and the entered date and time; total rises by one, completed stays, and the form is cleared |
| App.SubmitEdits | App.tsx:33-38 | an edit-mode submit replaces the collection by `Store.UpdateTask` with the trimmed title and the date and time as entered, ends editing, and keeps the length and all counters; the form keeps the edited values |
| App.StepKeepsWellFormed | App.tsx:22-58 | every user event, as `App.Step` dispatches it (through `App.SubmitForm` for a submit), keeps ids unique and titles non-empty and trimmed, provided a submit brings an unused id |
| Scenarios.DisplayOrderExample | App.tsx:70-76 | open undated A, open dated B and done dated C display as B, A, C |
| Scenarios.DashboardExample | App.tsx:80-83 | four tasks with one done give total 4, active 3, completed 1, efficiency 25 |
| Scenarios.SearchExample | App.tsx:67 | the query "MILK" matches "Buy milk" and not "Walk dog" |
| Scenarios.SearchViewExample | App.tsx:60-69 | under filter `all` or `active`, "MILK" shows exactly the "Buy milk" task |

## Left out

- Persistence is not modelled (`localStorage` read and `JSON.parse` at mount, `JSON.stringify` and write after every change). `App.Init` takes the stored collection as a parameter. The source does not catch a parse error, so no silent recovery is modelled.
- `crypto.randomUUID()` and `Date.now()` are the parameters of the `Submit` event. Id freshness is a precondition only where a lemma needs it (`Store.DeleteUndoesAdd`, `Store.AddKeepsUniqueIds`, `App.AddKeepsWellFormed`, `App.StepKeepsWellFormed`).
- `confirm()` is the boolean `confirmed` argument of `Store.ClearCompleted`.
- Date and time parsing is not modelled (`new Date(...)`, local time zone, daylight saving, `toLocaleDateString`). A date is a day number and a time a minute of the day. An unparseable date cannot be expressed (a NaN instant: the card shows no badge because both `diff <` tests fail, and the comparator returns NaN, which `sort` reads as a tie). Day numbers count from 1970-01-01 and are natural numbers, so a due date before 1970 cannot be expressed either, although the date input accepts one and its badge would read "Overdue".
- Text.Lower: only ASCII letters are folded. JavaScript's `toLowerCase` folds all of Unicode, so the search is modelled exactly only for ASCII titles and queries.
- View.Percent: the integer nearest to `100c/t`, halves up, in exact arithmetic. `Math.round` acts on a floating-point product, and agreement at .5 boundaries is not claimed.
- View.SortTasks: the contract says "sorted permutation" and does not state stability. The insertion sort is stable, like `Array.prototype.sort`, but that is not proved.
- App.Step: the `Edit` event always reloads the fields. React re-runs the effect only when the `initialData` object changes, so re-editing the identical task object keeps typed-in changes in the source.
- The "Clear Archive" button only shows when something is completed (`App.tsx:175`). `ClearArchive` is accepted in every state, and with nothing completed it is a no-op (`Store.ClearNothingDone`).
- Presentation is not modelled: JSX rendering, styling, the `statPulse` animation counter, click propagation on the card, input focus, and `components/EmptyState.tsx`.
