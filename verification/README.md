# Kanban transition engine

A Dafny model of the task board's column-transition engine and of the pure
logic around it.

The board has four columns: `todo`, `progress`, `incomplete` and `done`. When
a task is dropped on a column, the engine checks deadline guards in a fixed
order:

- Constraint A: a task due strictly after now may not enter `incomplete`.
- Constraint B: leaving `incomplete` for a work column is deferred.
- Constraint B-2: leaving `done` for a work column is deferred while the task
  is overdue.
- C, the default: the move is applied.

A deferred move is a "rescue". The target column waits in one board-wide
pending slot until the editor is saved with a due date in the future. Saving
then moves the task, clears its lateness and empties the slot. A move that is
applied appends one history entry and recomputes `lateStatus`.

The files:

- `kanban.dfy` (module `Kanban`): columns, lateness, teams, history entries and
  task records. A column id is a string in the code. The type `Column` keeps
  one value per string: `Other(name)` never carries the name of one of the
  four board columns.
- `event_handlers.dfy` (module `EventHandlers`): the engine. The class
  `TaskBoard` holds the task store (`map<int, Task>`) and the pending slot.
  Its methods `Drop`, `SaveTask`, `EditClick`, `OpenCreateForm` and `Delete`
  are proved against the pure functions `Decide`, `MoveTask`, `SaveDecision`,
  `RescueTask`, `UpdateTask` and `NewTask`. The guard lemmas are stated about
  those functions.
- `ui.dfy` (module `BoardView`): the non-DOM logic of the board and analytics
  views. This covers the partition loop of `renderBoard`, the filter, the
  missed flag, the status tag, avatar initials, the on-time percentage and the
  newest-first activity log.
- `utils.dfy` (module `Validation`): `validateTask` and `isEmptyOrWhitespace`.
- `js_string.dfy` (module `JsString`): the JavaScript string operations the
  above rely on: `toLowerCase`, `includes`, `join`, `split(' ')` and `trim`.
- `scenarios.dfy` (module `Scenarios`): multi-step runs of a `TaskBoard`,
  proved from the engine's contracts alone.

Time is an integer, and a due date is `Option<int>`. The signed-in user, the
clock and the id of a newly created task are parameters. `alert`, `confirm`
and `openModal` are replaced by returned outcomes and a `confirmed` flag.

The model follows the code where it differs from what its own alert texts
and comments say (modules/event-handlers.js:57-59, :105):

- An undated task passes Constraint A. `deadline && deadline > now` is false
  when there is no deadline, so such a task may be dropped into `incomplete`
  (`IncompleteEntryGuard`).
- A due date equal to `now` is not rejected by Constraint A. It is also not
  overdue for Constraint B-2, which needs `deadline < now`.
- Opening a task from "Edit" does not clear a pending rescue.
- A save that creates a task, or whose id is not in the store, also leaves a
  pending rescue in place.
- As a result, an abandoned rescue is applied to whichever existing task is
  saved next with a future due date (`StaleRescueMovesAnotherTask`). A
  completed rescue empties the slot. Of the ways to abandon a rescue, only
  opening the creation form clears it (`CreationFormCancelsRescue`).
- The save path checks only that the title is non-empty. It does not call
  `validateTask`.

## Model

| member | source | states |
|---|---|---|
| `EventHandlers.SelectedValues` | modules/event-handlers.js:11 | the selected team never contains "Unassigned", is no longer than the option list, and holds only values of selected options |
| `EventHandlers.SelectedTeam` | modules/event-handlers.js:8-12 | without a team select the team is exactly ["Unassigned"]; with one it never contains "Unassigned" |
| `EventHandlers.SelectedValuesComplete` | modules/event-handlers.js:11 | every selected option other than "Unassigned" contributes its value |
| `EventHandlers.SelectedValuesAppend` | modules/event-handlers.js:11 | selection order is kept: the values of two concatenated option lists are the first list's values followed by the second's |
| `EventHandlers.Decide` | modules/event-handlers.js:97-141 | a drop is ignored exactly when the target is the task's own column |
| `EventHandlers.IncompleteEntryGuard` | modules/event-handlers.js:103-108 | a drop into incomplete is refused iff the due date exists and is strictly after now; otherwise it is applied; an undated task is always let in |
| `EventHandlers.IncompleteExitDeferred` | modules/event-handlers.js:111-116 | leaving incomplete for todo or progress is always deferred into a rescue |
| `EventHandlers.IncompleteExitByName` | modules/event-handlers.js:111-116 | the guard is keyed on the column string: any task whose column id reads "incomplete" is deferred when dropped on todo or progress |
| `Kanban.ColumnNameInjective` | modules/event-handlers.js:97-141 | two column values are equal iff their column strings are, so comparing values is comparing the code's strings |
| `EventHandlers.DoneExitGuard` | modules/event-handlers.js:119-126 | leaving done for todo or progress is deferred iff the due date exists and is strictly before now; otherwise it is an ordinary move |
| `EventHandlers.UnguardedMoves` | modules/event-handlers.js:102-141 | drops into done, and moves from todo or progress to any column but incomplete, are always applied |
| `EventHandlers.LateAfterMove` | modules/event-handlers.js:133-138 | entering done sets late_done iff the due date exists and now is past it; entering any column except done and incomplete gives none; entering incomplete keeps the flag; so late_done after a move means the target is done or the task was already late_done |
| `EventHandlers.MoveTask` | modules/event-handlers.js:129-141 | the moved task is in the target column; its history is the old history plus exactly one "Moved to target" entry at the end; every other field except lateStatus is unchanged |
| `EventHandlers.SaveDecision` | modules/event-handlers.js:20-50 | a save is refused with "Title required" iff the title is empty; with a rescue pending, a titled save is refused iff the due date is missing or not strictly after now, and without one the due date is never checked; a rescue happens iff a target is pending, the title is set, the due date is in the future and the id is in the store; an edit iff no target is pending, the title is set and the id is in the store; nothing is written iff the title is set, the due check passes and the id is not in the store; a creation iff the title is set, the due check passes and there is no id |
| `EventHandlers.RescueTask` | modules/event-handlers.js:37-43 | a rescued task takes the editor's title, team and due date, moves to the pending target with lateStatus none, and gains exactly one "Rescued to target (Date Updated)" entry at the end |
| `EventHandlers.UpdateTask` | modules/event-handlers.js:37-46 | an edited task takes the editor's title, team and due date, keeps its column and lateStatus, and gains exactly one "Updated" entry at the end |
| `EventHandlers.NewTask` | modules/event-handlers.js:50 | a created task is in todo with lateStatus none and an empty history |
| `EventHandlers.RescuedTaskIsOnTime` | modules/event-handlers.js:23-42 | right after a rescue the task cannot be dropped back into incomplete, and a drop into done classifies it as on time |
| `EventHandlers.TaskBoard.constructor` | modules/event-handlers.js:5 | a board starts with the given store and no pending rescue |
| `EventHandlers.TaskBoard.Drop` | modules/event-handlers.js:87-142 | an unknown id, a drop outside a column, a drop on the task's own column, or a refused drop leaves the store and the slot as they were; a deferral writes only the slot; an applied move writes only that task, as MoveTask gives it; histories only grow; board columns stay board columns |
| `EventHandlers.TaskBoard.SaveTask` | modules/event-handlers.js:14-54 | the outcome follows SaveDecision; a refusal or an unknown id changes nothing; a rescue writes RescueTask and clears the slot; an edit writes UpdateTask; a creation adds NewTask under the new id and keeps the slot; keys are never lost |
| `EventHandlers.TaskBoard.EditClick` | modules/event-handlers.js:56-65 | returns the stored task iff the id is in the store, and changes nothing, including the pending slot |
| `EventHandlers.TaskBoard.OpenCreateForm` | modules/event-handlers.js:73-76 | opening the creation form always empties the pending slot, touches nothing else, and keeps the board invariant |
| `EventHandlers.TaskBoard.Delete` | modules/event-handlers.js:67-71 | a confirmed delete removes exactly that id; an unconfirmed one changes nothing |
| `Scenarios.ExpiredTaskRescue` | modules/event-handlers.js:103-141 | an overdue task enters incomplete; dropping it back onto a work column is only deferred; saving with a future due date lands it there with lateStatus none; its old history is kept as a prefix, followed by exactly two new entries, "Moved to incomplete" then "Rescued to target (Date Updated)" |
| `Scenarios.StaleRescueMovesAnotherTask` | modules/event-handlers.js:56-65 | a pending rescue survives a creation and an Edit click, and is then applied to a different task |
| `Scenarios.CreationFormCancelsRescue` | modules/event-handlers.js:73-76 | after the creation form was opened, saving the deferred task is an ordinary update that leaves it in incomplete |
| `BoardView.EmptyFilterMatchesAll` | modules/ui.js:7 | the empty filter matches every task |
| `BoardView.FilterIgnoresCase` | modules/ui.js:7 | a filter matches exactly the tasks its lower-cased form matches |
| `BoardView.InColumnSound` | modules/ui.js:5-13 | a column list holds only tasks of the input that are in that column and match the filter |
| `BoardView.InColumnSnoc` | modules/ui.js:5-11 | walking one more task appends it to its column's list iff it matches the filter, and leaves every other list unchanged |
| `BoardView.InColumnComplete` | modules/ui.js:8-10 | every matching task appears in the list of its own column |
| `BoardView.InColumnAppend` | modules/ui.js:5-13 | input order is kept: the list for a concatenation is the list for the first part followed by the list for the second |
| `BoardView.ColumnSizesBound` | modules/ui.js:2-13 | the four column lists together are no longer than the task list |
| `BoardView.PerColumn.Get` | modules/ui.js:2-3 | `cols` and `counts` have an own property for exactly the four board columns |
| `BoardView.PerColumn.Set` | modules/ui.js:9-10 | updating one board column's property sets that property and leaves the other columns' properties as they were |
| `BoardView.RenderBoard` | modules/ui.js:2-13 | the walk throws iff some matching task's column names a property every object inherits (`constructor`, `toString`, `__proto__`, ...), since `cols[t.col]` is then truthy but has no `push`; otherwise, for each board column, the loop leaves that column's list equal to InColumn for it and its count equal to that list's length, so a task with any other column is pushed nowhere, and the four counts sum to at most the number of tasks |
| `BoardView.Tag` | modules/ui.js:28-32 | a card has a status tag iff it is missed; it is "Late Done" iff the task is not in incomplete and is late_done, so "Late" takes precedence |
| `BoardView.CardFor` | modules/ui.js:25-39 | the card's missed class is the missed predicate, its tag is Tag's (present iff it is missed), and its avatars are Avatars of the team, at least one |
| `BoardView.AvatarTeam` | modules/ui.js:51 | a non-empty member list is drawn as it is; an empty list or a plain-string team is drawn as ["Unassigned"] |
| `BoardView.Avatars` | modules/ui.js:52-55 | one set of initials per drawn member, in team order |
| `BoardView.FirstCharsOfSplit` | modules/ui.js:53 | the first characters of the pieces of split(' ') are exactly the characters that begin a word |
| `BoardView.Initials` | modules/ui.js:53 | "Unassigned" is drawn as "?"; any other member's initials are exactly the characters that begin its words (a non-space at the start or after a space); they never contain a space |
| `BoardView.WordStartsNoSpace` | modules/ui.js:53 | no character that begins a word is a space |
| `BoardView.MissedList` | modules/ui.js:62 | the missed list holds only missed tasks of the input |
| `BoardView.MissedListIsCardFlag` | modules/ui.js:28 | a task is in the analytics missed list iff its card is flagged missed |
| `BoardView.OnTimeSplit` | modules/ui.js:61 | done tasks split into on-time and late-done ones, so on-time completions never exceed completions |
| `BoardView.OnTimePercent` | modules/ui.js:68 | 0 with nothing done; otherwise the whole number nearest to 100 × on-time / done, with halves rounded up; it lies in 0..100 when on-time ≤ done |
| `BoardView.UpdateAnalytics` | modules/ui.js:59-77 | the total is the task count; the missed list is MissedList and the late count its length; the on-time percentage is OnTimePercent of the on-time and done counts, so it lies in 0..100 and is 0 with nothing done |
| `BoardView.Reverse` | modules/ui.js:143 | the copy has the same length, with entry i equal to entry n-1-i of the history |
| `BoardView.ReverseReverse` | modules/ui.js:143 | reversing twice gives the history back |
| `BoardView.ActivityLog` | modules/ui.js:140-146 | "No activity." iff the history is missing or empty; otherwise the newest entry comes first and the log reversed is the history itself |
| `Validation.IsEmptyOrWhitespace` | js/utils.js:104-110 | true for every non-string, and for a string iff every character is white space |
| `Validation.ReportedInOrder` | js/utils.js:54-75 | the title, status, priority and due-date errors are pushed in that order, each at most once |
| `Validation.ReportedExactly` | js/utils.js:54-75 | exactly the failing checks are reported, the data error never is after the data check, and the list is empty iff no check fails |
| `Validation.MessagesDistinct` | js/utils.js:50-73 | the five error messages are pairwise distinct |
| `Validation.ValidateTask` | js/utils.js:45-81 | absent data gives exactly the one error "Task data is required". Otherwise: the title error iff the title is absent, not a string or only white space; the status error iff a truthy status is not todo/in-progress/complete; the priority error iff a truthy priority is not high/medium/low; the due-date error iff a supplied due date does not parse. Errors are in check order, at most one of each, and isValid holds iff there are none |
| `JsString.Lower` | modules/ui.js:7 | lowering keeps the length |
| `JsString.LowerPointwise` | modules/ui.js:7 | lowering lowers each character on its own |
| `JsString.LowerIdempotent` | modules/ui.js:7 | lowering twice is lowering once |
| `JsString.ContainsBasics` | modules/ui.js:7 | "".includes holds in every string, and a contained string is never longer than its container |
| `JsString.ContainsAt` | modules/ui.js:7 | includes holds iff the pattern occurs at some index of the string |
| `JsString.Split` | modules/ui.js:53 | split(' ') gives at least one piece and no piece contains a space |
| `JsString.JoinSplit` | modules/ui.js:53 | joining the pieces of split(' ') with a space gives the string back |
| `JsString.AllWhitespaceAt` | js/utils.js:109 | the recursive "all white space" agrees with "every index holds a white-space character" |
| `JsString.AllWhitespaceConcat` | js/utils.js:109 | a concatenation is all white space iff both parts are |
| `JsString.TrimStart` | js/utils.js:109 | the result is a suffix and what was cut is all white space; it is empty iff the string is all white space; otherwise it starts with a character that is not white space |
| `JsString.TrimEnd` | js/utils.js:109 | the result is a prefix and what was cut is all white space; it is empty iff the string is all white space; otherwise it ends with a character that is not white space |
| `JsString.Trim` | js/utils.js:109 | the string is a white-space prefix, then the result, then a white-space suffix; the result is empty iff the string is all white space; otherwise it starts and ends with a character that is not white space, so exactly the leading and trailing white space is cut |

## Left out

- DOM and rendering are not modelled. This covers card and avatar HTML,
  `innerHTML`/`innerText` writes, `switchView`, `toggleTheme`,
  `toggleSidebar`, `openModal`/`closeModal` and the element lookups. They are
  user-interface effects with nothing to state.
- `renderChart` is not modelled. It is canvas drawing with floating-point
  angles. The counts that `renderBoard` passes to `updateAnalytics` only feed
  this chart.
- `alert` and `confirm` become outcome values and a `confirmed` parameter.
- `openModal(t)` after a deferred drop is the `RescueRequested` outcome.
- The drag-and-drop plumbing (`handleDragStart`, `handleDragOver`,
  `dataTransfer`, `closest('.column')`) becomes the task id and an optional
  target column.
- `store.js` is not part of this model. The store is a map from id to task.
  Two consequences:
  - Duplicate ids in the store's array, where `find` returns the first match,
    are not represented.
  - A create whose clock id collides with an existing id overwrites that
    entry.
- The sharing of one `history` array between the store and the copy made by
  `{ ...t }` is not modelled. Histories are values.
- Date parsing and formatting are not modelled: `new Date(...)`,
  `toLocaleDateString`, `formatDate` and `createCard`'s date string.
  - Due dates are integer timestamps or absent.
  - An unparseable due-date string is not represented. The date input yields
    either an empty string or a valid date. In the code, an Invalid Date acts
    as "no deadline" when dropping but would pass the rescue check when saving.
  - In `validateTask`, parseability is a parameter.
- One `now` stands for both `new Date()` and `Date.now()` within a call.
- `generateId` is not modelled. It depends on time and randomness.
- `sanitizeInput` is not modelled. It relies on the browser's HTML encoding.
- `getContrastRatio` is not modelled. It uses floating-point luminance.
- `JsString.Lower`: models `toLowerCase` for ASCII letters only. Other
  characters are left unchanged, so the model's filter is case-insensitive
  only for ASCII letters.
- `BoardView.OnTimePercent`: computes `Math.round(onTime / done * 100)` in
  exact integer arithmetic. A floating-point product that lands just below or
  above a half can round differently in the code.
- A task record whose `lateStatus` is neither 'none' nor 'late_done' is not
  represented. Neither is one whose `team` is missing.
- A task record without a `history` array is not represented: every task
  carries a (possibly empty) history. In the code, a drop gives such a record
  a fresh history (modules/event-handlers.js:130), while a save throws on
  `history.push` (modules/event-handlers.js:42 and :45), writing nothing and
  leaving the pending rescue armed. The model's saves always succeed.
- `BoardView.Initials`: strings are sequences of Unicode scalar values, not
  of UTF-16 code units. For a word that begins outside the Basic Multilingual
  Plane, `n[0]` (modules/ui.js:53) is a lone surrogate, while `FirstChars`
  and `Initials` give the whole character.
- Ids are integers. The code's loose comparison `t.id == id` between a numeric
  id and the id string is taken as equality.
