/** The column-transition engine behind drag-and-drop and the task editor:
    deadline guards on a drop, the two-step "rescue" of an expired task,
    and the save path that creates or edits a task. */
module EventHandlers {
  import opened Kanban

  /** One `<option>` of the team `<select>` element. */
  datatype TeamOption = TeamOption(value: string, selected: bool)

  /** The values of the selected options other than the sentinel, in the
      order the options appear. */
  function SelectedValues(options: seq<TeamOption>): (values: seq<string>)
    ensures Unassigned !in values
    ensures |values| <= |options|
    ensures forall v :: v in values ==> TeamOption(v, true) in options
  {
    if options == [] then []
    else
      var o := options[|options| - 1];
      SelectedValues(options[..|options| - 1])
        + (if o.selected && o.value != Unassigned then [o.value] else [])
  }

  /** The team chosen in the editor; `None` when the page has no team
      `<select>`, in which case the sentinel team is returned. */
  function SelectedTeam(select: Option<seq<TeamOption>>): (team: seq<string>)
    ensures select.None? ==> team == [Unassigned]
    ensures select.Some? ==> Unassigned !in team && |team| <= |select.value|
  {
    match select
    case None => [Unassigned]
    case Some(options) => SelectedValues(options)
  }

  /** Every selected option other than the sentinel contributes its value. */
  lemma {:induction false} SelectedValuesComplete(options: seq<TeamOption>, k: nat)
    requires k < |options| && options[k].selected && options[k].value != Unassigned
    ensures options[k].value in SelectedValues(options)
  {
    if k < |options| - 1 {
      SelectedValuesComplete(options[..|options| - 1], k);
    }
  }

  /** Selection order is kept: the values of a concatenation of option lists
      are the values of the first list followed by those of the second. */
  lemma {:induction false} SelectedValuesAppend(a: seq<TeamOption>, b: seq<TeamOption>)
    ensures SelectedValues(a + b) == SelectedValues(a) + SelectedValues(b)
  {
    if b == [] {
      assert a + b == a;
    } else {
      var n := |b| - 1;
      assert (a + b)[..|a + b| - 1] == a + b[..n];
      assert (a + b)[|a + b| - 1] == b[n];
      SelectedValuesAppend(a, b[..n]);
    }
  }

  /** How a drop ends. `NotExpired` is the alert "Only expired tasks can be
      moved to Incomplete."; `RescueRequested` opens the editor on the task
      with the alert "Task is expired! Update the Due Date ...". */
  datatype DropOutcome = Ignored | NotExpired | RescueRequested | Moved

  /** A target the rescue protocol applies to. */
  predicate IsWorkColumn(c: Column) {
    c == Todo || c == Progress
  }

  /** The guards of a drop of task `t` onto column `target` at time `now`,
      evaluated in the code's order: same column, Constraint A (entry into
      incomplete), Constraint B (exit from incomplete), Constraint B-2 (exit
      from done while expired), and the default move C. */
  function Decide(t: Task, target: Column, now: int): (d: DropOutcome)
    ensures d != Ignored <==> t.col != target
  {
    if t.col == target then Ignored
    else if target == Incomplete && DueAfter(t, now) then NotExpired
    else if t.col == Incomplete && IsWorkColumn(target) then RescueRequested
    else if t.col == Done && IsWorkColumn(target) && DueBefore(t, now) then RescueRequested
    else Moved
  }

  /** Constraint A: a drop into incomplete is refused exactly when the task
      has a deadline strictly after `now`; an undated task, or one due
      exactly at `now`, may enter. */
  lemma IncompleteEntryGuard(t: Task, now: int)
    requires t.col != Incomplete
    ensures Decide(t, Incomplete, now) == NotExpired <==> DueAfter(t, now)
    ensures Decide(t, Incomplete, now) != NotExpired <==> Decide(t, Incomplete, now) == Moved
    ensures t.due.None? ==> Decide(t, Incomplete, now) == Moved
  {
  }

  /** Constraint B: leaving incomplete for todo or progress is always
      deferred, whatever the deadline. */
  lemma IncompleteExitDeferred(t: Task, target: Column, now: int)
    requires t.col == Incomplete && IsWorkColumn(target)
    ensures Decide(t, target, now) == RescueRequested
  {
  }

  /** Constraint B keyed on the column string, as the code compares it: any
      task whose column id reads "incomplete" is deferred when dropped on a
      work column. */
  lemma IncompleteExitByName(t: Task, target: Column, now: int)
    requires ColumnName(t.col) == "incomplete" && IsWorkColumn(target)
    ensures Decide(t, target, now) == RescueRequested
  {
    ColumnNameInjective(t.col, Incomplete);
  }

  /** Constraint B-2: leaving done for todo or progress is deferred exactly
      when the deadline has passed strictly; otherwise it is an ordinary move. */
  lemma DoneExitGuard(t: Task, target: Column, now: int)
    requires t.col == Done && IsWorkColumn(target)
    ensures Decide(t, target, now) == RescueRequested <==> DueBefore(t, now)
    ensures Decide(t, target, now) != RescueRequested ==> Decide(t, target, now) == Moved
  {
  }

  /** Only the four listed guards ever stop a move: a drop into done is never
      refused or deferred, and neither is a move between todo and progress. */
  lemma UnguardedMoves(t: Task, target: Column, now: int)
    requires t.col != target
    requires target == Done || (IsWorkColumn(t.col) && target != Incomplete)
    ensures Decide(t, target, now) == Moved
  {
  }

  /** `lateStatus` after an accepted move onto `target`: entering done
      classifies the task as late exactly when its deadline lies strictly
      before `now`; entering any column other than incomplete clears the
      flag; entering incomplete keeps it. */
  function LateAfterMove(t: Task, target: Column, now: int): (s: LateStatus)
    ensures target == Done ==> (s == LateDone <==> t.due.Some? && now > t.due.value)
    ensures target != Done && target != Incomplete ==> s == NotLate
    ensures target == Incomplete ==> s == t.lateStatus
    ensures s == LateDone ==> target == Done || t.lateStatus == LateDone
  {
    if target == Done then (if DueBefore(t, now) then LateDone else NotLate)
    else if target == Incomplete then t.lateStatus
    else NotLate
  }

  /** The history action of a move. */
  function MovedAction(target: Column): string {
    "Moved to " + ColumnName(target)
  }

  /** The history action of a completed rescue. */
  function RescuedAction(target: Column): string {
    "Rescued to " + ColumnName(target) + " (Date Updated)"
  }

  /** The default move C: the task lands in `target`, one entry is appended
      to its history, `lateStatus` is recomputed and nothing else changes. */
  function MoveTask(t: Task, target: Column, now: int, user: string): (r: Task)
    ensures r.col == target
    ensures r.lateStatus == LateAfterMove(t, target, now)
    ensures |r.history| == |t.history| + 1 && r.history[..|t.history|] == t.history
    ensures r.history[|t.history|] == Entry(user, MovedAction(target), now)
    ensures r.(col := t.col, lateStatus := t.lateStatus, history := t.history) == t
  {
    t.(history := t.history + [Entry(user, MovedAction(target), now)],
       lateStatus := LateAfterMove(t, target, now),
       col := target)
  }

  /** The fields the editor submits. `id` is absent for the creation form,
      `teamSelect` is absent when the page has no team `<select>`. */
  datatype EditForm = EditForm(
    id: Option<int>,
    title: string,
    teamSelect: Option<seq<TeamOption>>,
    due: Option<int>)

  /** How a save ends. `TitleRequired` is the alert "Title required";
      `RescueDueNotFuture` the alert "To move a task out of Incomplete, you
      must update the Due Date to the future."; `NotFound` closes the editor
      without writing anything. */
  datatype SaveOutcome = TitleRequired | RescueDueNotFuture | Rescued | Updated | NotFound | Created

  /** The branch a save takes, given the pending rescue target and the
      store's keys. An empty title is refused before anything else is looked
      at; with a rescue pending, a titled save is refused exactly when the new
      due date is missing or not strictly after `now`; without one the due
      date is not checked at all. A rescue completes only from a pending
      slot, with a future due date and an id that is in the store; a
      creation goes ahead whether or not a rescue is pending. */
  function SaveDecision(form: EditForm, pending: Option<Column>, ids: set<int>, now: int): (r: SaveOutcome)
    ensures r == TitleRequired <==> form.title == ""
    ensures form.title != "" && pending.Some? ==>
      (r == RescueDueNotFuture <==> form.due.None? || form.due.value <= now)
    ensures pending.None? ==> r != RescueDueNotFuture
    ensures r == Rescued <==>
      form.title != "" && pending.Some? && DueAfterValue(form.due, now) && form.id.Some? && form.id.value in ids
    ensures r == Updated <==> form.title != "" && pending.None? && form.id.Some? && form.id.value in ids
    ensures r == NotFound <==>
      form.title != "" && (pending.None? || DueAfterValue(form.due, now)) && form.id.Some? && form.id.value !in ids
    ensures r == Created <==>
      form.title != "" && (pending.None? || DueAfterValue(form.due, now)) && form.id.None?
  {
    if form.title == "" then TitleRequired
    else if pending.Some? && !DueAfterValue(form.due, now) then RescueDueNotFuture
    else if form.id.Some? then
      if form.id.value !in ids then NotFound
      else if pending.Some? then Rescued
      else Updated
    else Created
  }

  /** The record with the editor's title, team and due date. */
  function Edited(t: Task, title: string, team: seq<string>, due: Option<int>): (r: Task)
  {
    t.(title := title, team := Members(team), due := due)
  }

  /** The rescue save: the edited task moves to the pending target with its
      lateness cleared and one "Rescued to ..." entry appended. */
  function RescueTask(t: Task, title: string, team: seq<string>, due: Option<int>,
                      target: Column, now: int, user: string): (r: Task)
    ensures r.id == t.id && r.title == title && r.team == Members(team) && r.due == due
    ensures r.col == target && r.lateStatus == NotLate
    ensures |r.history| == |t.history| + 1 && r.history[..|t.history|] == t.history
    ensures r.history[|t.history|] == Entry(user, RescuedAction(target), now)
  {
    var e := Edited(t, title, team, due);
    e.(col := target, lateStatus := NotLate,
       history := e.history + [Entry(user, RescuedAction(target), now)])
  }

  /** The ordinary edit: title, team and due date replaced, one "Updated"
      entry appended, column and lateness untouched. */
  function UpdateTask(t: Task, title: string, team: seq<string>, due: Option<int>,
                      now: int, user: string): (r: Task)
    ensures r.id == t.id && r.title == title && r.team == Members(team) && r.due == due
    ensures r.col == t.col && r.lateStatus == t.lateStatus
    ensures |r.history| == |t.history| + 1 && r.history[..|t.history|] == t.history
    ensures r.history[|t.history|] == Entry(user, "Updated", now)
  {
    var e := Edited(t, title, team, due);
    e.(history := e.history + [Entry(user, "Updated", now)])
  }

  /** A task created from the editor: in todo, not late, no history. */
  function NewTask(id: int, title: string, team: seq<string>, due: Option<int>): (r: Task)
    ensures r.id == id && r.title == title && r.team == Members(team) && r.due == due
    ensures r.col == Todo && r.lateStatus == NotLate && r.history == []
  {
    Task(id, title, Members(team), due, Todo, NotLate, [])
  }

  /** A rescued task is no longer expired: at the instant of the rescue it
      may not be dropped back into incomplete, and a drop into done
      classifies it as on time. */
  lemma RescuedTaskIsOnTime(t: Task, title: string, team: seq<string>, due: Option<int>,
                            target: Column, now: int, user: string)
    requires DueAfterValue(due, now) && IsWorkColumn(target)
    ensures Decide(RescueTask(t, title, team, due, target, now, user), Incomplete, now) == NotExpired
    ensures Decide(RescueTask(t, title, team, due, target, now, user), Done, now) == Moved
    ensures MoveTask(RescueTask(t, title, team, due, target, now, user), Done, now, user).lateStatus == NotLate
  {
  }

  /** Every column of the store is one of the board's four. */
  ghost predicate AllOnBoard(store: map<int, Task>) {
    forall id :: id in store ==> IsBoardColumn(store[id].col)
  }

  /** History is append-only: every task that is still stored kept its old
      entries as a prefix. */
  ghost predicate HistoriesGrow(before: map<int, Task>, after: map<int, Task>) {
    forall id :: id in before && id in after ==> before[id].history <= after[id].history
  }

  /** The board's state: the task store and the module-wide pending rescue
      target. */
  class TaskBoard {
    var store: map<int, Task>
    var pending: Option<Column>
    /** The signed-in user recorded in history entries. */
    const user: string

    /** Each task is stored under its own id, and a pending rescue always
        targets todo or progress. */
    ghost predicate Valid()
      reads this
    {
      && (forall id :: id in store ==> store[id].id == id)
      && (pending.Some? ==> IsWorkColumn(pending.value))
    }

    constructor (user: string, tasks: map<int, Task>)
      requires forall id :: id in tasks ==> tasks[id].id == id
      ensures Valid()
      ensures this.user == user && store == tasks && pending == None
    {
      this.user := user;
      store := tasks;
      pending := None;
    }

    /** A drop of task `id` onto `target` at time `now`; `target` is absent
        when the drop did not land on a column. */
    method Drop(id: int, target: Option<Column>, now: int) returns (r: DropOutcome)
      requires Valid()
      modifies this
      ensures Valid()
      ensures r == (if target.None? || id !in old(store) then Ignored
                    else Decide(old(store)[id], target.value, now))
      ensures r == Moved ==>
        && store == old(store)[id := MoveTask(old(store)[id], target.value, now, user)]
        && pending == old(pending)
      ensures r == RescueRequested ==> store == old(store) && pending == Some(target.value)
      ensures (r == Ignored || r == NotExpired) ==> store == old(store) && pending == old(pending)
      ensures store.Keys == old(store.Keys)
      ensures HistoriesGrow(old(store), store)
      ensures AllOnBoard(old(store)) && (target.None? || IsBoardColumn(target.value)) ==> AllOnBoard(store)
    {
      if target.None? || id !in store {
        return Ignored;
      }
      var t := store[id];
      var col := target.value;
      r := Decide(t, col, now);
      if r == RescueRequested {
        pending := Some(col);
      } else if r == Moved {
        store := store[id := MoveTask(t, col, now, user)];
      }
    }

    /** Saving the editor at time `now`. `freshId` is the id a created task
        receives (the clock reading the code uses as id). */
    method SaveTask(form: EditForm, now: int, freshId: int) returns (r: SaveOutcome)
      requires Valid()
      modifies this
      ensures Valid()
      ensures r == SaveDecision(form, old(pending), old(store).Keys, now)
      ensures (r == TitleRequired || r == RescueDueNotFuture || r == NotFound) ==>
        store == old(store) && pending == old(pending)
      ensures r == Rescued ==>
        && store == old(store)[form.id.value := RescueTask(old(store)[form.id.value], form.title,
                                   SelectedTeam(form.teamSelect), form.due, old(pending).value, now, user)]
        && pending == None
      ensures r == Updated ==>
        && store == old(store)[form.id.value := UpdateTask(old(store)[form.id.value], form.title,
                                   SelectedTeam(form.teamSelect), form.due, now, user)]
        && pending == old(pending)
      ensures r == Created ==>
        && store == old(store)[freshId := NewTask(freshId, form.title, SelectedTeam(form.teamSelect), form.due)]
        && pending == old(pending)
      ensures old(store).Keys <= store.Keys
      ensures r != Created ==> HistoriesGrow(old(store), store)
      ensures AllOnBoard(old(store)) ==> AllOnBoard(store)
    {
      var team := SelectedTeam(form.teamSelect);
      r := SaveDecision(form, pending, store.Keys, now);
      match r
      case Rescued =>
        var id := form.id.value;
        store := store[id := RescueTask(store[id], form.title, team, form.due, pending.value, now, user)];
        pending := None;
      case Updated =>
        var id := form.id.value;
        store := store[id := UpdateTask(store[id], form.title, team, form.due, now, user)];
      case Created =>
        store := store[freshId := NewTask(freshId, form.title, team, form.due)];
      case _ =>
    }

    /** Opening the editor from "Edit" looks the task up and, unlike opening
        the creation form, leaves a pending rescue in place. */
    method EditClick(id: int) returns (found: Option<Task>)
      ensures found.Some? <==> id in store
      ensures found.Some? ==> found.value == store[id]
    {
      found := if id in store then Some(store[id]) else None;
    }

    /** Opening the creation form always clears the pending rescue. */
    method OpenCreateForm()
      requires Valid()
      modifies this`pending
      ensures Valid()
      ensures pending == None
    {
      pending := None;
    }

    /** Deleting is unconditional once confirmed; the pending rescue is not
        touched. */
    method Delete(id: int, confirmed: bool)
      requires Valid()
      modifies this`store
      ensures Valid()
      ensures store == if confirmed then old(store) - {id} else old(store)
      ensures confirmed ==> id !in store
    {
      if confirmed {
        store := store - {id};
      }
    }
  }
}
