/** Client code of the transition engine: multi-step runs of the board,
    proved from the contracts of `TaskBoard` alone. */
module Scenarios {
  import opened Kanban
  import opened EventHandlers

  /** The life of an expired task: dropped into incomplete, dropped back onto
      a work column (which only opens the rescue editor), then saved with a
      future due date, which completes the move. */
  method ExpiredTaskRescue(t: Task, target: Column, now: int, newDue: int, user: string)
    returns (entered: DropOutcome, deferred: DropOutcome, saved: SaveOutcome, after: Task)
    requires IsWorkColumn(t.col) && DueBefore(t, now) && t.title != ""
    requires IsWorkColumn(target) && newDue > now
    ensures entered == Moved && deferred == RescueRequested && saved == Rescued
    ensures after.col == target && after.lateStatus == NotLate && after.due == Some(newDue)
    ensures |after.history| == |t.history| + 2 && after.history[..|t.history|] == t.history
    ensures after.history[|t.history|] == Entry(user, MovedAction(Incomplete), now)
    ensures after.history[|t.history| + 1] == Entry(user, RescuedAction(target), now)
  {
    var board := new TaskBoard(user, map[t.id := t]);
    entered := board.Drop(t.id, Some(Incomplete), now);
    var stuck := board.store[t.id];
    assert stuck.col == Incomplete;
    deferred := board.Drop(t.id, Some(target), now);
    assert board.store[t.id] == stuck && board.pending == Some(target);
    var form := EditForm(Some(t.id), t.title, Some([]), Some(newDue));
    saved := board.SaveTask(form, now, t.id);
    after := board.store[t.id];
    TwoEntries(t.history, stuck.history, after.history);
  }

  /** Two histories that each extend the previous one by one entry extend
      the first by two, in order. */
  lemma TwoEntries(h0: seq<Entry>, h1: seq<Entry>, h2: seq<Entry>)
    requires |h1| == |h0| + 1 && h1[..|h0|] == h0
    requires |h2| == |h1| + 1 && h2[..|h1|] == h1
    ensures |h2| == |h0| + 2 && h2[..|h0|] == h0
    ensures h2[|h0|] == h1[|h0|] && h2[|h0| + 1] == h2[|h1|]
  {
    assert h2[..|h0|] == h2[..|h1|][..|h0|];
  }

  /** A rescue that is abandoned stays armed: a task created meanwhile does
      not clear it, and saving an edit of a different task applies the
      pending move to that task. */
  method StaleRescueMovesAnotherTask(a: Task, b: Task, target: Column, now: int,
                                     newDue: int, freshId: int, user: string)
    returns (created: SaveOutcome, saved: SaveOutcome, moved: Task)
    requires a.id != b.id && freshId != b.id
    requires a.col == Incomplete && IsWorkColumn(target)
    requires b.title != "" && newDue > now
    ensures created == Created && saved == Rescued
    ensures moved.id == b.id && moved.col == target && moved.lateStatus == NotLate
  {
    var board := new TaskBoard(user, map[a.id := a, b.id := b]);
    var deferred := board.Drop(a.id, Some(target), now);
    assert deferred == RescueRequested;
    created := board.SaveTask(EditForm(None, b.title, None, Some(newDue)), now, freshId);
    var found := board.EditClick(b.id);
    assert found == Some(b);
    saved := board.SaveTask(EditForm(Some(b.id), b.title, None, Some(newDue)), now, freshId);
    moved := board.store[b.id];
  }

  /** Opening the creation form disarms a pending rescue: a later save of
      the deferred task is an ordinary edit that leaves it in incomplete. */
  method CreationFormCancelsRescue(t: Task, target: Column, now: int, user: string)
    returns (saved: SaveOutcome, after: Task)
    requires t.col == Incomplete && IsWorkColumn(target) && t.title != ""
    ensures saved == Updated
    ensures after.col == Incomplete && after.lateStatus == t.lateStatus
  {
    var board := new TaskBoard(user, map[t.id := t]);
    var deferred := board.Drop(t.id, Some(target), now);
    board.OpenCreateForm();
    saved := board.SaveTask(EditForm(Some(t.id), t.title, None, t.due), now, t.id);
    after := board.store[t.id];
  }
}
