/** Values shared by the kanban board: columns, lateness, teams, history
    entries and task records. */
module Kanban {

  datatype Option<+T> = None | Some(value: T)

  /** A column id. The board has four; a task record or a drop target
      carrying any other string is kept as `Other`, because the code
      compares column ids as plain strings. */
  datatype ColumnValue = Todo | Progress | Incomplete | Done | Other(name: string)

  /** The strings of the four board columns. */
  const BoardNames: set<string> := {"todo", "progress", "incomplete", "done"}

  /** A column id as the code holds it, a string: `Other` never carries the
      name of one of the four columns, so each string has exactly one
      value. */
  type Column = c: ColumnValue | !c.Other? || c.name !in BoardNames witness Todo

  /** The four columns the board renders. */
  predicate IsBoardColumn(c: Column) {
    !c.Other?
  }

  /** The string the code uses for a column id, as it appears in history
      entries ("Moved to progress"). */
  function ColumnName(c: Column): (s: string)
    ensures IsBoardColumn(c) ==> |s| > 0
  {
    match c
    case Todo => "todo"
    case Progress => "progress"
    case Incomplete => "incomplete"
    case Done => "done"
    case Other(name) => name
  }

  /** Distinct column values are distinct strings in the code, and back. */
  lemma ColumnNameInjective(c: Column, d: Column)
    ensures ColumnName(c) == ColumnName(d) <==> c == d
  {
    assert "todo"[0] == 't' && "progress"[0] == 'p' && "incomplete"[0] == 'i' && "done"[0] == 'd';
  }

  /** `lateStatus`: 'none' or 'late_done'. */
  datatype LateStatus = NotLate | LateDone

  /** The sentinel member name of an unassigned team. */
  const Unassigned: string := "Unassigned"

  /** `team` is normally an array of member names; the renderer also copes
      with a record whose team is a single string. */
  datatype Team = Members(names: seq<string>) | Text(text: string)

  /** One audit entry `{ user, action, timestamp }`. */
  datatype Entry = Entry(user: string, action: string, timestamp: int)

  /** A task record. `due` is the deadline as a timestamp, absent when the
      due-date field was left empty. */
  datatype Task = Task(
    id: int,
    title: string,
    team: Team,
    due: Option<int>,
    col: Column,
    lateStatus: LateStatus,
    history: seq<Entry>)

  /** The deadline has passed strictly before `now`. */
  predicate DueBefore(t: Task, now: int) {
    t.due.Some? && t.due.value < now
  }

  /** `due` is present and strictly after `now`. */
  predicate DueAfterValue(due: Option<int>, now: int) {
    due.Some? && due.value > now
  }

  /** The deadline lies strictly after `now`. */
  predicate DueAfter(t: Task, now: int) {
    DueAfterValue(t.due, now)
  }
}
