/** What the board and the analytics view derive from the task list, without
    the DOM: the filtered column lists and their counts, the card's missed
    flag, status tag and avatar initials, the on-time percentage and the
    activity log order. */
module BoardView {
  import opened Kanban
  import opened JsString

  /** The team as one string: the members joined by single spaces, or the
      team text when the record holds a plain string. */
  function TeamString(team: Team): string
  {
    match team
    case Members(names) => Join(names, " ")
    case Text(s) => s
  }

  /** The board filter: the lower-cased filter occurs in the lower-cased
      title or the lower-cased team string. */
  predicate Matches(t: Task, filter: string)
  {
    || Contains(Lower(t.title), Lower(filter))
    || Contains(Lower(TeamString(t.team)), Lower(filter))
  }

  /** The empty filter shows every task. */
  lemma EmptyFilterMatchesAll(t: Task)
    ensures Matches(t, "")
  {
    ContainsBasics(Lower(t.title), "");
  }

  /** The filter ignores letter case: a filter matches exactly the tasks its
      lower-cased form matches, so filters differing only in case agree. */
  lemma {:induction false} FilterIgnoresCase(t: Task, filter: string)
    ensures Matches(t, filter) == Matches(t, Lower(filter))
  {
    LowerIdempotent(filter);
  }

  /** The tasks of `tasks` that `keep` accepts, in input order: what a
      `forEach` that pushes the accepted tasks onto an empty list leaves. */
  function Select(tasks: seq<Task>, keep: Task -> bool): (r: seq<Task>)
    ensures |r| <= |tasks|
  {
    if tasks == [] then []
    else
      var t := tasks[|tasks| - 1];
      Select(tasks[..|tasks| - 1], keep) + (if keep(t) then [t] else [])
  }

  /** Walking one more task appends it iff it is accepted. */
  lemma SelectSnoc(tasks: seq<Task>, t: Task, keep: Task -> bool)
    ensures keep(t) ==> Select(tasks + [t], keep) == Select(tasks, keep) + [t]
    ensures !keep(t) ==> Select(tasks + [t], keep) == Select(tasks, keep)
  {
    assert (tasks + [t])[..|tasks|] == tasks;
    assert Select(tasks, keep) + [] == Select(tasks, keep);
  }

  /** Only accepted tasks of the input are selected. */
  lemma {:induction false} SelectSound(tasks: seq<Task>, keep: Task -> bool)
    ensures forall x :: x in Select(tasks, keep) ==> x in tasks && keep(x)
  {
    if tasks != [] {
      var init := tasks[..|tasks| - 1];
      SelectSound(init, keep);
      assert forall x :: x in init ==> x in tasks;
    }
  }

  /** Every accepted task is selected. */
  lemma {:induction false} SelectComplete(tasks: seq<Task>, keep: Task -> bool, k: nat)
    requires k < |tasks| && keep(tasks[k])
    ensures tasks[k] in Select(tasks, keep)
  {
    if k < |tasks| - 1 {
      SelectComplete(tasks[..|tasks| - 1], keep, k);
    }
  }

  /** Selection keeps input order across a concatenation. */
  lemma {:induction false} SelectAppend(a: seq<Task>, b: seq<Task>, keep: Task -> bool)
    ensures Select(a + b, keep) == Select(a, keep) + Select(b, keep)
  {
    if b == [] {
      assert a + b == a;
      assert Select(a, keep) + [] == Select(a, keep);
    } else {
      var n := |b| - 1;
      var init, t := b[..n], b[n];
      assert b == init + [t];
      assert a + b == (a + init) + [t];
      SelectAppend(a, init, keep);
      SelectSnoc(a + init, t, keep);
      SelectSnoc(init, t, keep);
      var front, middle := Select(a, keep), Select(init, keep);
      if keep(t) {
        assert (front + middle) + [t] == front + (middle + [t]);
      }
    }
  }

  /** What `renderBoard` pushes onto column `c`'s list. */
  function Shown(filter: string, c: Column): Task -> bool
  {
    t => Matches(t, filter) && t.col == c
  }

  /** The tasks of `tasks` in column `c` that match the filter, in input
      order (`cols[c]` after the `forEach`). */
  function InColumn(tasks: seq<Task>, filter: string, c: Column): (r: seq<Task>)
    ensures |r| <= |tasks|
  {
    Select(tasks, Shown(filter, c))
  }

  /** A column list holds only tasks of the input that are in that column
      and match the filter. */
  lemma InColumnSound(tasks: seq<Task>, filter: string, c: Column)
    ensures forall x :: x in InColumn(tasks, filter, c) ==> x in tasks && x.col == c && Matches(x, filter)
  {
    SelectSound(tasks, Shown(filter, c));
  }

  /** Adding one task at the end adds it to its column's list when it
      matches, and leaves every list unchanged otherwise. */
  lemma InColumnSnoc(tasks: seq<Task>, t: Task, filter: string, c: Column)
    ensures Matches(t, filter) && t.col == c ==> InColumn(tasks + [t], filter, c) == InColumn(tasks, filter, c) + [t]
    ensures !(Matches(t, filter) && t.col == c) ==> InColumn(tasks + [t], filter, c) == InColumn(tasks, filter, c)
  {
    SelectSnoc(tasks, t, Shown(filter, c));
  }

  /** Every matching task appears in the list of its own column. */
  lemma InColumnComplete(tasks: seq<Task>, filter: string, k: nat)
    requires k < |tasks| && Matches(tasks[k], filter)
    ensures tasks[k] in InColumn(tasks, filter, tasks[k].col)
  {
    SelectComplete(tasks, Shown(filter, tasks[k].col), k);
  }

  /** Input order is kept: the list for a concatenation is the list for the
      first part followed by the list for the second. */
  lemma InColumnAppend(a: seq<Task>, b: seq<Task>, filter: string, c: Column)
    ensures InColumn(a + b, filter, c) == InColumn(a, filter, c) + InColumn(b, filter, c)
  {
    SelectAppend(a, b, Shown(filter, c));
  }

  /** The four column lists together hold at most every task once. */
  lemma {:induction false} ColumnSizesBound(tasks: seq<Task>, filter: string)
    ensures |InColumn(tasks, filter, Todo)| + |InColumn(tasks, filter, Progress)|
          + |InColumn(tasks, filter, Incomplete)| + |InColumn(tasks, filter, Done)| <= |tasks|
  {
    if tasks != [] {
      var init, t := tasks[..|tasks| - 1], tasks[|tasks| - 1];
      assert tasks == init + [t];
      ColumnSizesBound(init, filter);
      InColumnSnoc(init, t, filter, Todo);
      InColumnSnoc(init, t, filter, Progress);
      InColumnSnoc(init, t, filter, Incomplete);
      InColumnSnoc(init, t, filter, Done);
    }
  }

  /** An object with one own property per board column, as `cols` and
      `counts` are: no other column has an own property. */
  datatype PerColumn<T> = PerColumn(todo: T, progress: T, incomplete: T, done: T)
  {
    function Get(c: Column): (v: Option<T>)
      ensures v.Some? <==> IsBoardColumn(c)
    {
      match c
      case Todo => Some(todo)
      case Progress => Some(progress)
      case Incomplete => Some(incomplete)
      case Done => Some(done)
      case Other(_) => None
    }

    function Set(c: Column, v: T): (r: PerColumn<T>)
      requires IsBoardColumn(c)
      ensures r.Get(c) == Some(v)
      ensures forall d :: d != c ==> r.Get(d) == Get(d)
    {
      match c
      case Todo => this.(todo := v)
      case Progress => this.(progress := v)
      case Incomplete => this.(incomplete := v)
      case Done => this.(done := v)
    }
  }

  /** `cols` once the tasks of `tasks` have been walked. */
  function Partition(tasks: seq<Task>, filter: string): PerColumn<seq<Task>>
  {
    PerColumn(InColumn(tasks, filter, Todo), InColumn(tasks, filter, Progress),
              InColumn(tasks, filter, Incomplete), InColumn(tasks, filter, Done))
  }

  /** `counts` for the lists of `cols`. */
  function Sizes(cols: PerColumn<seq<Task>>): PerColumn<nat>
  {
    PerColumn(|cols.todo|, |cols.progress|, |cols.incomplete|, |cols.done|)
  }

  /** Walking one more task appends it to its column's list when it matches
      and its column is one of the four; otherwise nothing changes. */
  lemma PartitionStep(tasks: seq<Task>, i: nat, filter: string)
    requires i < |tasks|
    ensures Matches(tasks[i], filter) && IsBoardColumn(tasks[i].col) ==>
      Partition(tasks[..i + 1], filter)
        == Partition(tasks[..i], filter).Set(tasks[i].col, Partition(tasks[..i], filter).Get(tasks[i].col).value + [tasks[i]])
    ensures !(Matches(tasks[i], filter) && IsBoardColumn(tasks[i].col)) ==>
      Partition(tasks[..i + 1], filter) == Partition(tasks[..i], filter)
  {
    var t := tasks[i];
    assert tasks[..i + 1] == tasks[..i] + [t];
    InColumnSnoc(tasks[..i], t, filter, Todo);
    InColumnSnoc(tasks[..i], t, filter, Progress);
    InColumnSnoc(tasks[..i], t, filter, Incomplete);
    InColumnSnoc(tasks[..i], t, filter, Done);
  }

  /** Reading a column's property of the partition gives that column's
      list, and of its sizes that list's length. */
  lemma PartitionGet(tasks: seq<Task>, filter: string)
    ensures forall c :: IsBoardColumn(c) ==> Partition(tasks, filter).Get(c) == Some(InColumn(tasks, filter, c))
    ensures forall c :: IsBoardColumn(c) ==>
      Sizes(Partition(tasks, filter)).Get(c) == Some(|InColumn(tasks, filter, c)|)
  {
  }

  /** The properties every plain object inherits from `Object.prototype`.
      Looking one of them up on `cols` finds a truthy value that is not an
      array. */
  const InheritedNames: set<string> := {
    "constructor", "__proto__", "__defineGetter__", "__defineSetter__",
    "__lookupGetter__", "__lookupSetter__", "hasOwnProperty", "isPrototypeOf",
    "propertyIsEnumerable", "toLocaleString", "toString", "valueOf"}

  /** `cols[t.col].push(t)` throws a TypeError for this task: it matches the
      filter, and its column names an inherited property of `cols`. */
  predicate PushThrows(t: Task, filter: string)
  {
    Matches(t, filter) && t.col.Other? && t.col.name in InheritedNames
  }

  /** The partition step of `renderBoard`: walk the tasks once, pushing each
      matching task whose column is one of the four onto that column's list
      and counting it. A matching task whose column names an inherited
      property of `cols` makes the walk throw, and `threw` reports it. */
  method RenderBoard(tasks: seq<Task>, filter: string)
    returns (threw: bool, cols: PerColumn<seq<Task>>, counts: PerColumn<nat>)
    ensures threw <==> exists k :: 0 <= k < |tasks| && PushThrows(tasks[k], filter)
    ensures !threw ==> forall c :: IsBoardColumn(c) ==> cols.Get(c) == Some(InColumn(tasks, filter, c))
    ensures !threw ==> forall c :: IsBoardColumn(c) ==> counts.Get(c) == Some(|InColumn(tasks, filter, c)|)
    ensures !threw ==> counts.todo + counts.progress + counts.incomplete + counts.done <= |tasks|
  {
    threw := false;
    cols := PerColumn([], [], [], []);
    counts := PerColumn(0, 0, 0, 0);
    var i := 0;
    while i < |tasks|
      invariant 0 <= i <= |tasks|
      invariant cols == Partition(tasks[..i], filter)
      invariant counts == Sizes(cols)
      invariant forall k :: 0 <= k < i ==> !PushThrows(tasks[k], filter)
    {
      var t := tasks[i];
      PartitionStep(tasks, i, filter);
      var matches := Matches(t, filter);
      var list := cols.Get(t.col);
      if matches && list.Some? {
        cols := cols.Set(t.col, list.value + [t]);
        counts := counts.Set(t.col, counts.Get(t.col).value + 1);
      } else if matches && t.col.Other? && t.col.name in InheritedNames {
        assert PushThrows(tasks[i], filter);
        threw := true;
        return;
      }
      assert !PushThrows(tasks[i], filter);
      i := i + 1;
    }
    assert tasks[..i] == tasks;
    PartitionGet(tasks, filter);
    ColumnSizesBound(tasks, filter);
  }

  /** A task has missed its deadline when it sits in incomplete or was
      completed late. */
  predicate Missed(t: Task)
  {
    t.col == Incomplete || t.lateStatus == LateDone
  }

  /** The status tag of a card. */
  datatype StatusTag = NoTag | LateTag | LateDoneTag

  /** The parts of a card the board derives from the task: the `missed`
      class, the status tag, and the avatar initials. */
  datatype Card = Card(missed: bool, tag: StatusTag, avatars: seq<string>)

  /** "Late" for a task in incomplete, which takes precedence over "Late
      Done" for a late completion; no tag otherwise. A card carries a tag
      exactly when it is flagged missed. */
  function Tag(t: Task): (tag: StatusTag)
    ensures tag != NoTag <==> Missed(t)
    ensures tag == LateDoneTag <==> t.col != Incomplete && t.lateStatus == LateDone
  {
    if t.col == Incomplete then LateTag
    else if t.lateStatus == LateDone then LateDoneTag
    else NoTag
  }

  /** The non-HTML content of `createCard`. */
  function CardFor(t: Task): (card: Card)
    ensures card.missed == Missed(t)
    ensures card.tag != NoTag <==> card.missed
    ensures card.tag == Tag(t) && card.avatars == Avatars(t.team)
    ensures |card.avatars| >= 1
  {
    Card(Missed(t), Tag(t), Avatars(t.team))
  }

  /** The members `createAvatarGroup` draws: a plain-string or empty team is
      drawn as the sentinel team. */
  function AvatarTeam(team: Team): (members: seq<string>)
    ensures |members| >= 1
    ensures team.Members? && |team.names| > 0 ==> members == team.names
    ensures !(team.Members? && |team.names| > 0) ==> members == [Unassigned]
  {
    if team.Members? && |team.names| > 0 then team.names else [Unassigned]
  }

  /** The first character of each word; an empty word contributes nothing. */
  function FirstChars(words: seq<string>): string
  {
    if words == [] then ""
    else (if |words[0]| > 0 then [words[0][0]] else "") + FirstChars(words[1..])
  }

  /** The initials of one member: "?" for the sentinel, otherwise the first
      character of each space-separated word, which are the characters that
      begin its words; they never contain a space. */
  function Initials(member: string): (r: string)
    ensures member == Unassigned ==> r == "?"
    ensures member != Unassigned ==> r == WordStarts(member, true)
    ensures ' ' !in r
  {
    FirstCharsOfSplit(member);
    WordStartsNoSpace(member, true);
    if member == Unassigned then "?" else FirstChars(Split(member))
  }

  /** The initials of every drawn member, in team order. */
  function Avatars(team: Team): (initials: seq<string>)
    ensures |initials| == |AvatarTeam(team)|
    ensures forall i :: 0 <= i < |initials| ==> initials[i] == Initials(AvatarTeam(team)[i])
  {
    var members := AvatarTeam(team);
    seq(|members|, i requires 0 <= i < |members| => Initials(members[i]))
  }

  /** The characters of `s` that begin a word: not a space, and first in `s`
      (when `atStart`) or right after a space. */
  function WordStarts(s: string, atStart: bool): string
  {
    if s == [] then ""
    else (if s[0] != ' ' && atStart then [s[0]] else "") + WordStarts(s[1..], s[0] == ' ')
  }

  /** Taking the first character of each piece of `split(' ')` picks exactly
      the characters that begin a word. */
  lemma {:induction false} FirstCharsOfSplit(s: string)
    ensures FirstChars(Split(s)) == WordStarts(s, true)
    ensures FirstChars(Split(s)[1..]) == WordStarts(s, false)
  {
    if s == [] {
    } else if s[0] == ' ' {
      FirstCharsOfSplit(s[1..]);
      assert Split(s)[1..] == Split(s[1..]);
    } else {
      FirstCharsOfSplit(s[1..]);
      var rest := Split(s[1..]);
      assert Split(s) == [[s[0]] + rest[0]] + rest[1..];
      assert Split(s)[1..] == rest[1..];
    }
  }

  /** A character that begins a word is never a space. */
  lemma {:induction false} WordStartsNoSpace(s: string, atStart: bool)
    ensures ' ' !in WordStarts(s, atStart)
  {
    if s != [] {
      WordStartsNoSpace(s[1..], s[0] == ' ');
    }
  }

  /** The tasks the analytics view lists as missed, in input order. */
  function MissedList(tasks: seq<Task>): (r: seq<Task>)
    ensures |r| <= |tasks|
    ensures forall x :: x in r ==> x in tasks && Missed(x)
  {
    if tasks == [] then []
    else
      var t := tasks[|tasks| - 1];
      MissedList(tasks[..|tasks| - 1]) + (if Missed(t) then [t] else [])
  }

  /** The missed list and the card flag use one predicate: a task of the
      board is listed exactly when its card is flagged. */
  lemma {:induction false} MissedListIsCardFlag(tasks: seq<Task>, k: nat)
    requires k < |tasks|
    ensures tasks[k] in MissedList(tasks) <==> CardFor(tasks[k]).missed
  {
    if k < |tasks| - 1 {
      MissedListIsCardFlag(tasks[..|tasks| - 1], k);
    }
  }

  /** The number of tasks in done. */
  function DoneCount(tasks: seq<Task>): nat
  {
    if tasks == [] then 0
    else DoneCount(tasks[..|tasks| - 1]) + (if tasks[|tasks| - 1].col == Done then 1 else 0)
  }

  /** The number of tasks in done whose lateness is 'none'. */
  function OnTimeCount(tasks: seq<Task>): nat
  {
    if tasks == [] then 0
    else
      var t := tasks[|tasks| - 1];
      OnTimeCount(tasks[..|tasks| - 1]) + (if t.col == Done && t.lateStatus == NotLate then 1 else 0)
  }

  /** Every on-time completion is a completion, and a task in done is either
      on time or late. */
  lemma {:induction false} OnTimeSplit(tasks: seq<Task>)
    ensures OnTimeCount(tasks) <= DoneCount(tasks)
    ensures OnTimeCount(tasks) + LateDoneCount(tasks) == DoneCount(tasks)
  {
    if tasks != [] {
      OnTimeSplit(tasks[..|tasks| - 1]);
    }
  }

  /** The number of tasks in done completed late. */
  function LateDoneCount(tasks: seq<Task>): nat
  {
    if tasks == [] then 0
    else
      var t := tasks[|tasks| - 1];
      LateDoneCount(tasks[..|tasks| - 1]) + (if t.col == Done && t.lateStatus == LateDone then 1 else 0)
  }

  /** `Math.round(onTime / done * 100)`, or 0 with nothing done: the whole
      number nearest to the exact percentage, halves rounded up. */
  function OnTimePercent(onTime: nat, done: nat): (pct: int)
    ensures done == 0 ==> pct == 0
    ensures done > 0 ==> 2 * done * pct - done <= 200 * onTime < 2 * done * pct + done
    ensures onTime <= done ==> 0 <= pct <= 100
  {
    if done > 0 then
      var pct := (200 * onTime + done) / (2 * done);
      RoundingBounds(200 * onTime + done, 2 * done, pct);
      if onTime <= done then
        PercentRange(onTime, done, pct);
        pct
      else pct
    else 0
  }

  lemma RoundingBounds(n: nat, d: nat, q: int)
    requires d > 0 && q == n / d
    ensures d * q <= n < d * q + d
  {
  }

  /** Multiplying by a natural number keeps the order of its factors. */
  lemma {:induction false} MulMonotone(k: nat, x: int, y: int)
    ensures x <= y ==> k * x <= k * y
  {
    if k > 0 {
      MulMonotone(k - 1, x, y);
    }
  }

  lemma PercentRange(onTime: nat, done: nat, pct: int)
    requires 0 < done && onTime <= done
    requires 2 * done * pct <= 200 * onTime + done < 2 * done * pct + 2 * done
    ensures 0 <= pct <= 100
  {
    MulMonotone(2 * done, pct + 1, 0);
    MulMonotone(2 * done, 101, pct);
  }

  /** The figures of the analytics view. */
  datatype Analytics = Analytics(total: nat, onTimePercent: int, late: nat, missed: seq<Task>)

  /** `updateAnalytics`: the task total, the on-time percentage over the done
      tasks, and the missed list with its length. */
  function UpdateAnalytics(tasks: seq<Task>): (a: Analytics)
    ensures a.total == |tasks| && a.late == |a.missed| <= |tasks|
    ensures 0 <= a.onTimePercent <= 100
    ensures DoneCount(tasks) == 0 ==> a.onTimePercent == 0
    ensures forall x :: x in a.missed ==> Missed(x)
    ensures a.onTimePercent == OnTimePercent(OnTimeCount(tasks), DoneCount(tasks)) && a.missed == MissedList(tasks)
  {
    OnTimeSplit(tasks);
    var missed := MissedList(tasks);
    Analytics(|tasks|, OnTimePercent(OnTimeCount(tasks), DoneCount(tasks)), |missed|, missed)
  }

  /** A copy of `s` in reverse order. */
  function Reverse(s: seq<Entry>): (r: seq<Entry>)
    ensures |r| == |s|
    ensures forall i :: 0 <= i < |s| ==> r[i] == s[|s| - 1 - i]
  {
    if s == [] then [] else [s[|s| - 1]] + Reverse(s[..|s| - 1])
  }

  /** Reversing twice gives the history back. */
  lemma ReverseReverse(s: seq<Entry>)
    ensures Reverse(Reverse(s)) == s
  {
  }

  /** What the activity log shows. */
  datatype LogView = NoActivity | Lines(entries: seq<Entry>)

  /** `renderActivityLog`: "No activity." for a missing or empty history,
      otherwise the entries newest first. The history itself is a value and
      stays as it was. */
  function ActivityLog(history: Option<seq<Entry>>): (v: LogView)
    ensures v == NoActivity <==> history.None? || history.value == []
    ensures v.Lines? ==> |v.entries| == |history.value| && v.entries[0] == history.value[|history.value| - 1]
    ensures v.Lines? ==> Reverse(v.entries) == history.value
  {
    if history.None? || history.value == [] then NoActivity
    else
      ReverseReverse(history.value);
      Lines(Reverse(history.value))
  }
}
