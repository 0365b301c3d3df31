/** The task validator: `validateTask` and `isEmptyOrWhitespace`. */
module Validation {
  import opened Kanban
  import opened JsString

  /** A property of the submitted object as the validator sees it: absent
      (`undefined` or `null`), a string, or some other value, which is either
      truthy or falsy. */
  datatype JsValue = Absent | Str(s: string) | NonString(truthy: bool)

  /** JavaScript truthiness. */
  predicate Truthy(v: JsValue)
  {
    match v
    case Absent => false
    case Str(s) => s != ""
    case NonString(b) => b
  }

  /** The submitted task data. */
  datatype TaskData = TaskData(title: JsValue, status: JsValue, priority: JsValue, dueDate: JsValue)

  /** `isEmptyOrWhitespace`: true for anything that is not a string, and for
      a string exactly when it is all white space. */
  function IsEmptyOrWhitespace(v: JsValue): (r: bool)
    ensures r <==> !v.Str? || AllWhitespace(v.s)
  {
    match v
    case Str(s) => |Trim(s)| == 0
    case _ => true
  }

  /** The validator's errors, in the order it checks them. */
  datatype ValidationError = DataRequired | TitleEmpty | StatusInvalid | PriorityInvalid | DueDateInvalid

  /** The message pushed for each error. */
  function Message(e: ValidationError): string
  {
    match e
    case DataRequired => "Task data is required"
    case TitleEmpty => "Task title cannot be empty or whitespace only"
    case StatusInvalid => "Invalid task status. Must be: todo, in-progress, or complete"
    case PriorityInvalid => "Invalid task priority. Must be: high, medium, or low"
    case DueDateInvalid => "Invalid due date format"
  }

  /** The position of each check in the validator. */
  function Rank(e: ValidationError): nat
  {
    match e
    case DataRequired => 0
    case TitleEmpty => 1
    case StatusInvalid => 2
    case PriorityInvalid => 3
    case DueDateInvalid => 4
  }

  /** Distinct errors carry distinct messages. */
  lemma MessagesDistinct(e1: ValidationError, e2: ValidationError)
    requires e1 != e2
    ensures Message(e1) != Message(e2)
  {
  }

  const StatusValues: seq<string> := ["todo", "in-progress", "complete"]
  const PriorityValues: seq<string> := ["high", "medium", "low"]

  /** A value is one of the listed strings (`includes` compares strictly,
      so only a string can be). */
  predicate OneOf(v: JsValue, allowed: seq<string>)
  {
    v.Str? && v.s in allowed
  }

  /** The errors are in check order, each at most once. */
  predicate InCheckOrder(errors: seq<ValidationError>)
  {
    forall i, j :: 0 <= i < j < |errors| ==> Rank(errors[i]) < Rank(errors[j])
  }

  /** The error a check pushes when it fails, or nothing. */
  function When(failed: bool, e: ValidationError): seq<ValidationError>
  {
    if failed then [e] else []
  }

  /** The list the four checks after the data check leave, given which of
      them fail. */
  function Reported(title: bool, status: bool, priority: bool, due: bool): seq<ValidationError>
  {
    When(title, TitleEmpty) + When(status, StatusInvalid)
      + When(priority, PriorityInvalid) + When(due, DueDateInvalid)
  }

  /** Reporting a later check's failure keeps the list in check order. */
  lemma Extend(errors: seq<ValidationError>, failed: bool, e: ValidationError)
    requires InCheckOrder(errors)
    requires forall x :: x in errors ==> Rank(x) < Rank(e)
    ensures InCheckOrder(errors + When(failed, e))
    ensures forall x :: x in errors + When(failed, e) ==> Rank(x) <= Rank(e)
  {
  }

  /** The errors are reported in check order, each at most once. */
  lemma ReportedInOrder(title: bool, status: bool, priority: bool, due: bool)
    ensures InCheckOrder(Reported(title, status, priority, due))
  {
    var s0: seq<ValidationError> := [];
    Extend(s0, title, TitleEmpty);
    assert s0 + When(title, TitleEmpty) == When(title, TitleEmpty);
    var s1 := When(title, TitleEmpty);
    Extend(s1, status, StatusInvalid);
    var s2 := s1 + When(status, StatusInvalid);
    Extend(s2, priority, PriorityInvalid);
    var s3 := s2 + When(priority, PriorityInvalid);
    Extend(s3, due, DueDateInvalid);
  }

  /** Exactly the failing checks are reported, and the list is empty
      exactly when none fails. */
  lemma ReportedExactly(title: bool, status: bool, priority: bool, due: bool)
    ensures var errors := Reported(title, status, priority, due);
      && DataRequired !in errors
      && (TitleEmpty in errors <==> title)
      && (StatusInvalid in errors <==> status)
      && (PriorityInvalid in errors <==> priority)
      && (DueDateInvalid in errors <==> due)
      && (errors == [] <==> !title && !status && !priority && !due)
  {
  }

  /** `validateTask`. `data` is absent for a falsy argument; `parses` tells
      whether `new Date(v)` gives a valid date, which depends on the
      engine's date parser and is left as a parameter. */
  method ValidateTask(data: Option<TaskData>, parses: JsValue -> bool)
    returns (isValid: bool, errors: seq<ValidationError>)
    ensures isValid <==> errors == []
    ensures InCheckOrder(errors)
    ensures data.None? ==> errors == [DataRequired]
    ensures data.Some? ==>
      var d := data.value;
      && DataRequired !in errors
      && (TitleEmpty in errors <==> !d.title.Str? || AllWhitespace(d.title.s))
      && (StatusInvalid in errors <==> Truthy(d.status) && !OneOf(d.status, StatusValues))
      && (PriorityInvalid in errors <==> Truthy(d.priority) && !OneOf(d.priority, PriorityValues))
      && (DueDateInvalid in errors <==> d.dueDate != Absent && d.dueDate != Str("") && !parses(d.dueDate))
  {
    errors := [];
    if data.None? {
      errors := errors + [DataRequired];
      return false, errors;
    }
    var d := data.value;
    var titleBad := !Truthy(d.title) || IsEmptyOrWhitespace(d.title);
    var statusBad := Truthy(d.status) && !OneOf(d.status, StatusValues);
    var priorityBad := Truthy(d.priority) && !OneOf(d.priority, PriorityValues);
    var dueSupplied := d.dueDate != Absent && d.dueDate != Str("");
    var dueBad := dueSupplied && !parses(d.dueDate);
    if titleBad {
      errors := errors + [TitleEmpty];
    }
    assert errors == When(titleBad, TitleEmpty);
    if statusBad {
      errors := errors + [StatusInvalid];
    }
    assert errors == When(titleBad, TitleEmpty) + When(statusBad, StatusInvalid);
    if priorityBad {
      errors := errors + [PriorityInvalid];
    }
    assert errors == When(titleBad, TitleEmpty) + When(statusBad, StatusInvalid) + When(priorityBad, PriorityInvalid);
    if dueBad {
      errors := errors + [DueDateInvalid];
    }
    assert errors == Reported(titleBad, statusBad, priorityBad, dueBad);
    ReportedInOrder(titleBad, statusBad, priorityBad, dueBad);
    ReportedExactly(titleBad, statusBad, priorityBad, dueBad);
    isValid := |errors| == 0;
  }
}
