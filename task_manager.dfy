/** The task store of the dashboard and the per-task metrics derived from
    it. The store holds an ordered table of task records and the inactivity
    threshold in days; creating and updating a task validate the supplied
    fields first, and the derived view adds age, inactivity and the
    at-risk, blocked and long-running flags to every row.

    Timestamps are whole seconds; the current time and the fresh task id,
    which the program takes from the system clock and from `uuid4`, are
    parameters here. */
module TaskManager {
  import opened Text

  datatype Option<T> = None | Some(value: T)

  /** One row of the task table. */
  datatype Task = Task(
    taskId: string,
    title: string,
    description: string,
    owner: string,
    status: string,
    createdAt: int,
    lastUpdatedAt: int)

  const ValidStatuses: seq<string> := ["Planned", "In Progress", "Blocked", "Completed"]
  predicate IsValidStatus(s: string) {
    s in ValidStatuses
  }

  const DefaultInactivityThresholdDays: int := 3
  const ThresholdErrorMessage: string := "Inactivity threshold must be a positive integer."
  const SecondsPerDay: int := 86400

  // ---- Validation ----

  /** The checks of task validation, in the order they are made. */
  datatype FieldError = TitleRequired | OwnerRequired | StatusInvalid | DescriptionMissing

  function Rank(e: FieldError): nat {
    match e
    case TitleRequired => 0
    case OwnerRequired => 1
    case StatusInvalid => 2
    case DescriptionMissing => 3
  }

  /** A fixed message text, which is one non-empty line. */
  function OneLine(m: string): (r: string)
    requires |m| > 0 && forall k :: 0 <= k < |m| ==> m[k] != '\n'
    ensures r == m && |r| > 0 && '\n' !in r
  {
    m
  }

  /** The message for an invalid status, shared by validation and update. */
  function StatusChoicesMessage(): (r: string)
    ensures |r| > 0 && '\n' !in r
  {
    var sep := OneLine(", ");
    OneLine("Status must be one of: ")
      + OneLine("Planned") + sep + OneLine("In Progress") + sep + OneLine("Blocked") + sep + OneLine("Completed")
  }

  /** The message lists the valid statuses, in order, joined by ", ". */
  lemma StatusChoicesListed()
    ensures StatusChoicesMessage() == "Status must be one of: " + Join(ValidStatuses, ", ")
  {
    var v := ValidStatuses;
    assert v[3..] == ["Completed"];
    assert v[2..] == ["Blocked"] + v[3..];
    assert v[1..] == ["In Progress"] + v[2..];
    assert Join(v[2..], ", ") == "Blocked" + ", " + Join(v[3..], ", ");
    assert Join(v[1..], ", ") == "In Progress" + ", " + Join(v[2..], ", ");
    assert Join(v, ", ") == "Planned" + ", " + Join(v[1..], ", ");
  }

  /** The message shown for each failed check: a single non-empty line. */
  function FieldErrorMessage(e: FieldError): (r: string)
    ensures |r| > 0 && '\n' !in r
  {
    match e
    case TitleRequired => OneLine("Title is required.")
    case OwnerRequired => OneLine("Owner is required.")
    case StatusInvalid => StatusChoicesMessage()
    case DescriptionMissing => OneLine("Description cannot be None.")
  }

  function ErrorMessages(errors: seq<FieldError>): seq<string> {
    seq(|errors|, k requires 0 <= k < |errors| => FieldErrorMessage(errors[k]))
  }

  /** `"\n".join(errors)`, the text a rejected creation shows: one line per
      error, so splitting it into lines gives back the messages in order. */
  function ErrorText(errors: seq<FieldError>): (r: string)
    requires errors != []
    ensures SplitLines(r) == ErrorMessages(errors)
  {
    var lines := ErrorMessages(errors);
    SplitJoinLines(lines);
    Join(lines, "\n")
  }

  predicate FieldsValid(title: string, owner: string, status: string, description: Option<string>) {
    !IsBlank(title) && !IsBlank(owner) && IsValidStatus(status) && description.Some?
  }

  function Flagged(e: FieldError, failed: bool): seq<FieldError> {
    if failed then [e] else []
  }

  /** The error list the checks produce, given which of them fail: one
      entry per failing check, in the order the checks are made. */
  function ErrorList(titleBlank: bool, ownerBlank: bool, statusInvalid: bool, descriptionMissing: bool)
    : (r: seq<FieldError>)
    ensures r == [] <==> !titleBlank && !ownerBlank && !statusInvalid && !descriptionMissing
    ensures TitleRequired in r <==> titleBlank
    ensures OwnerRequired in r <==> ownerBlank
    ensures StatusInvalid in r <==> statusInvalid
    ensures DescriptionMissing in r <==> descriptionMissing
    ensures forall i, j :: 0 <= i < j < |r| ==> Rank(r[i]) < Rank(r[j])
  {
    Flagged(TitleRequired, titleBlank) + Flagged(OwnerRequired, ownerBlank)
      + Flagged(StatusInvalid, statusInvalid) + Flagged(DescriptionMissing, descriptionMissing)
  }

  /** Collects one error per failing check, in the order of the checks;
      no error at all exactly when the fields are valid. */
  method ValidateTaskFields(title: string, owner: string, status: string, description: Option<string>)
    returns (errors: seq<FieldError>)
    ensures errors == [] <==> FieldsValid(title, owner, status, description)
    ensures TitleRequired in errors <==> IsBlank(title)
    ensures OwnerRequired in errors <==> IsBlank(owner)
    ensures StatusInvalid in errors <==> !IsValidStatus(status)
    ensures DescriptionMissing in errors <==> description.None?
    ensures forall i, j :: 0 <= i < j < |errors| ==> Rank(errors[i]) < Rank(errors[j])
  {
    var titleBlank, ownerBlank := IsBlank(title), IsBlank(owner);
    var statusInvalid := !IsValidStatus(status);
    errors := [];
    if titleBlank {
      errors := errors + [TitleRequired];
    }
    assert errors == Flagged(TitleRequired, titleBlank);
    if ownerBlank {
      errors := errors + [OwnerRequired];
    }
    assert errors == Flagged(TitleRequired, titleBlank) + Flagged(OwnerRequired, ownerBlank);
    if statusInvalid {
      errors := errors + [StatusInvalid];
    }
    assert errors == Flagged(TitleRequired, titleBlank) + Flagged(OwnerRequired, ownerBlank)
      + Flagged(StatusInvalid, statusInvalid);
    if description.None? {
      errors := errors + [DescriptionMissing];
    }
    assert errors == ErrorList(titleBlank, ownerBlank, statusInvalid, description.None?);
  }

  // ---- Lookup ----

  /** `df.index[df["task_id"] == task_id][0]`: the position of the first
      row carrying the id, or `None` when no row does. */
  function FirstIndexOf(rows: seq<Task>, taskId: string): (r: Option<nat>)
    ensures r.None? <==> forall k :: 0 <= k < |rows| ==> rows[k].taskId != taskId
    ensures r.Some? ==> r.value < |rows| && rows[r.value].taskId == taskId
    ensures r.Some? ==> forall k :: 0 <= k < r.value ==> rows[k].taskId != taskId
  {
    if |rows| == 0 then None
    else if rows[0].taskId == taskId then Some(0)
    else match FirstIndexOf(rows[1..], taskId)
      case None => None
      case Some(i) => Some(i + 1)
  }

  // ---- Store invariants ----

  /** What creation and update guarantee of every stored row. */
  predicate WellFormedRow(t: Task) {
    && IsStripped(t.title) && t.title != []
    && IsStripped(t.owner) && t.owner != []
    && IsStripped(t.description)
    && IsValidStatus(t.status)
  }

  predicate UniqueIds(rows: seq<Task>) {
    forall i, j :: 0 <= i < j < |rows| ==> rows[i].taskId != rows[j].taskId
  }

  /** The invariant of the stored table. */
  predicate ValidRows(rows: seq<Task>) {
    UniqueIds(rows) && forall k :: 0 <= k < |rows| ==> WellFormedRow(rows[k])
  }

  lemma ValidRowsAppend(rows: seq<Task>, t: Task)
    requires ValidRows(rows) && WellFormedRow(t)
    requires forall k :: 0 <= k < |rows| ==> rows[k].taskId != t.taskId
    ensures ValidRows(rows + [t])
  {
    var r := rows + [t];
    forall i, j | 0 <= i < j < |r| ensures r[i].taskId != r[j].taskId {
      if j == |rows| {
        assert r[i] == rows[i];
      } else {
        assert r[i] == rows[i] && r[j] == rows[j];
      }
    }
  }

  lemma ValidRowsReplace(rows: seq<Task>, i: nat, t: Task)
    requires ValidRows(rows) && i < |rows| && WellFormedRow(t)
    requires t.taskId == rows[i].taskId
    ensures ValidRows(rows[i := t])
  {
  }

  /** The row a successful creation appends: its text fields carry no
      surrounding whitespace, and it was created and last updated at the
      same moment. */
  function NewTask(taskId: string, title: string, description: string, owner: string, status: string, now: int)
    : (t: Task)
    ensures t.taskId == taskId && t.status == status
    ensures t.title == Strip(title) && t.description == Strip(description) && t.owner == Strip(owner)
    ensures t.createdAt == t.lastUpdatedAt == now
    ensures IsStripped(t.title) && IsStripped(t.description) && IsStripped(t.owner)
  {
    StripIdempotent(title);
    StripIdempotent(description);
    StripIdempotent(owner);
    Task(taskId, Strip(title), Strip(description), Strip(owner), status, now, now)
  }

  /** The row appended for valid fields satisfies the table invariant. */
  lemma NewTaskWellFormed(taskId: string, title: string, description: string, owner: string, status: string, now: int)
    requires FieldsValid(title, owner, status, Some(description))
    ensures WellFormedRow(NewTask(taskId, title, description, owner, status, now))
  {
    BlankIffStripsToEmpty(title);
    BlankIffStripsToEmpty(owner);
    StripIdempotent(title);
    StripIdempotent(owner);
    StripIdempotent(description);
    assert Strip(title) != [] && Strip(owner) != [];
  }

  /** Outcome of an update: `True`, or the reason it returned `False`. */
  datatype UpdateError = NoTasks | NotFound | TitleEmpty | OwnerEmpty | StatusNotValid
  datatype UpdateResult = Updated | Rejected(reason: UpdateError)

  /** The message shown when an update is refused: a single non-empty line,
      the same one validation shows for an invalid status. */
  function UpdateErrorMessage(e: UpdateError): (r: string)
    ensures |r| > 0 && '\n' !in r
    ensures e == StatusNotValid ==> r == FieldErrorMessage(StatusInvalid)
  {
    match e
    case NoTasks => OneLine("No tasks available to update.")
    case NotFound => OneLine("Task not found.")
    case TitleEmpty => OneLine("Title cannot be empty.")
    case OwnerEmpty => OneLine("Owner cannot be empty.")
    case StatusNotValid => StatusChoicesMessage()
  }

  predicate SuppliedTextBlank(field: Option<string>) {
    field.Some? && IsBlank(field.value)
  }

  predicate SuppliedStatusInvalid(status: Option<string>) {
    status.Some? && !IsValidStatus(status.value)
  }

  /** `after` is `before` with exactly the supplied fields replaced
      (text stripped) and its last-update time set to `now`; the id and the
      creation time are kept. */
  predicate RowUpdated(before: Task, after: Task, title: Option<string>, description: Option<string>,
                       owner: Option<string>, status: Option<string>, now: int) {
    && after.taskId == before.taskId
    && after.createdAt == before.createdAt
    && after.title == (if title.Some? then Strip(title.value) else before.title)
    && after.description == (if description.Some? then Strip(description.value) else before.description)
    && after.owner == (if owner.Some? then Strip(owner.value) else before.owner)
    && after.status == (if status.Some? then status.value else before.status)
    && after.lastUpdatedAt == now
  }

  /** An accepted update keeps a row well formed. */
  lemma RowUpdatedWellFormed(before: Task, after: Task, title: Option<string>, description: Option<string>,
                             owner: Option<string>, status: Option<string>, now: int)
    requires WellFormedRow(before)
    requires !SuppliedTextBlank(title) && !SuppliedTextBlank(owner) && !SuppliedStatusInvalid(status)
    ensures RowUpdated(before, after, title, description, owner, status, now) ==> WellFormedRow(after)
  {
    if title.Some? {
      BlankIffStripsToEmpty(title.value);
      StripIdempotent(title.value);
    }
    if description.Some? {
      StripIdempotent(description.value);
    }
    if owner.Some? {
      BlankIffStripsToEmpty(owner.value);
      StripIdempotent(owner.value);
    }
  }

  /** The verdict of the field checks of an update, made in the order
      title, owner, status. */
  function EditVerdict(title: Option<string>, owner: Option<string>, status: Option<string>): (r: UpdateResult)
    ensures r.Updated? <==> !SuppliedTextBlank(title) && !SuppliedTextBlank(owner) && !SuppliedStatusInvalid(status)
    ensures r.Rejected? ==> r.reason in {TitleEmpty, OwnerEmpty, StatusNotValid}
  {
    if SuppliedTextBlank(title) then Rejected(TitleEmpty)
    else if SuppliedTextBlank(owner) then Rejected(OwnerEmpty)
    else if SuppliedStatusInvalid(status) then Rejected(StatusNotValid)
    else Updated
  }

  /** Writes the supplied fields of row `i` of the copy `df` one at a
      time, stopping at the first field that fails its check, and finally
      stamps the row with `now`. Nothing is written back to the store here:
      a rejected edit leaves no trace. */
  method ApplyEdits(df: seq<Task>, i: nat, title: Option<string>, description: Option<string>,
                    owner: Option<string>, status: Option<string>, now: int)
    returns (result: UpdateResult, edited: seq<Task>)
    requires i < |df|
    ensures result == EditVerdict(title, owner, status)
    ensures result.Updated? ==>
      && |edited| == |df|
      && edited == df[i := edited[i]]
      && RowUpdated(df[i], edited[i], title, description, owner, status, now)
  {
    edited := df;
    var row := df[i];
    if title.Some? {
      if IsBlank(title.value) {
        return Rejected(TitleEmpty), edited;
      }
      row := row.(title := Strip(title.value));
    }
    if description.Some? {
      row := row.(description := Strip(description.value));
    }
    if owner.Some? {
      if IsBlank(owner.value) {
        return Rejected(OwnerEmpty), edited;
      }
      row := row.(owner := Strip(owner.value));
    }
    if status.Some? {
      if !IsValidStatus(status.value) {
        return Rejected(StatusNotValid), edited;
      }
      row := row.(status := status.value);
    }
    row := row.(lastUpdatedAt := now);
    edited := edited[i := row];
    result := Updated;
  }

  // ---- The store ----

  class TaskStore {
    var tasks: seq<Task>
    var thresholdDays: int

    ghost predicate Valid()
      reads this
    {
      && thresholdDays > 0
      && ValidRows(tasks)
    }

    /** First access: an empty table and the default threshold. */
    constructor ()
      ensures Valid()
      ensures tasks == [] && thresholdDays == DefaultInactivityThresholdDays
    {
      tasks := [];
      thresholdDays := DefaultInactivityThresholdDays;
    }

    /** Validates the fields; on success appends one new row with a fresh
        id, stripped text and equal creation and update times. */
    method CreateTask(title: string, description: Option<string>, owner: string, status: string,
                      freshId: string, now: int)
      returns (created: Option<Task>, errors: seq<FieldError>)
      requires Valid()
      requires forall k :: 0 <= k < |tasks| ==> tasks[k].taskId != freshId
      modifies this
      ensures Valid() && thresholdDays == old(thresholdDays)
      ensures errors == [] <==> FieldsValid(title, owner, status, description)
      ensures TitleRequired in errors <==> IsBlank(title)
      ensures OwnerRequired in errors <==> IsBlank(owner)
      ensures StatusInvalid in errors <==> !IsValidStatus(status)
      ensures DescriptionMissing in errors <==> description.None?
      ensures forall i, j :: 0 <= i < j < |errors| ==> Rank(errors[i]) < Rank(errors[j])
      ensures created.None? <==> errors != []
      ensures created.None? ==> tasks == old(tasks)
      ensures created.Some? ==>
        && description.Some?
        && created.value == NewTask(freshId, title, description.value, owner, status, now)
        && tasks == old(tasks) + [created.value]
    {
      errors := ValidateTaskFields(title, owner, status, description);
      if errors != [] {
        return None, errors;
      }
      var task := NewTask(freshId, title, description.value, owner, status, now);
      NewTaskWellFormed(freshId, title, description.value, owner, status, now);
      ValidRowsAppend(tasks, task);
      tasks := tasks + [task];
      created := Some(task);
    }

    /** Updates the supplied fields of the task with the given id. The
        edits are applied to a copy of the row (`ApplyEdits`); that row is
        written into a copy of the table once every check has passed, and
        the copy then replaces the stored table in a single assignment. */
    method UpdateTask(taskId: string, title: Option<string>, description: Option<string>,
                      owner: Option<string>, status: Option<string>, now: int)
      returns (result: UpdateResult)
      requires Valid()
      modifies this
      ensures Valid() && thresholdDays == old(thresholdDays)
      ensures old(tasks) == [] ==> result == Rejected(NoTasks)
      ensures old(tasks) != [] && FirstIndexOf(old(tasks), taskId).None? ==> result == Rejected(NotFound)
      ensures FirstIndexOf(old(tasks), taskId).Some? ==> result == EditVerdict(title, owner, status)
      ensures result.Rejected? ==> tasks == old(tasks)
      ensures result.Updated? ==>
        var i := FirstIndexOf(old(tasks), taskId).value;
        && |tasks| == |old(tasks)|
        && tasks == old(tasks)[i := tasks[i]]
        && RowUpdated(old(tasks)[i], tasks[i], title, description, owner, status, now)
        && forall k :: 0 <= k < |tasks| && tasks[k].taskId == taskId ==> k == i
    {
      var df := tasks;
      if |df| == 0 {
        return Rejected(NoTasks);
      }
      var idx := FirstIndexOf(df, taskId);
      if idx.None? {
        return Rejected(NotFound);
      }
      var i := idx.value;
      var edited;
      result, edited := ApplyEdits(df, i, title, description, owner, status, now);
      if result.Rejected? {
        return;
      }
      RowUpdatedWellFormed(tasks[i], edited[i], title, description, owner, status, now);
      ValidRowsReplace(tasks, i, edited[i]);
      tasks := edited;
    }

    /** `int(stored) or 3`: the stored threshold, or the default when the
        stored value is zero. */
    function InactivityThresholdDays(): (d: int)
      reads this
      ensures d != 0
      ensures thresholdDays == 0 ==> d == DefaultInactivityThresholdDays
      ensures thresholdDays != 0 ==> d == thresholdDays
      ensures thresholdDays >= 0 ==> d > 0
    {
      if thresholdDays == 0 then DefaultInactivityThresholdDays else thresholdDays
    }

    /** Rejects a non-positive threshold, leaving the old one in place; a
        rejection is reported with `ThresholdErrorMessage`. */
    method SetInactivityThresholdDays(days: int) returns (accepted: bool)
      requires Valid()
      modifies this
      ensures Valid() && tasks == old(tasks)
      ensures accepted <==> days > 0
      ensures thresholdDays == if accepted then days else old(thresholdDays)
    {
      if days <= 0 {
        return false;
      }
      thresholdDays := days;
      return true;
    }

    /** Empties the table; the threshold is kept. */
    method ResetAllTasks()
      requires Valid()
      modifies this
      ensures Valid()
      ensures tasks == [] && thresholdDays == old(thresholdDays)
    {
      tasks := [];
    }

    /** The table with derived metrics under the current threshold. */
    function DerivedView(now: int): (rows: seq<DerivedRow>)
      reads this
      ensures rows == WithDerivedMetrics(tasks, InactivityThresholdDays(), now)
      ensures |rows| == |tasks|
      ensures forall k :: 0 <= k < |rows| ==>
        && rows[k].task == tasks[k]
        && (rows[k].atRisk <==> rows[k].inactivityDays >= InactivityThresholdDays())
    {
      WithDerivedMetrics(tasks, InactivityThresholdDays(), now)
    }
  }

  // ---- Derived metrics ----

  /** `(now - t).days`: whole days elapsed, rounded down (so negative when
      `t` lies in the future). */
  function DaysSince(t: int, now: int): (d: int)
    ensures d * SecondsPerDay <= now - t < (d + 1) * SecondsPerDay
  {
    (now - t) / SecondsPerDay
  }

  /** Whole days since the task was created. */
  function AgeDays(t: Task, now: int): (d: int)
    ensures d * SecondsPerDay <= now - t.createdAt < (d + 1) * SecondsPerDay
  {
    DaysSince(t.createdAt, now)
  }

  /** Whole days since the task was last updated. */
  function InactivityDays(t: Task, now: int): (d: int)
    ensures d * SecondsPerDay <= now - t.lastUpdatedAt < (d + 1) * SecondsPerDay
  {
    DaysSince(t.lastUpdatedAt, now)
  }

  /** A task row extended with the five derived columns. */
  datatype DerivedRow = DerivedRow(
    task: Task,
    ageDays: int,
    inactivityDays: int,
    atRisk: bool,
    isBlocked: bool,
    isLongRunning: bool)

  /** The derived columns of one row. Each flag holds exactly when the
      corresponding amount of time, in seconds, has passed. */
  function Derive(t: Task, threshold: int, now: int): (d: DerivedRow)
    ensures d.task == t
    ensures d.ageDays == AgeDays(t, now) && d.inactivityDays == InactivityDays(t, now)
    ensures d.atRisk <==> now - t.lastUpdatedAt >= threshold * SecondsPerDay
    ensures d.isBlocked <==> t.status == "Blocked"
    ensures d.isLongRunning <==> t.status != "Completed" && now - t.createdAt >= 2 * threshold * SecondsPerDay
    ensures d.inactivityDays == threshold ==> d.atRisk
    ensures d.inactivityDays == threshold - 1 ==> !d.atRisk
  {
    var age := AgeDays(t, now);
    var inactivity := InactivityDays(t, now);
    DerivedRow(
      t, age, inactivity,
      inactivity >= threshold,
      t.status == "Blocked",
      t.status != "Completed" && age >= threshold * 2)
  }

  /** The original columns of a derived table. */
  function OriginalRows(rows: seq<DerivedRow>): seq<Task> {
    seq(|rows|, k requires 0 <= k < |rows| => rows[k].task)
  }

  /** The derived view of a table: same rows in the same order, every one
      extended with its metrics under the one threshold and the one `now`;
      dropping the derived columns gives back the table. */
  function WithDerivedMetrics(rows: seq<Task>, threshold: int, now: int): (r: seq<DerivedRow>)
    ensures |r| == |rows|
    ensures OriginalRows(r) == rows
    ensures forall k :: 0 <= k < |rows| ==> r[k] == Derive(rows[k], threshold, now)
  {
    if |rows| == 0 then []
    else seq(|rows|, k requires 0 <= k < |rows| => Derive(rows[k], threshold, now))
  }
}
