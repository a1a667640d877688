# WorkStream-Monitor task store and analytics, in Dafny

WorkStream-Monitor is a small dashboard for tracking work items. Its logic
lives in two Python files. This project models both and proves properties of
the model.

- `task_manager.py` keeps the task table and the inactivity threshold. It
  validates fields, creates tasks, updates them field by field, resets the
  table, reads and sets the threshold, and derives per-task metrics: age,
  inactivity, and the at-risk, blocked and long-running flags.
- `analytics.py` aggregates the derived table into a health snapshot and a
  four-line daily summary.

The project has three modules.

- `Text` (`text.dfy`) models the Python string operations the program relies
  on:
  - `str.strip()`, using Python's whitespace set;
  - `", ".join(...)` and `"\n".join(...)`;
  - `str(n)` for counts.

  It also defines `SplitLines` (what `s.split("\n")` gives). The program
  never splits a text. `SplitLines` is there only to state that a
  newline-joined text, such as the daily summary or the error text of a
  rejected creation, consists of exactly the lines it was joined from.
- `TaskManager` (`task_manager.dfy`) models the task store.
  - `TaskStore` is a class whose fields are the session's task table and
    threshold.
  - `CreateTask`, `UpdateTask`, `SetInactivityThresholdDays` and
    `ResetAllTasks` change those fields.
  - `TaskStore.Valid()` is the invariant every operation keeps:
    - the threshold is positive;
    - task ids are unique;
    - title and owner are stripped and non-empty;
    - the description is stripped;
    - the status is one of the four valid statuses.
  - `UpdateTask` reproduces the copy-then-commit structure of
    `update_task`.
    - `ApplyEdits` writes the supplied fields one at a time into a copy of
      the row being updated, and stops at the first failing check.
    - Only after every check has passed does it put that row into its copy
      of the table.
    - The store is assigned that table copy only at the end.

    The program instead writes each field straight into its table copy, so
    that copy can hold a partial edit when a later check fails. Either way
    the copy is dropped on rejection, so a rejected update leaves the store
    as it was.
  - The derived metrics (`Derive`, `WithDerivedMetrics`) are pure functions
    of a row, the threshold and the current time.
- `Analytics` (`analytics.dfy`) models `compute_health` and `daily_summary`
  as pure functions over the derived table.

Timestamps are whole seconds (`int`). Whole days are `(now - t) / 86400`,
which rounds down like `timedelta.days`. The current time and the fresh task
id are parameters: the program takes them from the system clock and from
`uuid4`. The fresh id must differ from every stored id.

The program shows messages with `st.error` / `st.warning`. The model returns
the outcomes as values instead:

- A rejected creation returns its list of `FieldError`. Each error's text is
  `FieldErrorMessage`, and the newline-joined text the program shows is
  `ErrorText`.
- A refused update returns `Rejected` with an `UpdateError`, whose text is
  `UpdateErrorMessage`.
- A refused threshold is reported by `SetInactivityThresholdDays` returning
  `false`. The text the program shows then is the constant
  `ThresholdErrorMessage`.

`compute_health` and `daily_summary` read the threshold through
`get_inactivity_threshold_days`. In the model it is an argument: a caller passes
`TaskStore.InactivityThresholdDays()`, as `TaskStore.DerivedView` does.

## Model

| member | source | states |
|---|---|---|
| Text.TrimStart | task_manager.py:51 | the left half of `strip()`: the result is a suffix of the input that is empty or starts with non-whitespace |
| Text.TrimStartDropsWhitespace | task_manager.py:51 | everything the left half of `strip()` drops is whitespace |
| Text.TrimEnd | task_manager.py:51 | the right half of `strip()`: the result is a prefix of the input that is empty or ends with non-whitespace |
| Text.TrimEndDropsWhitespace | task_manager.py:51 | everything the right half of `strip()` drops is whitespace |
| Text.Strip | task_manager.py:75-77 | `strip()` never lengthens a text, and a non-empty result starts and ends with a non-whitespace character |
| Text.StripIsTrimmedSlice | task_manager.py:75-77 | `strip()` returns a contiguous slice of its input whose removed prefix and suffix are all whitespace |
| Text.BlankIffStripsToEmpty | task_manager.py:51 | the test `not s or not s.strip()` holds exactly when the text is all whitespace (or empty) |
| Text.StripIdempotent | task_manager.py:114 | a stripped text has no surrounding whitespace, and stripping an already stripped text changes nothing |
| Text.Join | analytics.py:42-47 | every character of `sep.join(parts)` comes from one of the parts or from the separator |
| Text.SplitLines | analytics.py:42-47 | splitting a text on newlines gives at least one line, and no line contains a newline |
| Text.SplitJoinLines | analytics.py:42-47 | joining newline-free lines with "\n" and splitting the result gives back exactly those lines |
| Text.NatToDecimal | analytics.py:43 | `str(n)` of a count is a non-empty string of decimal digits with no leading zero |
| Text.DecimalRoundTrip | analytics.py:43 | the digits printed for a count denote that count (`int(str(n)) == n`) |
| TaskManager.StatusChoicesMessage | task_manager.py:56 | the invalid-status message is a single non-empty line |
| TaskManager.StatusChoicesListed | task_manager.py:56 | the invalid-status message is the caption followed by the valid statuses, in order, joined by ", " |
| TaskManager.FieldErrorMessage | task_manager.py:51-58 | each validation error's message is a single non-empty line |
| TaskManager.ErrorText | task_manager.py:68-69 | the newline-joined text of a non-empty error list splits back into exactly the errors' messages, in order |
| TaskManager.ErrorList | task_manager.py:49-59 | the error list is empty exactly when no check fails; each error is present exactly when its check fails; errors appear once each, in check order |
| TaskManager.ValidateTaskFields | task_manager.py:49-59 | no errors iff title and owner are non-blank, the status is valid and a description is given; each failing check contributes exactly its own error, in check order |
| TaskManager.FirstIndexOf | task_manager.py:104-108 | the lookup finds nothing exactly when no row has the id; otherwise it finds the first row with that id |
| TaskManager.NewTask | task_manager.py:72-81 | the new row keeps the given id and status, has creation time equal to update time equal to `now`, and its title, description and owner are the given ones stripped of surrounding whitespace |
| TaskManager.NewTaskWellFormed | task_manager.py:72-81 | a task built from validated fields has stripped, non-empty title and owner, a stripped description and a valid status |
| TaskManager.RowUpdatedWellFormed | task_manager.py:110-126 | an update whose supplied fields pass the checks keeps a row well formed |
| TaskManager.UpdateErrorMessage | task_manager.py:101-124 | each refused update's message is a single non-empty line, and an invalid status gives the same message as validation |
| TaskManager.EditVerdict | task_manager.py:110-126 | an update is accepted exactly when no supplied title or owner is blank and no supplied status is invalid; otherwise the reason is one of those three |
| TaskManager.ApplyEdits | task_manager.py:110-128 | the field-by-field writes into the copy give `EditVerdict`'s result; on success only row `i` of the copy changes, and it holds exactly the supplied fields (stripped) and the new update time |
| TaskManager.TaskStore.constructor | task_manager.py:19-34 | first access gives an empty table and the default threshold of 3 days, and the store invariant holds |
| TaskManager.TaskStore.CreateTask | task_manager.py:64-86 | with any validation error: no task is returned, the errors are exactly the failing checks in check order, and the table is unchanged. Otherwise one new row is appended after the existing rows: fresh id, stripped text, the given status, and creation time equal to update time equal to `now`. The invariant and the threshold are kept |
| TaskManager.TaskStore.UpdateTask | task_manager.py:89-130 | an empty table is rejected with "no tasks" and an unknown id with "not found". Otherwise the verdict is `EditVerdict`. A rejected update leaves the table unchanged, including fields written before the failing check. An accepted one changes only the first row with the id, and only its supplied fields and update time. The id, the creation time, the row count and all other rows stay the same, and the updated row is the only one with that id |
| TaskManager.TaskStore.InactivityThresholdDays | task_manager.py:145-147 | the threshold read is 3 when the stored value is 0 and the stored value otherwise, so it is never zero, and it is positive when the stored value is not negative |
| TaskManager.TaskStore.SetInactivityThresholdDays | task_manager.py:150-154 | a value is accepted exactly when it is positive. An accepted value becomes the threshold; a rejected one leaves the old threshold. The table is untouched |
| TaskManager.TaskStore.ResetAllTasks | task_manager.py:172-186 | the table becomes empty and the threshold is unchanged |
| TaskManager.TaskStore.DerivedView | task_manager.py:159-169 | the derived view of the store is `WithDerivedMetrics` of the stored table under the threshold the getter returns: one row per task in order, each carrying its task unchanged, and a row is at risk exactly when its inactivity reaches the current threshold |
| TaskManager.DaysSince | task_manager.py:137 | the whole number of days is the floor of the elapsed seconds over 86400 |
| TaskManager.AgeDays | task_manager.py:135-137 | the age in days is the floor of the seconds since creation over 86400 |
| TaskManager.InactivityDays | task_manager.py:140-142 | the inactivity in days is the floor of the seconds since the last update over 86400 |
| TaskManager.Derive | task_manager.py:163-168 | at-risk holds iff at least `threshold` days of seconds have passed since the last update; blocked iff the status is "Blocked"; long-running iff not "Completed" and at least `2*threshold` days of seconds have passed since creation; inactivity equal to the threshold is at risk, one day less is not |
| TaskManager.WithDerivedMetrics | task_manager.py:159-169 | the derived table has the same rows in the same order, dropping the derived columns gives back the input, and every row is derived with the same threshold and `now` |
| Analytics.CountFlag | analytics.py:13-15 | the sum of a boolean column is at most the number of rows |
| Analytics.CountFlagIsIndexCount | analytics.py:13-15 | the sum of a boolean column equals the number of rows where the flag is true |
| Analytics.Frequencies | analytics.py:17-18 | `value_counts()` has exactly the column's values as keys, each mapped to its number of occurrences, which is at least 1 |
| Analytics.FrequenciesSumToLength | analytics.py:17-18 | the counts of a frequency map add up to the length of the column |
| Analytics.DistinctCount | analytics.py:46 | the number of distinct owners is at most the number of rows, and at least 1 when there are rows |
| Analytics.DistinctValuesBounds | analytics.py:46 | a column has no more distinct values than rows, and at least one when it is not empty |
| Analytics.ComputeHealth | analytics.py:10-27 | the total is the number of tasks, and each flag count is at most the total. The status and owner maps are the frequency maps of those columns. An empty table gives all zeros and empty maps |
| Analytics.HealthCounts | analytics.py:10-15 | blocked, at-risk and long-running each count exactly the tasks whose stored status and timestamps meet that flag's condition |
| Analytics.HealthMapsSumToTotal | analytics.py:17-18 | the values of the status map, and of the owner map, each add up to the total |
| Analytics.SummaryFigures | analytics.py:30-46 | the summary's total is the number of tasks. Its blocked and at-risk figures equal the health snapshot's. Active owners is the number of distinct owners in the table. Completed-today and active owners are at most the total. There is at least one active owner when there are tasks, and every figure is zero for an empty table |
| Analytics.OwnersActiveMatchesHealth | analytics.py:10-46 | for a non-empty table, the summary's active-owner count equals the number of owners in the health snapshot's per-owner breakdown |
| Analytics.SummaryLines | analytics.py:42-47 | the summary consists of four lines, none of which holds a newline |
| Analytics.DailySummary | analytics.py:30-47 | the summary text, split on newlines, gives back exactly its four lines |
| Analytics.DailySummaryLines | analytics.py:30-47 | `daily_summary` is exactly four lines, in order: `Total tasks: N` with N the number of tasks, `Blocked: B, At-Risk: R` with the health snapshot's blocked and at-risk counts, `Completed today: C` and `Owners active: O` with O the number of distinct owners |
| Analytics.CompletedTodayCount | analytics.py:36-40 | "completed today" counts the tasks whose status is "Completed" and whose last update is less than one day before `now` and not after it |

## Left out

- Streamlit `session_state` is left out. The store is an explicit `TaskStore` object, and its constructor stands for the first call of `_init_session_state`.
- `st.error` and `st.warning` are left out. The messages are returned as values, and their texts are modelled as `FieldErrorMessage` and `UpdateErrorMessage`.
- `uuid.uuid4()` and `datetime.utcnow()` are foreign, nondeterministic calls. They become the `freshId` and `now` parameters.
- The model reads the clock once per derived table. The program reads it separately for every row and for age and inactivity. The time that passes between those reads is not modelled.
- ISO-8601 timestamp text and `datetime.fromisoformat` are left out: timestamps are whole seconds, and sub-second precision is not modelled.
- The store invariant does not include `last_updated_at >= created_at`. The clock is a parameter, so nothing here makes successive readings non-decreasing.
- CSV persistence (`save_tasks_to_csv`, `load_tasks_from_csv`) is file I/O through pandas and is left out.
- `TaskStore.Valid()` holds only for tables built by the modelled operations. `load_tasks_from_csv` (task_manager.py:211-226) fills missing columns with "" and keeps the ids found in the file, so the program can hold blank titles or duplicate ids. The operations whose contracts have `requires Valid()` do not model such a table.
- `seed_demo_tasks` is left out. It only replaces the table with five constant rows built with fresh ids and clock readings.
- `app.py` (the Streamlit layout, forms and filter chain) and `ui_components.py` (Altair charts, metric widgets) are presentation code and are left out.
- pandas handling of missing values (NaN in `value_counts` / `unique`) is left out. Every field of a modelled row holds a string.
- `validate_task_fields` also accepts `None` for a title or owner: `not title` / `not owner` make it report "Title is required." / "Owner is required.". `ValidateTaskFields` and `CreateTask` take both as `string`, so that `None` path is not modelled. `update_task` uses `None` for "not supplied", which the model does cover.
- SetInactivityThresholdDays: the rejection text `ThresholdErrorMessage` is a constant of the model that the method does not return. A rejection is the result `false`.
- Frequencies: the order of the dictionary's keys is not modelled, because `value_counts` sorts by descending count and the model returns a map.
