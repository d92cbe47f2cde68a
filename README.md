# tt: the timing core of a command-line time tracker

`tt` logs *stints* of work against named *projects* in an SQLite database. It
also reports the hours worked on a local calendar date. This project models
the timing core of `tt.py` in Dafny and proves properties of the model:

- **`TimeModel`** (`time_model.dfy`): instants are integer seconds in UTC, dates
  are local day numbers, and a time of day counts seconds after local
  midnight. The local timezone is a fixed UTC offset passed as a parameter.
  `Moment` stands for a timezone-aware `datetime`: a wall-clock reading plus
  its offset. This module also holds `combine_date_time` and the day window
  `date_limits`.
- **`Records`** (`records.dfy`): the `project` and `stint` rows, the errors that
  `add` and `get_project` raise, and the joining of the description words.
- **`Aggregation`** (`aggregation.dfy`): `stints_by_date`, which selects the
  stints of a date; `hours_by_date`, which clips each selected stint to the
  date's window and sums the parts (kept in seconds); and the sort by start
  that `liststints` applies before it prints.
- **`Tracker`** (`tracker.dfy`): how `add` resolves a stint's start and end,
  `get_project`, and a `Store` class holding the two tables as sequences.
  `Store.Add` resolves the times, may insert a new project, looks up the
  project by name and appends the stint.

The model follows what the code does, with one exception, and keeps these
behaviours:

- The day totals (`Contribution`, `HoursByDate` and the lemmas about them) take
  the stored start and end as UTC instants. That is the intended reading, not
  the code as written: the stored readings come back without an offset, and
  the code takes them as local time (see "## Findings").
  `HoursByDateAsLoaded` is the total as the code computes it.

- `add` never checks that the start comes before the end (`InvertedSpanAccepted`).
- The selection is strict at both ends of the window. A stint that starts
  exactly at local midnight counts only if its end lies inside the window. A
  stint that spans the whole date is not counted (`SpanningStintNotCounted`).
- There are no marks, no "since last stint" mode, no staleness guards and no
  range of dates. The code has none of them.
- Project names are not unique. `get_project` fails when two projects share a
  name (`one_or_none`). So `add --new_project` with a name that already exists
  commits a second project of that name in its own session. The lookup then
  fails, and no stint is added (`DuplicateNewProjectScenario`).

## Model

| member | source | states |
|---|---|---|
| TimeModel.CombineDateTime | tt.py:57-61 | a local date and time of day, read in the local timezone, give a moment in that timezone whose instant falls on that local date at that time of day |
| TimeModel.CombineLocalParts | tt.py:57-61 | every instant is the combination of its own local date and time of day, so the combination is onto |
| TimeModel.Moment.ToUtc | tt.py:136-137 | reading a moment in UTC keeps its instant and gives offset zero |
| TimeModel.Moment.Minus | tt.py:121 | subtracting a span keeps the timezone and moves the instant back by exactly that span |
| TimeModel.Today | tt.py:64-65 | today's date is the local date of the current instant: the local clock reads the instant at or after that date's midnight and before the next one |
| TimeModel.DateLimits | tt.py:145-148 | the window of a date starts at local midnight of that date, read in UTC, and is exactly 86400 seconds long |
| TimeModel.WindowIsLocalDate | tt.py:145-148 | an instant lies in the half-open window of a date if and only if it falls on that local date |
| TimeModel.ConsecutiveWindows | tt.py:145-148 | the window of the next date starts where the window of a date ends |
| Records.Join | tt.py:139 | the description is the words separated by single spaces; it begins with the first word and ends with the last (see SplitJoin, JoinLength) |
| Records.SplitJoin | tt.py:139 | the stored description keeps the words apart: splitting it at its spaces gives back the words, provided no word holds a space |
| Records.JoinLength | tt.py:139 | the description is the words' letters plus exactly one space between each pair of neighbouring words |
| Aggregation.StintsByDate | tt.py:151-160 | a stint is selected, as often as it occurs in the store, if and only if its start or its end lies strictly inside the date's window |
| Aggregation.SpanningStintNotCounted | tt.py:151-160 | a stint that starts at or before local midnight and ends at or after the next midnight is not selected and leaves the date's total unchanged |
| Aggregation.Contribution | tt.py:166-168 | a selected stint whose start is not after its end contributes between zero and its own length, and at most the window's length (intended reading, see ## Findings) |
| Aggregation.HoursByDate | tt.py:163-171 | the date's total is zero when no stint is selected; when every stint the date selects starts no later than it ends (stints of other dates may be inverted) it lies between zero and the selected stints' summed lengths, and at most one day per selected stint (intended reading, see ## Findings) |
| Aggregation.TotalBounds | tt.py:166-171 | the sum of clipped parts of selected, well-formed stints is between zero and their summed lengths, and at most one day each (intended reading, see ## Findings) |
| Aggregation.TotalAppend | tt.py:171 | the sum over two runs of stints is the sum of the two sums |
| Aggregation.TotalPermutation | tt.py:165-171 | the total does not depend on the order in which the query returns the stints |
| Aggregation.HoursByDateIsGuardedTotal | tt.py:163-171 | selecting and then summing equals one pass that adds each stint's clipped part when the stint is selected |
| Aggregation.MidnightSplit | tt.py:163-171 | a stint running from one date's window into the next date's window is selected on both dates, and its two clipped parts add up to its whole length (intended reading, see ## Findings) |
| Aggregation.MidnightScenario | tt.py:163-171 | a stint from 23:00 to 01:00 counts exactly one hour on each of its two dates, in any fixed timezone (intended reading, see ## Findings) |
| Aggregation.WorkdayScenario | tt.py:163-171 | stints 09:00-12:00 and 13:00-13:30 on one date total three and a half hours (intended reading, see ## Findings) |
| Aggregation.Insert | tt.py:190-192 | inserting a stint into rows sorted by start keeps them sorted and adds exactly that stint |
| Aggregation.SortByStart | tt.py:190-192 | the sorted rows are ordered by start and are a permutation of the input |
| Aggregation.ListStints | tt.py:185-192 | the listed rows are ordered by start and are exactly the selection the total is computed from, as a multiset |
| Aggregation.HoursByDateAsLoaded | tt.py:163-171 | the total as written, on rows whose stored UTC readings come back without an offset and are taken as local time; in UTC it agrees with the corrected total |
| Aggregation.AsLoadedInUtc | tt.py:166-168 | with offset zero, taking the stored readings as local time changes nothing |
| Aggregation.AsLoadedNegativeContribution | tt.py:163-171 | one hour east of UTC, a well-formed stint from 00:10 to 00:20 local time contributes minus 2400 seconds to the total as written, where the intended total is 600 seconds |
| Aggregation.AsLoadedMisSplitsMidnight | tt.py:163-171 | one hour east of UTC, the total as written counts a 23:00-01:00 stint as two hours on its first date and none on its second |
| Tracker.Resolve | tt.py:112-126 | an end of "now" on a date other than today fails; both or neither of start time and duration fail; otherwise the end is the current instant in UTC or the local date and time, and the start is the end minus the duration or the local date and start time |
| Tracker.InvertedSpanAccepted | tt.py:120-126 | a start time after the end time is accepted: nothing checks that the start comes first |
| Tracker.GetProject | tt.py:68-76 | the lookup returns a project of that name when exactly one exists; it fails with no-such-project if and only if none has the name, and with multiple-projects if and only if two or more do |
| Tracker.GetProjectAfterInsert | tt.py:128-134 | after a project is appended under a name, the lookup finds that project if no earlier one had the name, and otherwise fails with multiple projects |
| Tracker.GetProjectOtherName | tt.py:68-76 | appending a project under another name leaves a lookup as it was |
| Tracker.Store.constructor | tt.py:23-38 | a new store has empty project and stint tables and satisfies the id and foreign-key invariant |
| Tracker.Store.Add | tt.py:112-142 | a resolution error changes nothing; a new project gets the next id and is kept even when the lookup then fails; on success exactly one stint is appended, with UTC start and end, the found project's id, the words joined by spaces and the comment |
| Tracker.DuplicateNewProjectScenario | tt.py:128-142 | on a fresh store, a first `add` with a new project stores its stint under project 1; a second with the same new name leaves two projects, one stint and a multiple-projects error |

## Left out

- The click command and option declarations and the `cli` context set-up (tt.py:79-99, tt.py:174-185) are argument-parsing glue.
- `session_scope`, the engine and commit/rollback (tt.py:41-54) are not modelled. Inserts are sequence appends. The two sessions of `add` show only in that a new project stays when the stint's lookup fails.
- The SQL query construction is replaced by the selection predicate stated directly over the stint sequence.
- The clock and the system timezone are parameters: `now` is the current UTC instant and `offset` is one UTC offset used for every date. The code's window (tt.py:146-147) is 24 hours on every date too, because `astimezone()` (tt.py:61) attaches the fixed offset in force at that midnight. What one `offset` parameter hides is that the offset can change between dates, as it does at a daylight-saving change. On such a date the code's window ends an hour before or after the next local midnight, so consecutive windows overlap or leave a one-hour gap. `TimeModel.ConsecutiveWindows` and `Aggregation.MidnightSplit` hold only because the model uses the same offset for both dates.
- Python's `datetime` covers the years 1 to 9999 only. Outside that range `timedelta(minutes=duration)` and the subtraction at tt.py:121 raise `OverflowError`, and so does `earliest + timedelta(days=1)` at tt.py:147 (for example, on 9999-12-31 the `hours` and `liststints` commands fail). In the model, dates, instants and durations are unbounded integers. So `TimeModel.DateLimits`, `Tracker.Resolve` and `Tracker.Store.Add` succeed there, and that error path is not modelled.
- `fromisoformat` and `strptime` (tt.py:57-61) are not modelled. Dates and times of day arrive as already-parsed numbers. The check "date is today" compares day numbers. The code compares the date string with `today().isoformat()`, so it would reject an equivalent date written another way.
- Sub-second precision is not modelled, and neither is the float in `--duration`: the duration is a whole number of minutes. The final division by 3600 (tt.py:171) is not modelled either: totals stay in seconds.
- Printing and `strftime` formatting in `liststints` and `hours` (tt.py:177-199) and the default database path (tt.py:82) are not modelled.
- The stint's own integer id is not modelled: nothing in the core reads it. The project description is never set by the core, and new projects get none.
- Requiring at least one description word is the command line's job, not `add`'s. `Store.Add` accepts an empty word list.
- Aggregation.SortByStart: does not state that the sort is stable (Python's `sorted` keeps stints with equal starts in their query order); it states sortedness and permutation only.

## Findings

| source | as written | input that shows it | evidently intended | confidence | as-written member | corrected member |
|---|---|---|---|---|---|---|
| tt.py:166-168 | the stored start and end come back from the DateTime column without an offset (they were stored as UTC readings); `astimezone(timezone.utc)` takes such a reading as local time, so every stint is clipped as if it lay `offset` seconds earlier | local offset +01:00, one stint from 23:00 on a date to 01:00 on the next: the date gets 2 h, the next date 0 h | the stored readings are UTC instants, and the stint counts 1 h on each date | medium, not executed; rests on the SQLite DateTime column dropping the offset | Aggregation.AsLoadedMisSplitsMidnight | Aggregation.MidnightScenario |
| tt.py:166-168 | the same shift can give a well-formed stint a negative part, so a day's total can be negative | local offset +01:00, one stint from 00:10 to 00:20 on a date: as written it contributes -2400 s | a stint starting no later than it ends contributes between zero and its length (here 600 s) | medium, not executed; rests on the SQLite DateTime column dropping the offset | Aggregation.AsLoadedNegativeContribution | Aggregation.HoursByDate |
