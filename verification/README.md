# Lifestyle factor and mood tracker: a Dafny model of its core

This project models the logic of a personal tracker. It records daily
binary "lifestyle factors", such as habits, and numeric wellbeing or mood
measurements. The model covers four parts:

- **Lifestyle factor router** (`LifestyleFactors`, `FactorStats`):
  - listing the active factors;
  - deleting a factor together with its entries;
  - archive and unarchive;
  - the per-day entry upsert;
  - the statistics endpoint: total and completed days, completion rate, longest streak and current streak.
- **Mood router** (`Mood`):
  - the mood entry listing, with its optional date window, newest-first order and limit;
  - the summary statistics: the mood average, nine optional per-scale averages, the entry count and the date range.
- **Backfill job** (`Backfill`): pads every active factor with explicit "not completed" entries. It covers every day from the earliest entry in the database up to today.
- **Client store** (`ClientStore`): the list transformers the browser applies to its cached habits, habit entries and mood entries.

Shared definitions live in `Common` (`Option`, `Result`, `Day`). `Sequences`
holds the generic sequence toolkit: filter, count, a stable insertion sort,
first match and upsert by key.

Modelling conventions:

- Dates are whole day numbers (`Day = int`), and "today" is a parameter.
- A database table is a sequence in storage order. A query's `.first()` is
  the first match in that order.
- An endpoint's 404 is `Err(NotFound)`.
- Arithmetic on measurements is exact (`real`).
- The streak loops are methods whose loop invariants tie them to
  declarative definitions: `IsLongestRun` and `IsCurrentRun`.
- The backfill job is a method that returns the entry table after the job,
  with the new rows appended.

Behaviour of the code that the model keeps as written:

- **Current streak.** The backwards scan does not stop at a missing day. It stops at the
  first entry that is not completed, or is older than `len(entries)` days
  (`lifestyle_factors.py:190`). `IsCurrentRun` states exactly that check.
- **Zero averages.** A per-scale average whose value is 0 is reported as null, because the code
  tests the average's truthiness (`mood.py:150-158`). An empty scale is null as well.
- **Empty mood summary.** The mood average of an empty window is `0.0`, not null (`mood.py:102`).
- **Backfill range.** The script's docstring speaks of the dates "between the habit's creation
  and today" (`backfill_habit_not_completed.py:10`). The code starts every factor at the
  earliest entry of any factor (`backfill_habit_not_completed.py:58-59`), and the model
  follows the code.

## Model

| member | source | states |
|---|---|---|
| LifestyleFactors.ListFactors | backend/app/routers/lifestyle_factors.py:19-25 | Exactly the active factors, or every factor when inactive ones are included, each with its original multiplicity, ordered by creation time |
| LifestyleFactors.DeleteFactor | backend/app/routers/lifestyle_factors.py:50-63 | NotFound exactly when no factor has the id. Otherwise it removes one factor and keeps every factor with another id. No entry of the deleted id survives, and every other entry is kept. With unique ids, no factor with that id is left |
| LifestyleFactors.RemovingFoundFactor | backend/app/routers/lifestyle_factors.py:53-61 | With unique ids, removing the factor found for an id leaves no factor with that id |
| LifestyleFactors.SetActive | backend/app/routers/lifestyle_factors.py:68-74 | NotFound exactly when the id is unknown. Otherwise only the found factor's active flag changes; every other column and every other factor stays the same |
| LifestyleFactors.Archive | backend/app/routers/lifestyle_factors.py:65-75 | NotFound exactly when the id is unknown. Under unique ids, the factor with that id is inactive afterwards |
| LifestyleFactors.ArchiveHidesFactor | backend/app/routers/lifestyle_factors.py:19-25 | Under unique ids, an archived factor no longer appears in the default listing |
| LifestyleFactors.Unarchive | backend/app/routers/lifestyle_factors.py:77-87 | NotFound exactly when the id is unknown. Otherwise the factor appears in the default listing |
| LifestyleFactors.LogEntry | backend/app/routers/lifestyle_factors.py:96-116 | The logged entry is stored. The table keeps its length exactly when an entry for that factor and date already existed, and grows by one otherwise. The first entry for that factor and date is replaced at its index by the logged entry, later duplicates of the pair are untouched, and entries for other (factor, date) pairs are untouched |
| LifestyleFactors.LogEntryIdempotent | backend/app/routers/lifestyle_factors.py:96-116 | Logging the same entry twice leaves the table as logging it once |
| LifestyleFactors.LogEntryKeepsOneEntryPerDay | backend/app/routers/lifestyle_factors.py:99-110 | One entry per (factor, date) is preserved, and that entry carries the logged completed flag and notes |
| FactorStats.CompletionRate | backend/app/routers/lifestyle_factors.py:168 | The rate is completed/total as a percentage, 0 for no days, and lies in [0, 100] |
| FactorStats.CompletionRateMonotonic | backend/app/routers/lifestyle_factors.py:168 | More completed days never lower the rate |
| FactorStats.PastEnd | backend/app/routers/lifestyle_factors.py:187-189 | The boundary of the entries dated today or earlier; the entry just after it is in the future |
| FactorStats.LongestStreak | backend/app/routers/lifestyle_factors.py:171-183 | The scan's maximum equals the length of the longest run of consecutive completed entries |
| FactorStats.RunsBoundedAfterStep | backend/app/routers/lifestyle_factors.py:178-183 | One scan step keeps every run seen so far within the running maximum |
| FactorStats.RunWithinCompleted | backend/app/routers/lifestyle_factors.py:165-181 | A run of completed entries is no longer than the number of completed entries |
| FactorStats.CurrentStreak | backend/app/routers/lifestyle_factors.py:185-193 | On date-sorted entries, the count is the length of the run of counted entries ending at the last entry not in the future. Counted means completed and at most the given number of days old. The run is maximal |
| FactorStats.LongestWithinCompleted | backend/app/routers/lifestyle_factors.py:165-183 | The longest streak is at most the completed count, and it is zero exactly when nothing was completed |
| FactorStats.CurrentWithinLongest | backend/app/routers/lifestyle_factors.py:171-193 | The current streak never exceeds the longest streak |
| FactorStats.ComputeStats | backend/app/routers/lifestyle_factors.py:150-203 | The totals match the entries and their completed count. It also states the rate and its bounds, zeros for an empty history, and both streaks on the date-sorted entries. Current <= longest <= completed, and longest is 0 exactly when nothing was completed |
| FactorStats.GetStats | backend/app/routers/lifestyle_factors.py:143-203 | NotFound exactly when the factor is unknown. Otherwise the statistics carry the found factor's id and name and cover exactly the entries of that factor. Its total and completed counts, the rate, the longest run and the current run are all stated on the date-sorted entries, and current <= longest <= completed |
| Mood.MeanBounds | backend/app/routers/mood.py:117-144 | The mean of a non-empty list lies between its minimum and maximum |
| Mood.ReadingsCount | backend/app/routers/mood.py:119-144 | A scale's contributing values are exactly the entries where that scale is recorded |
| Mood.ReportedAverage | backend/app/routers/mood.py:120-150 | Null when nothing was recorded or the mean is zero; otherwise the sum divided by the count |
| Mood.MetricAverage | backend/app/routers/mood.py:119-158 | A scale's reported average is the mean of its recorded values; it is null exactly when there are none or the mean is zero |
| Mood.EarliestDate | backend/app/routers/mood.py:146-161 | A date that occurs in the entries and is no later than any of them |
| Mood.LatestDate | backend/app/routers/mood.py:146-162 | A date that occurs in the entries and is no earlier than any of them |
| Mood.Summarise | backend/app/routers/mood.py:100-164 | The count is the number of entries, and an empty input gives 0.0 and no range. The mood average is the mean score, each scale's average is its reported average, and the range is attained and bounds every date |
| Mood.MetricAverageOrderFree | backend/app/routers/mood.py:98-144 | A scale's reported average is the same for any order of the same entries |
| Mood.SummaryOrderFree | backend/app/routers/mood.py:98-164 | The whole summary is the same for any order of the same entries, so the unordered query result determines it |
| Mood.GetMoodStats | backend/app/routers/mood.py:84-98 | The count is the number of entries inside the optional window, and the reported range lies inside the window |
| Mood.AveragesWithinRange | backend/app/routers/mood.py:116-144 | Every reported average lies between the smallest and the largest value it averages |
| Mood.Clear | backend/app/routers/mood.py:119-144 | Clearing one scale of an entry leaves its other scales, score and date as they were |
| Mood.MissingReadingIsolated | backend/app/routers/mood.py:116-144 | An entry missing one scale still feeds the mood average and every other scale's average unchanged |
| Mood.NewestWindow | backend/app/routers/mood.py:30-37 | Exactly the entries inside the optional window, each with its multiplicity, newest date first |
| Mood.GetMoodEntries | backend/app/routers/mood.py:22-37 | Only entries inside the optional window, each at most as often as in the window, newest date first. Without an effective limit the result is the whole window; otherwise it holds exactly `limit` entries. A negative limit means no bound |
| Mood.GetMoodEntriesKeepsNewest | backend/app/routers/mood.py:37 | Every in-window entry is either returned or no newer than any returned entry, so the limit keeps the newest ones |
| Backfill.GlobalStart | backend/backfill_habit_not_completed.py:57-59 | The earliest entry date across all factors, or today when there are no entries |
| Backfill.PadDay | backend/backfill_habit_not_completed.py:82-94 | One day of the inner loop pads that day exactly when it has no entry |
| Backfill.PadFactor | backend/backfill_habit_not_completed.py:72-94 | The padding is not-completed, note-less entries on exactly the days from start to today that have no entry, in ascending order. Their number is the count of missing days |
| Backfill.NothingActiveNothingMissing | backend/backfill_habit_not_completed.py:39-43 | With no active factor, the job has nothing to add |
| Backfill.PadStep | backend/backfill_habit_not_completed.py:64-97 | Padding one more active factor keeps the outer loop's invariant |
| Backfill.BackfillEntries | backend/backfill_habit_not_completed.py:37-100 | Every run meets `JobResult`: the rows found are kept, and only padding is appended. Each pad belongs to an active factor, lies in the range and was missing. Nothing is added when unconfirmed or with no active factor. Otherwise every active factor has an entry on every day of the range, and the count equals the missing days. Under unique ids, no two new rows share a (factor, date) |
| Backfill.GlobalStartStable | backend/backfill_habit_not_completed.py:57-59 | Adding rows dated inside the range does not move its start |
| Backfill.NoDayMissing | backend/backfill_habit_not_completed.py:82-94 | A factor with an entry on every day of the range misses none |
| Backfill.CoveredTableNeedsNoPadding | backend/backfill_habit_not_completed.py:64-97 | When every active factor has every day of the range, the job adds nothing |
| Backfill.RerunAddsNothing | backend/backfill_habit_not_completed.py:37-100 | For any two confirmed runs with the same "today", the second on the table the first left, the second adds nothing and returns that table unchanged |
| ClientStore.MergeHabitLaws | frontend/src/store/useStore.ts:40 | An empty update leaves a habit unchanged, and applying an update twice equals applying it once |
| ClientStore.AddHabit | frontend/src/store/useStore.ts:38 | Appends the habit and keeps the old list as a prefix |
| ClientStore.UpdateHabit | frontend/src/store/useStore.ts:39-41 | Same length; habits with another id are unchanged and habits with the id receive the update |
| ClientStore.UpdateHabitIdempotent | frontend/src/store/useStore.ts:39-41 | An empty update changes nothing, and repeating any update changes nothing more |
| ClientStore.RemoveHabit | frontend/src/store/useStore.ts:42-44 | No habit with the id remains, and every other habit keeps its multiplicity |
| ClientStore.RemoveHabitKeepsOrder | frontend/src/store/useStore.ts:42-44 | Removal distributes over concatenation, so survivors keep their relative order |
| ClientStore.RemoveUndoesAddHabit | frontend/src/store/useStore.ts:38-44 | Removing the id of a just-added habit gives the same list as removing it before the addition |
| ClientStore.AddHabitEntry | frontend/src/store/useStore.ts:46-56 | The entry is present afterwards. The first entry for the same habit and date is replaced at its index, and later duplicates and other pairs are untouched. With no such entry, it is appended |
| ClientStore.AddHabitEntryReplacesFirstMatch | frontend/src/store/useStore.ts:47-53 | With an older entry and the added entry sharing a habit and date, the older one (the first match) is overwritten, giving two copies of the added entry |
| ClientStore.AddHabitEntryKeepsPairsUnique | frontend/src/store/useStore.ts:46-56 | One entry per (habit, date) is preserved, and that entry is the added one |
| ClientStore.AddHabitEntryIdempotent | frontend/src/store/useStore.ts:46-56 | Adding the same entry twice equals adding it once |
| ClientStore.UpdateHabitEntry | frontend/src/store/useStore.ts:57-59 | Same length; entries with another id are unchanged and entries with the id receive the update |
| ClientStore.UpdateHabitEntryIdempotent | frontend/src/store/useStore.ts:57-59 | An empty update changes nothing, and repeating an update changes nothing more |
| ClientStore.AddMoodEntry | frontend/src/store/useStore.ts:61 | Appends the entry and keeps the old list as a prefix |
| ClientStore.UpdateMoodEntry | frontend/src/store/useStore.ts:62-64 | Same length; entries with another id are unchanged and entries with the id receive the update |
| ClientStore.UpdateMoodEntryIdempotent | frontend/src/store/useStore.ts:62-64 | An empty update changes nothing, and repeating an update changes nothing more |
| ClientStore.RemoveMoodEntry | frontend/src/store/useStore.ts:65-67 | No entry with the id remains, and every other entry keeps its multiplicity |
| ClientStore.RemoveMoodEntryKeepsOrder | frontend/src/store/useStore.ts:65-67 | Removal distributes over concatenation, so survivors keep their relative order |
| ClientStore.RemoveUndoesAddMoodEntry | frontend/src/store/useStore.ts:61-67 | Removing the id of a just-added entry gives the same list as removing it before the addition |

## Left out

- Rounding: `round(…, 2)` on the completion rate and the mood averages is not modelled; all values are exact. Accordingly:
  - FactorStats.CompletionRate: states the unrounded percentage.
  - Mood.ReportedAverage: states the unrounded mean. The zero test uses the unrounded mean, as the source does.
- The other endpoints of the two routers, which are small reads and writes outside the modelled core:
  - create, get-by-id and update of a factor;
  - the category list, which removes duplicate categories and drops empty ones (`backend/app/routers/lifestyle_factors.py:92-93`);
  - the entry range query, which skips the factor filter when the factor id is missing or zero (`backend/app/routers/lifestyle_factors.py:131`), and the by-date entry query;
  - mood entry create, get, update and delete by id, and the by-date listing ordered by time (`backend/app/routers/mood.py:52`).
- Row ids and creation timestamps of server factor entries: these rows are identified by their (factor, date) pair. Mood entries and client-store rows keep their id.
- FactorStats.ComputeStats: the source sorts a factor's entries by date in the query and again with a stable sort. The order of two entries on the same date is left to the database. The model uses table order for such ties, and both streak clauses are stated on that order. The entry table has no uniqueness constraint on (factor, date), so such pairs can exist. The same holds for FactorStats.GetStats.
- Mood.GetMoodEntries: the relative order of entries on the same date is left to the database in the source. The model keeps table order, so the contract states only the date order.
- Backfill.BackfillEntries:
  - The console output and the final per-factor verification report are left out.
  - The yes/no prompt becomes the `confirmed` parameter.
  - A database error and its rollback are left out.
  - Existing days are read from the table as it stood before the job; the session does not flush pending rows before queries.
- ClientStore: the plain setters (`setHabits`, `setHabitEntries`, `setMoodEntries` and `setSelectedDate`) replace a value wholesale and are not modelled.
  - An update object is a record of optional fields. A JavaScript property that is present but holds `undefined` is not distinguished from an absent one.
- Authentication, CSV/ZIP export, database migrations, the correlation analysis and the web pages are outside this model.
- Columns that no modelled operation reads are not represented on the server side: a factor's description, colour and icon, and a mood entry's tags and creation timestamp. A mood entry's time of day is a plain number.
