# Study and fitness dashboard: the rules behind the views

The dashboard is a set of React views over a hosted database. Each view carries a few
rules of its own, and this project states those rules in Dafny and proves properties
about them:

- **Fitness page** (`fitness_page.dfy`, module `Fitness`).
  - The page fetches the ten newest training sessions.
  - It computes the training streak: walk back from today over at most 30 days and stop
    at the first day that does not count. A day counts when it is a Sunday, or when the
    first fetched session of that date lasted 30 minutes or more.
  - It picks the session still in progress and counts completed sessions.
  - It offers the next training types (Push, Pull, Rest) and shows the "Ready for" status.
- **Set logger** (`fitness_logger.dfy`, module `SetLogging`).
  - The "last best" table: per exercise, the best reps and the best seconds over earlier
    sessions' logs, and the weight of the newest such log.
  - The trend arrow beside reps and seconds.
  - The "finished" marks of blocks.
  - The records inserted by "add exercise" and "+ Append Set".
  - The exercise picker's filter by session type.
- **Daily study time** (`daily_time_logger.dfy`, module `DailyTime`).
  - The suggestion is the sum of today's tracked minutes.
  - A save writes the larger of the entered time and the suggestion.
  - A save happens automatically when the suggestion exceeds the logged total.
- **Syllabus import script** (`parse_syllabus.dfy`, module `Syllabus`).
  - Keep the `.xlsx` files of a directory listing.
  - Derive each file's subject by a replace chain followed by three ordered overrides.
  - Store each file's sheet under its subject.
- **Chapter card** (`chapter_tracker.dfy`, module `Chapters`).
  - Clicking lecture or DPP button `i` sets the completed count to `i + 1`.
  - A button shows as done exactly when its index is below the count.
  - Books are looked up per subject, with a default list.
  - The question grid shows every book at four levels.
- **Sidebar** (`sidebar.dfy`, module `Navigation`).
  - Overview, Analytics and Fitness are highlighted on an exact path match.
  - Subject links are highlighted on a prefix match; Settings is never highlighted.
  - Because no subject href is a prefix of another, at most one link is ever highlighted.
- **Shared helpers** (`common.dfy`, module `Common`).
  - `Option`.
  - JavaScript's `x || 0` (`OrZero`), `find` (`FindFirst`) and `filter(...).length` (`Count`).
  - `Max` and `Sum`.

Inputs that come from outside the program are parameters:

- The database rows a query returns, in the order the query asks for.
- Whether a write succeeded.
- "Today", as an integer day number, together with a function giving each day's weekday
  (0 is Sunday).
- The contents of a workbook, as a function from file name to sheet.

Where the source changes state, the model is a class with the same fields, and each method
states the new state:

- `FitnessDashboard`: `sessions`, `activeSession`, `lastSessionType`, `fitnessStreak`.
- `FitnessLogger`: `finishedBlocks`, `lastStats`.
- `DailyTimeLogger`: `time`, `suggestedTime`.
- `ChapterTracker`: `expanded`, `lecturesCompleted`, `dppsCompleted`.

Where the source has a loop, the model has a method with that loop, proved against a
specification function:

- the streak walk (`ComputeStreak`);
- the `forEach` that builds the last-best table (`BuildLastStats`);
- the script's `forEach` (`BuildSyllabus`).

The override chain that reassigns `subject` step by step is the method `DeriveSubject`.

## Model

| member | source | states |
|---|---|---|
| Fitness.Fetched | src/app/fitness/page.tsx:41-46 | at most ten rows are kept, and they are the first rows of the newest-first ordering |
| Fitness.FirstOnDate | src/app/fitness/page.tsx:73 | the position found holds a session of that date and no earlier row has the date; no position means no row has it |
| Fitness.Qualifies | src/app/fitness/page.tsx:72-77 | a Sunday always qualifies; another day qualifies iff the first row of that date has both timestamps and lasted at least 30 minutes |
| Fitness.RunAt | src/app/fitness/page.tsx:67-79 | the run counted from day i never reaches past the 30-day window |
| Fitness.Streak | src/app/fitness/page.tsx:67-79 | the streak is at most 30, its days all qualify, and short of 30 the day before them does not |
| Fitness.RunAtIsRun | src/app/fitness/page.tsx:69-78 | every day of the counted run qualifies, and the day just past it does not, unless the 30-day window ends first |
| Fitness.ComputeStreak | src/app/fitness/page.tsx:67-79 | the loop with its `break` returns exactly the streak of the specification |
| Fitness.StreakIsLongestRun | src/app/fitness/page.tsx:69-78 | n is the streak iff n <= 30, the n days ending today all qualify, and (short of 30) the day before them does not |
| Fitness.SundayQualifies | src/app/fitness/page.tsx:72-77 | a Sunday qualifies whether or not a session exists, so the streak on a Sunday is at least 1 |
| Fitness.ShortDayEndsStreak | src/app/fitness/page.tsx:73-78 | after i qualifying days, a weekday with no session, a missing timestamp or under 30 minutes makes the streak exactly i |
| Fitness.LaterRowOfSameDateIgnored | src/app/fitness/page.tsx:73 | replacing a later row of an already-present date does not change whether that date qualifies |
| Fitness.RowsPastLimitIgnored | src/app/fitness/page.tsx:46 | rows after the tenth have no effect on the streak |
| Fitness.WindowCovered | src/app/fitness/page.tsx:72-77 | every day of a qualifying run is a Sunday or the date of a fetched row |
| Fitness.StreakCappedByRows | src/app/fitness/page.tsx:69-78 | the streak is at most the number of fetched rows plus the Sundays it covers |
| Fitness.PageStreakCap | src/app/fitness/page.tsx:41-79 | on the page the streak is at most 10 plus the Sundays it covers |
| Fitness.ActiveSession | src/app/fitness/page.tsx:58 | none iff every fetched session is completed; otherwise the first fetched session that is not completed |
| Fitness.CompletedCount | src/app/fitness/page.tsx:247 | at most the number of sessions; equals it iff all are completed; 0 iff none is |
| Fitness.CompletedCountAppend | src/app/fitness/page.tsx:247 | the figure adds up over any split of the sessions and one session contributes 1 iff it is completed, so it is the number of completed sessions |
| Fitness.NoActiveIffAllCompleted | src/app/fitness/page.tsx:58 | no session is in progress exactly when the completed count equals the number of fetched sessions |
| Fitness.AvailableTypes | src/app/fitness/page.tsx:150-155 | Rest is always offered, last; after Push, Push is not offered but Pull is; after Pull, the reverse; otherwise all three in order |
| Fitness.NoPushPullRepeat | src/app/fitness/page.tsx:150-155 | a history that always picks from the offered types repeats only Rest |
| Fitness.ReadyFor | src/app/fitness/page.tsx:239 | the status reads "Rest Day" exactly on Sundays |
| Fitness.TypesText | src/app/fitness/page.tsx:239 | the offered types read "Pull / Rest" after Push, "Push / Rest" after Pull, and "Push / Pull / Rest" otherwise |
| Fitness.ReadyForText | src/app/fitness/page.tsx:239 | on a Sunday the status is "Rest Day" whatever the last type; otherwise it is "Pull / Rest", "Push / Rest" or "Push / Pull / Rest" |
| Fitness.FitnessDashboard.constructor | src/app/fitness/page.tsx:17-26 | no sessions, no active session, no last type, streak 0 |
| Fitness.FitnessDashboard.Refresh | src/app/fitness/page.tsx:37-88 | on a failed query nothing changes; otherwise the fields become the fetched rows, their active session, the first row's type (kept when no row), and the streak (at most 30) |
| SetLogging.ExerciseIdsMembership | src/components/FitnessLogger.tsx:44 | an id is among a list's exercise ids iff some log carries it |
| SetLogging.PreviousExercises | src/components/FitnessLogger.tsx:44-54 | an exercise has an earlier log iff it is in the session and some stored log of it is from a session dated before the current one |
| SetLogging.BestIsMaximum | src/components/FitnessLogger.tsx:53-62 | the best value bounds every log of the exercise and is reached by one of them |
| SetLogging.FirstLogIsFirst | src/components/FitnessLogger.tsx:51-56 | the log whose weight is kept is the exercise's log at the lowest position, the newest one |
| SetLogging.FoldNew | src/components/FitnessLogger.tsx:55-56 | the first log of an exercise opens its entry with its own reps, weight and seconds, and the table stays exact |
| SetLogging.FoldExisting | src/components/FitnessLogger.tsx:57-61 | a further log raises reps and seconds to the larger value, keeps the weight, and the table stays exact |
| SetLogging.Unchanged | src/components/FitnessLogger.tsx:54-62 | a log of one exercise leaves another exercise's best values and first log unchanged |
| SetLogging.BuildLastStats | src/components/FitnessLogger.tsx:53-62 | the table has one entry per exercise of the earlier logs: reps and seconds are the best, weight is that of the newest log |
| SetLogging.LastBestOfHistory | src/components/FitnessLogger.tsx:126 | the value an arrow compares with is the best over the exercise's earlier logs, or 0 when it has none |
| SetLogging.ProgressIcon | src/components/FitnessLogger.tsx:125-131 | no icon iff current is 0; up iff current is non-zero and above the last best; down iff current is non-zero, below the last best and the last best is positive; flat in every other case |
| SetLogging.ProgressAgainstHistory | src/components/FitnessLogger.tsx:125-131 | the arrow points up exactly for a new record over all earlier logs; with history it points down exactly when current is non-zero, the best is positive and an earlier log was better; without history it never points down |
| SetLogging.Toggled | src/components/FitnessLogger.tsx:135-140 | the block's membership flips and every other block keeps its own |
| SetLogging.ToggleTwice | src/components/FitnessLogger.tsx:135-140 | toggling a block twice restores the set |
| SetLogging.AppendedSet | src/components/FitnessLogger.tsx:93-101 | the appended set has the next set number, is open with no reps or seconds, and copies block, exercise, weight and resistance |
| SetLogging.AppendChain | src/components/FitnessLogger.tsx:93-101 | n appended sets are numbered on by n, keep block, exercise, weight and resistance, and are open with no reps or seconds |
| SetLogging.NewExerciseChain | src/components/FitnessLogger.tsx:75-101 | an exercise added to a block and extended n times is set n + 1 of that block, open and without weight |
| SetLogging.PickerList | src/components/FitnessLogger.tsx:274-277 | the list keeps exactly the catalogue entries the session type allows, and all of them for a type other than Push or Pull |
| SetLogging.PickerFamilies | src/components/FitnessLogger.tsx:274-277 | Skill is offered for every type; a Push session never offers a Pull family and a Pull session never a Push family |
| SetLogging.FitnessLogger.constructor | src/components/FitnessLogger.tsx:133 | no block is finished and the last-best table is empty |
| SetLogging.FitnessLogger.ToggleBlockFinish | src/components/FitnessLogger.tsx:135-140 | the finished set becomes the toggled set; the last-best table is unchanged |
| SetLogging.FitnessLogger.LoadLastStats | src/components/FitnessLogger.tsx:44-63 | with no exercise in the session the table stays; otherwise it is exact for the earlier logs, and its keys are the session's exercises that have an earlier log |
| DailyTime.SuggestedTime | src/components/DailyTimeLogger.tsx:34 | 0 when the query returns nothing; a single row contributes its time exactly when it is dated today |
| DailyTime.SuggestedTimeSplits | src/components/DailyTimeLogger.tsx:34 | the suggestion over two batches of rows is the sum of their suggestions |
| DailyTime.OtherDaysIgnored | src/components/DailyTimeLogger.tsx:34 | with no row of today, the suggestion is 0 |
| DailyTime.SuggestedTimeNonNegative | src/components/DailyTimeLogger.tsx:34 | non-negative tracked times give a non-negative suggestion |
| DailyTime.SavedTotal | src/components/DailyTimeLogger.tsx:49 | the saved total is one of the two values and at least both |
| DailyTime.NeedsAutoSave | src/components/DailyTimeLogger.tsx:38 | with no logged row the save fires iff the sum is positive; when it fires, the total written exceeds the logged one whatever suggestion the handler sees |
| DailyTime.DailyTimeLogger.constructor | src/components/DailyTimeLogger.tsx:8-9 | both fields start at 0 |
| DailyTime.DailyTimeLogger.Save | src/components/DailyTimeLogger.tsx:43-53 | writes the larger value; the shown time becomes it only on success and is otherwise unchanged |
| DailyTime.DailyTimeLogger.SaveClicked | src/components/DailyTimeLogger.tsx:71-72 | the button writes the larger of the shown time and the suggestion |
| DailyTime.DailyTimeLogger.Edit | src/components/DailyTimeLogger.tsx:66 | the time becomes the parsed number, or 0 when the text is not a number |
| DailyTime.DailyTimeLogger.FetchTodayData | src/components/DailyTimeLogger.tsx:16-41 | the suggestion becomes today's sum; a save happens iff the sum exceeds the logged total (missing counts as 0); the total written is at least the sum; the time follows the log and then a successful save |
| Syllabus.IndexFrom | scripts/parse_syllabus.js:16-19 | the position found is the first occurrence at or after the start; none means no occurrence there |
| Syllabus.ContainsIff | scripts/parse_syllabus.js:17-19 | `includes` holds iff the pattern occurs at some position |
| Syllabus.ReplaceFirst | scripts/parse_syllabus.js:16 | a string without the pattern is left unchanged; otherwise the first occurrence, and only it, is replaced |
| Syllabus.ReplaceAllChar | scripts/parse_syllabus.js:16 | the length is kept and each character equal to the pattern becomes the replacement, the others stay |
| Syllabus.ReplaceAllCharRemoves | scripts/parse_syllabus.js:16 | no underscore is left after the global replace |
| Syllabus.BaseSubject | scripts/parse_syllabus.js:16 | the name from the replace chain contains no underscore |
| Syllabus.Subject | scripts/parse_syllabus.js:16-19 | the derived subject contains no underscore |
| Syllabus.DeriveSubject | scripts/parse_syllabus.js:16-19 | the step-by-step overrides give the priority form: Physical, then Organic, then Inorganic, then the replace chain |
| Syllabus.BaseSubjectOfProgressFile | scripts/parse_syllabus.js:16 | `<name>_Progress.xlsx` with no underscore in `<name>` gives back `<name>` |
| Syllabus.PhysicsFile | scripts/parse_syllabus.js:16 | "Physics_Progress.xlsx" gives "Physics" |
| Syllabus.PhysicalWins | scripts/parse_syllabus.js:19 | a name containing "Physical" always gives "Physical Chemistry" |
| Syllabus.InorganicIsNotOrganic | scripts/parse_syllabus.js:17-18 | the case-sensitive "Organic" test does not match "Inorganic" |
| Syllabus.InorganicOverride | scripts/parse_syllabus.js:17-19 | a name with "Inorganic", no capital O and no "Physical" gives "Inorganic Chemistry" |
| Syllabus.SpreadsheetFiles | scripts/parse_syllabus.js:6 | exactly the listed names ending in ".xlsx" are kept |
| Syllabus.SpreadsheetFilesAppend | scripts/parse_syllabus.js:6 | the filter keeps the listing's order: filtering two parts and joining them is filtering the whole |
| Syllabus.SyllabusOf | scripts/parse_syllabus.js:10-21 | the dictionary's keys are exactly the subjects of the processed files |
| Syllabus.BuildSyllabus | scripts/parse_syllabus.js:10-22 | the loop leaves the dictionary of the specification |
| Syllabus.ParseSyllabus | scripts/parse_syllabus.js:6-22 | the dictionary's keys are exactly the subjects of the ".xlsx" files |
| Syllabus.LastFileWins | scripts/parse_syllabus.js:21 | a subject's entry is the sheet of the last file deriving it |
| Chapters.ConfiguredListsStartWithModule | src/components/ChapterTracker.tsx:14-20 | every configured book list is non-empty and starts with "Module" |
| Chapters.SidebarSubjectsConfigured | src/components/ChapterTracker.tsx:14-20 | the configured subjects are exactly the sidebar's subject names |
| Chapters.BooksFor | src/components/ChapterTracker.tsx:27 | a configured subject gets its list, any other gets ["Module"]; the list always starts with "Module" |
| Chapters.QuestionRows | src/components/ChapterTracker.tsx:84-88 | the grid has four rows per book |
| Chapters.QuestionRowsLayout | src/components/ChapterTracker.tsx:84-88 | row k is book k / 4 at level k % 4, so each book shows the four levels in order |
| Chapters.Marks | src/components/ChapterTracker.tsx:59-61 | one flag per button, set exactly when the index is below the count |
| Chapters.DoneCount | src/components/ChapterTracker.tsx:59-61 | the number of buttons shown as done is the count clamped to 0 .. total |
| Chapters.ChapterTracker.constructor | src/components/ChapterTracker.tsx:22-27 | the counts start from the chapter's, 0 when absent; the card starts collapsed; books come from the lookup |
| Chapters.ChapterTracker.ToggleExpanded | src/components/ChapterTracker.tsx:31 | the card's expanded flag flips; the counts stay |
| Chapters.ChapterTracker.ClickLecture | src/components/ChapterTracker.tsx:60 | the lecture count becomes i + 1 (up or down) and stays within the total; lecture j is done iff j <= i |
| Chapters.ChapterTracker.ClickDpp | src/components/ChapterTracker.tsx:71 | the DPP count becomes i + 1 and stays within the total; DPP j is done iff j <= i |
| Chapters.ChapterTracker.LectureMarks | src/components/ChapterTracker.tsx:59-61 | the flags of `Marks` for the lecture count: one per lecture, set iff its index is below the count |
| Chapters.ChapterTracker.DppMarks | src/components/ChapterTracker.tsx:70-72 | the flags of `Marks` for the DPP count: one per DPP, set iff its index is below the count |
| Navigation.HrefShape | src/components/Sidebar.tsx:18-24 | every subject href begins with "/subjects/" and is longer than it |
| Navigation.HrefsPrefixFree | src/components/Sidebar.tsx:18-24 | no subject href is a prefix of another |
| Navigation.OnlyOneActive | src/components/Sidebar.tsx:37-83 | two highlighted links are the same link: Overview, Analytics and Fitness exclude every subject link, and subject links exclude each other |
| Navigation.ActiveItems | src/components/Sidebar.tsx:37-83 | the highlighted set holds exactly the links whose rule matches, and has at most one element |
| Navigation.HighlightRules | src/components/Sidebar.tsx:37-83 | Overview, Analytics and Fitness are highlighted iff the path equals their href, a subject link iff the path starts with its href, and Settings never |
| Navigation.HomeHighlightsOverview | src/components/Sidebar.tsx:39 | on "/" only Overview is highlighted |
| Navigation.SubjectPageHighlightsItsLink | src/components/Sidebar.tsx:51 | any path under a subject's href highlights that link and no other |

## Left out

- All database calls and their ordering are not modelled. This covers selects, inserts, updates, upserts and deletes. Their results and outcomes are parameters, and the rows are taken in the order the queries ask for.
- The error banner's message matching on the fitness page is not modelled (src/app/fitness/page.tsx:81-87). A failed query is `None`, and nothing else changes.
- The loading flags, modals and goal forms are not modelled. They are presentation state.
- Goal progress percentages, progress-bar widths and body weight or load parsing are not modelled. They are floating point; a progress bar can divide by zero. Weight is carried as `real` and never computed with.
- The streak's `/ 60000` minutes are integer milliseconds in the model. A session qualifies when end minus start is at least 1,800,000.
- `Date` handling and time zones are not modelled. The date string is UTC while `getDay` is local. Days are integer day numbers with a supplied weekday function.
- The auto-save in `fetchTodayData` gets the suggestion held when the fetch began, not the sum just set. This is how the handler's closure behaves, and the model passes that value explicitly. Only the state after the save returns is modelled, not the interleaving with rendering.
- `parseInt` is not modelled as text parsing. `Edit` takes the parsed number, or None when the text is not a number.
- A `daily_logs` row whose total is null is not modelled. The logged total is either absent or an integer.
- Reading workbooks, the file system, writing the JSON file and its key order are not modelled in the syllabus script. Each file's sheet comes from a function.
- `Syllabus.IndexFrom` and the replace functions model JavaScript's string search over `seq<char>`. There is no Unicode or UTF-16 detail.
- InorganicOverride: stated only for names without a capital "O". A name such as "Organic_Inorganic" also contains "Organic", and the later override gives "Organic Chemistry".
- A `BOOK_CONFIG` lookup with a key such as "constructor" is not modelled. It would hit an inherited object property; the lookup is modelled as a plain map with a default.
- The question counters on the chapter card are not modelled. They are static inputs with no handler.
- `addExerciseToBlock` is modelled as the record it inserts (`FirstSet`). It has no separate contract.
- A missing `bData` or `prevLogs` (null data) is treated as an empty list.
- The analytics page, the home page, the layout, the seeding script and the database client are not part of this model. They hold static or mock data and I/O only.
- The subject page's slug-to-name table is not part of this model.
- No shown file computes a chapter mastery percentage or a 180-minute study streak. Neither is modelled.
