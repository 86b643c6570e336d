# Career quiz and admin dashboard, modelled in Dafny

This project models the computational core of a children's career quiz app and its admin side:

- **The quiz engine.** A five-phase state machine: welcome, personality, transition, logical, result.
  - Personality answers vote for career tags.
  - When the last personality question is answered, the engine stores the card of the plurality tag.
  - Each correct logical answer adds ten points.
- **The static catalog.** Ten career tags, one prediction card per tag, six personality questions and nine logical questions.
- **The elapsed-time counter.** Start, stop, reset and a one-second tick, plus the `m:ss` clock text.
- **The admin aggregations**:
  - participant count, rounded average score, top score, and the career distribution with its top career;
  - the average completion time;
  - the results table: search filter, sort-header toggling, CSV export text, score colour and career label;
  - the dashboard's join of quiz rows with registered users, with its defaults.
- **The `.env` loader of the admin-creation script.** Its line rules and the check for the two Supabase settings.

## Structure

Each source file is one module:

| module | models |
|---|---|
| `Quiz` | `useQuiz` |
| `QuizData` | `quizData` |
| `Timer` | `useTimer` |
| `AdminStats` | `AdminStats` |
| `StatsCards` | `statsCards` |
| `ResultsTable` | `ResultsTable` |
| `AdminDashboard` | `AdminDashboard` |
| `AdminTypes` | `types/admin` |
| `EnvFile` | `loadEnv` and the check that follows it |

The JavaScript built-ins these modules use are modelled once, in small library modules:

- `Seqs`: `find`, `filter`, `[...new Set(xs)]`, occurrence counting.
- `Text`:
  - decimal printing and `padStart`;
  - `trim` over the ECMAScript whitespace set;
  - `split` and `join` on a one-character separator;
  - `includes`;
  - ASCII `toLowerCase`.
- `Records`: a JavaScript object used as a dictionary, with keys in insertion order.
- `Tally`: the count-then-reduce vote used twice by the source.
- `Stats`: the sum, `Math.round(sum / n)`, and `Math.max`.

The quiz hook reads the module-level question arrays. Here the catalog is a parameter of every engine operation, and `QuizData.AppCatalog` is the catalog the app ships. `QuizData.WellFormed` states what the engine needs from a catalog, and `AppCatalogWellFormed` proves the shipped one meets it.

The hook's operations do not check the phase, and neither does the model; they are total functions, as in the source. The page decides which operation can run. It shows one screen per phase, and each screen offers only its own action. A question screen submits only the shown question's id, and only once an option is selected. `QuizFlow` states these caller guarantees as `Allowed` and proves what they buy:

- starting from the initial state, the engine stays in the states described by `FlowInv`;
- it never gets stuck;
- the stored prediction is the plurality of the chosen options' tags;
- the score is ten per correct answer.

**Tie-break.** A tie goes to the tag that appears first in answer order, not to the tag that first reaches the maximum count. The reduce runs a strict `>` over `Object.entries(careerCounts)`, and a key enters that object when its tag first appears among the answers.

`QuizScenarios.TieGoesToFirstAppearance` and `TechHeroReachesTwoFirst` show a vote list where the two readings disagree:

- tech hero reaches two votes first;
- engineer appears first, and the code picks engineer.

**Career labels.** The results table's label keys are snake-case (`tech_hero`, `environment_hero`). The quiz stores camel-case tags (`techHero`, `environmentHero`), so those two tags show raw. This mismatch is modelled as written (`CareerLabelRawForCamelCaseTags`).

**Row shapes.** The dashboard passes its joined rows (`src/pages/AdminDashboard.tsx:114-135`, typed by `src/types/admin.ts`) to the results table (`:219`). Those rows carry `name`, `career_type`, `email` and `phone`. The table declares and reads another shape: `child_name`, `parent_name`, `school_name`, `career_prediction` and `completion_time_seconds` (`src/components/admin/ResultsTable.tsx:5-17`). As written, the search filter calls `toLowerCase` on the missing `child_name` (`ResultsTable.tsx:70`), so any non-empty result list makes the table throw. The table is modelled against its declared row type: its filter, labels, time column and CSV export are stated for the rows the table expects, not for the ones the dashboard gives it. `statsCards.tsx` declares the same older shape, and no file imports it.

## Model

| member | source | states |
|---|---|---|
| Quiz.StartQuiz | src/hooks/useQuiz.ts:33-35 | the phase becomes personality and every other field is unchanged |
| Quiz.AnswerPersonality | src/hooks/useQuiz.ts:37-74 | the answers become the previous answers with this question's entry written in place or appended, as the object spread does, so every other answer is kept; the index goes up by one; the logical fields are untouched; reaching the catalog length sets the transition phase and the prediction from all recorded answers, otherwise phase and prediction are unchanged |
| Quiz.AnswerPersonalityPredicts | src/hooks/useQuiz.ts:42-65 | answering the last personality question moves to the transition phase with the card of the plurality tag of the resolved answers |
| Quiz.ResolveTagChoice | src/hooks/useQuiz.ts:46-51 | with unique ids, an answer resolves exactly when it names an option of a question in the catalog, and then to that option's tag; any other answer is skipped |
| Quiz.ResolveTag | src/hooks/useQuiz.ts:46-51 | an answer that yields a tag names a question with the given id and an option of it with the given id that votes for that tag |
| Quiz.PersonalityChoiceFinds | src/hooks/useQuiz.ts:47-48 | the two `find` calls return the question with the given id and the option with the given id |
| Quiz.ResolvedChoice | src/hooks/useQuiz.ts:47-49 | an answer that yields a tag names an existing question and one of its options |
| Quiz.Predict | src/hooks/useQuiz.ts:44-65 | the scientist card when no answer resolves; otherwise the card of one of the resolved tags |
| Quiz.PredictIsPlurality | src/hooks/useQuiz.ts:44-57 | the predicted tag is the plurality of the resolved tags with first-appearance tie-break, and scientist when nothing resolves |
| Quiz.StartLogical | src/hooks/useQuiz.ts:76-78 | the phase becomes logical and every other field is unchanged |
| Quiz.AnswerLogical | src/hooks/useQuiz.ts:80-107 | the answers become the previous answers with this question's entry written in place or appended, so every other answer is kept; the index goes up by one; the score grows by ten exactly when the answer is correct; the phase becomes result exactly when the index reaches the catalog length; the personality fields and prediction are untouched |
| Quiz.IsCorrectChoice | src/hooks/useQuiz.ts:82-84 | with unique ids, an answer counts as correct exactly when it names an option flagged correct; unknown question or option ids count as incorrect |
| Quiz.IsCorrect | src/hooks/useQuiz.ts:82-84 | an answer counts as correct only when it names a question with the given id and an option of it with the given id flagged correct |
| Quiz.LogicalChoiceFinds | src/hooks/useQuiz.ts:82-83 | the two `find` calls return the question with the given id and the option with the given id |
| Quiz.CorrectChoice | src/hooks/useQuiz.ts:82-84 | a correct answer names an existing question and an option of it flagged correct |
| Quiz.PointsBound | src/hooks/useQuiz.ts:87 | the points of any answer list are a multiple of ten and at most ten per answer |
| Quiz.PointsCountCorrect | src/hooks/useQuiz.ts:87 | the points are ten times the number of correct answers |
| Quiz.ResetQuiz | src/hooks/useQuiz.ts:109-119 | from any state: welcome phase, both indices 0, both answer maps empty, score 0, no prediction |
| Quiz.ResetQuizIdempotent | src/hooks/useQuiz.ts:109-119 | resetting twice is resetting once |
| Quiz.CurrentPersonalityQuestion | src/hooks/useQuiz.ts:121 | the catalog question at the index, and nothing once the index reaches the catalog length |
| Quiz.CurrentLogicalQuestion | src/hooks/useQuiz.ts:122 | the catalog question at the index, and nothing once the index reaches the catalog length |
| QuizFlow.InitialFlow | src/hooks/useQuiz.ts:23-31 | the initial state satisfies the flow invariant |
| QuizFlow.WelcomeIsInitial | src/hooks/useQuiz.ts:23-31 | every reachable state in the welcome phase is the initial state |
| QuizFlow.StepPreservesFlow | src/pages/Index.tsx:13-47 | every call the shown screen offers keeps the flow invariant: answers recorded in question order, score equal to the points of the answers, and the phase, indices and prediction consistent |
| QuizFlow.AnswerPersonalityFlow | src/hooks/useQuiz.ts:37-74 | submitting the shown personality question's id with one of its options keeps the flow invariant |
| QuizFlow.AnswerLogicalFlow | src/hooks/useQuiz.ts:80-107 | submitting the shown logical question's id with one of its options keeps the flow invariant |
| QuizFlow.AnswerLogicalScore | src/hooks/useQuiz.ts:86-87 | when the answer is appended, the new score is still the points of the recorded answers |
| QuizFlow.Progress | src/pages/Index.tsx:13-47 | every reachable state has a screen that offers a call |
| QuizFlow.StepPhase | src/pages/Index.tsx:13-47 | a call either keeps the phase or moves to the next one, except the restart, which returns to the initial state |
| QuizFlow.SubmittedResolves | src/hooks/useQuiz.ts:47-50 | an answer a personality screen submits resolves to the tag of the option it names |
| QuizFlow.ChosenTags | src/hooks/useQuiz.ts:46-52 | answers to the first n questions give n votes, in question order, each the tag of the chosen option |
| QuizFlow.PredictionAfterPersonality | src/hooks/useQuiz.ts:42-65 | from the transition phase on, the stored card is the plurality of the chosen tags, one vote per personality question |
| QuizFlow.ScoreBound | src/hooks/useQuiz.ts:87-98 | in every reachable state the score is ten per correct answer, a multiple of ten, and at most ten times the logical index and ten times the catalog length |
| QuizFlow.ChosenCorrect | src/hooks/useQuiz.ts:82-84 | a submitted logical answer counts as correct exactly when the option it names is flagged correct |
| QuizFlow.FirstKCorrect | src/hooks/useQuiz.ts:80-107 | answering exactly the first k logical questions correctly scores 10·k |
| QuizScenarios.PluralityOfSix | src/hooks/useQuiz.ts:54-57 | a six-vote list whose plurality key is known selects that key |
| QuizScenarios.ScientistMajority | src/hooks/useQuiz.ts:44-57 | three scientist votes beat two engineer votes and one doctor vote |
| QuizScenarios.EngineerArtistTie | src/hooks/useQuiz.ts:54-57 | in a two-two tie, the tag that appears first wins |
| QuizScenarios.TieGoesToFirstAppearance | src/hooks/useQuiz.ts:54-57 | in a two-two tie where the tag that appears first is not the first to reach two votes, the one that appears first still wins |
| QuizScenarios.TechHeroReachesTwoFirst | src/hooks/useQuiz.ts:46-52 | in that vote list, the losing tag reached two votes first |
| QuizScenarios.FiveRightFourWrong | src/hooks/useQuiz.ts:80-107 | with the shipped catalog, five correct and four wrong answers score 50 |
| QuizScenarios.MaxScoreIsNinety | src/data/quizData.ts:196-287 | no reachable state of the shipped catalog scores more than 90 |
| QuizData.CareerPredictionOf | src/data/quizData.ts:48-129 | the card for each tag carries that tag, with the tag's title and character |
| QuizData.CareerCatalog | src/data/quizData.ts:2-12 | there are exactly ten tags, all distinct, with distinct spellings |
| QuizData.PersonalityCatalog | src/data/quizData.ts:132-193 | the personality questions are `p1` to `p6`, each with options `a` to `d` |
| QuizData.LogicalCatalog | src/data/quizData.ts:196-287 | the logical questions are `l1` to `l9`, each with options `a` to `d`, exactly one of them correct |
| QuizData.AppCatalogWellFormed | src/data/quizData.ts:132-287 | the shipped catalog has six and nine questions, unique question ids, and unique option ids within each question |
| Tally.BumpCountOf | src/hooks/useQuiz.ts:50 | one bump adds one to the bumped key's count and leaves every other count alone |
| Tally.CountKeys | src/hooks/useQuiz.ts:44-52 | the counter's keys are the tallied keys, once each, in order of first appearance |
| Tally.CountGet | src/hooks/useQuiz.ts:44-52 | the counter holds each key's number of occurrences |
| Tally.CountEntries | src/components/admin/AdminStats.tsx:34-39 | every entry's key was tallied and its count is that key's number of occurrences |
| Tally.CountTotal | src/components/admin/AdminStats.tsx:34-39 | the counts add up to the number of keys tallied |
| Tally.BestSpec | src/hooks/useQuiz.ts:54-57 | the reduce returns its start pair when no count beats it; otherwise it returns the first entry holding the largest count |
| Tally.BestBeats | src/hooks/useQuiz.ts:54-57 | the entry the reduce picks has a count at least that of any other entry, and wins every tie by its key appearing first |
| Tally.Winner | src/hooks/useQuiz.ts:54-57 | the default when no key is cast; otherwise one of the cast keys |
| Tally.WinnerIsPlurality | src/hooks/useQuiz.ts:44-57 | the tally-and-reduce selects the default for no votes; otherwise it selects a cast key with the largest count, ties going to the key that appears first |
| Tally.PluralityUnique | src/hooks/useQuiz.ts:54-57 | at most one key satisfies that plurality statement |
| Tally.WinnerCharacterized | src/hooks/useQuiz.ts:44-57 | the selected key is exactly the plurality key |
| Records.Get | src/hooks/useQuiz.ts:50 | a lookup finds nothing exactly when the key is absent |
| Records.Put | src/hooks/useQuiz.ts:39 | after `{ ...e, [k]: v }` the key holds `v` |
| Records.PutKeys | src/hooks/useQuiz.ts:39 | writing an existing key keeps the key order; a new key goes last |
| Records.PutOther | src/hooks/useQuiz.ts:39 | writing a key leaves every other key's value as it was |
| Records.PutFresh | src/hooks/useQuiz.ts:86 | writing a key that is not there yet appends the entry |
| Timer.Start | src/hooks/useTimer.ts:31-33 | the timer runs and the count is unchanged |
| Timer.Stop | src/hooks/useTimer.ts:35-40 | the timer stops and the count is kept |
| Timer.Reset | src/hooks/useTimer.ts:42-48 | from any state: count 0, stopped |
| Timer.Tick | src/hooks/useTimer.ts:17-21 | a tick adds exactly one second while the timer runs and changes nothing otherwise |
| Timer.Ticks | src/hooks/useTimer.ts:17-21 | n ticks add n seconds to a running timer and nothing to a stopped one |
| Timer.RunWithoutReset | src/hooks/useTimer.ts:13-40 | without a reset the count never goes down and grows by at most one per tick |
| Timer.StoppedStaysPut | src/hooks/useTimer.ts:17-40 | a stopped timer keeps its count until it is started or reset |
| Timer.ResetForgets | src/hooks/useTimer.ts:42-48 | what happened before a reset does not affect anything afterwards |
| Timer.TwoDigits | src/hooks/useTimer.ts:53 | `secs.toString().padStart(2, '0')` is the tens digit followed by the units digit |
| Timer.TwoDigitsValue | src/hooks/useTimer.ts:53 | the two digits are decimal digits and read back as the value |
| Timer.FormatClock | src/hooks/useTimer.ts:50-54 | the text is canonical decimal minutes, a colon and two second digits below 60, and minutes·60 + seconds is the input |
| Timer.ParseFormatClock | src/hooks/useTimer.ts:50-54 | reading the clock text back gives the seconds |
| Timer.FormatParseClock | src/hooks/useTimer.ts:50-54 | every well-formed clock text is the formatting of what it reads, so each duration has exactly one spelling |
| Timer.FormatClockInjective | src/hooks/useTimer.ts:50-54 | different durations have different clock texts |
| Stats.RoundHalfUp | src/components/admin/AdminStats.tsx:27 | the integer nearest to the quotient, halves up |
| Stats.Max | src/components/admin/AdminStats.tsx:30-32 | 0 for no entries; otherwise an entry that no entry exceeds |
| Stats.MeanBetween | src/components/admin/AdminStats.tsx:26-28 | the rounded mean of a non-empty column lies between any bounds of its entries |
| Stats.MeanBetweenMinMax | src/components/admin/AdminStats.tsx:26-28 | the rounded mean lies between the least and the greatest entry |
| Stats.MeanAtMostMax | src/components/admin/AdminStats.tsx:26-32 | the maximum is never below the rounded mean |
| Stats.MeanConstant | src/components/admin/statsCards.tsx:19-21 | the rounded mean of equal entries is that value |
| AdminStats.AverageScore | src/components/admin/AdminStats.tsx:26-28 | 0 for no results; otherwise the integer nearest to the exact mean score, halves up |
| AdminStats.AverageScoreBetween | src/components/admin/AdminStats.tsx:26-28 | 0 for no results; otherwise the nearest integer to the exact mean, halves up, between the lowest and the highest score |
| AdminStats.TopScore | src/components/admin/AdminStats.tsx:30-32 | 0 for no results; otherwise a score that is reached and that no score exceeds |
| AdminStats.TopAtLeastAverage | src/components/admin/AdminStats.tsx:26-32 | the top score is at least the average score |
| AdminStats.Careers | src/components/admin/AdminStats.tsx:35-39 | the tallied careers are non-empty, never the name of an `Object.prototype` member, each recorded by some result, and every other non-empty recorded career is among them |
| AdminStats.CareersOcc | src/components/admin/AdminStats.tsx:35-39 | a counted career is tallied as often as results record it |
| AdminStats.CareerDistribution | src/components/admin/AdminStats.tsx:34-39 | the numeric entries are the counted careers, once each, in order of first recording |
| AdminStats.DistributionCounts | src/components/admin/AdminStats.tsx:34-39 | the distribution counts exactly the results recording each counted career, and holds no count for the empty career or an `Object.prototype` member name |
| AdminStats.DistributionTotal | src/components/admin/AdminStats.tsx:34-39 | the distribution's counts add up to at most the number of results |
| AdminStats.TopCareer | src/components/admin/AdminStats.tsx:41-44 | `'N/A'` or a career some result records, and never an `Object.prototype` member name |
| AdminStats.TopCareerIsPlurality | src/components/admin/AdminStats.tsx:34-44 | `'N/A'` when no result records a counted career; otherwise a counted career with the largest count, ties going to the one recorded first |
| AdminStats.UncountedCareersGiveNone | src/components/admin/AdminStats.tsx:35-44 | results whose careers are all null, empty or `Object.prototype` member names give `'N/A'` |
| AdminStats.StatCards | src/components/admin/AdminStats.tsx:24-71 | `'-'` in every card while loading; otherwise the participant count in decimal, `avg/90`, `top/90` and the top career |
| StatsCards.AverageScore | src/components/admin/statsCards.tsx:19-21 | 0 for no results; otherwise the integer nearest to the exact mean score, halves up, between the lowest and the highest score |
| StatsCards.TopScore | src/components/admin/statsCards.tsx:28-30 | 0 for no results; otherwise a score that is reached and that no score exceeds |
| StatsCards.ValidTimes | src/components/admin/statsCards.tsx:23 | every kept result has a non-null, non-zero time; each result with such a time is kept exactly as often as it occurs, and no other result is kept |
| StatsCards.AverageTime | src/components/admin/statsCards.tsx:23-26 | 0 when no result has a time; otherwise the integer nearest to the exact mean of the valid times, halves up |
| StatsCards.AverageTimeIgnoresUntimed | src/components/admin/statsCards.tsx:23-26 | a result with a null or zero time does not move the average time |
| StatsCards.AverageTimeAppendTimed | src/components/admin/statsCards.tsx:23-26 | a result with a time adds its time to the averaged column |
| StatsCards.AverageTimeBetween | src/components/admin/statsCards.tsx:24-26 | with some valid time, the average time is positive and between the shortest and the longest valid time |
| StatsCards.Cards | src/components/admin/statsCards.tsx:38-63 | `'-'` in every card while loading; otherwise the participant count, `avg/90`, the average time as a clock text that reads back to it, and `top/90` |
| AdminDashboard.AccessGranted | src/pages/AdminDashboard.tsx:26-31 | access goes on exactly when a non-empty admin e-mail is stored and the logged-in flag is exactly `'true'` |
| AdminDashboard.PresentUserIds | src/pages/AdminDashboard.tsx:88 | the kept ids are non-empty ids carried by rows, and every non-empty id a row carries is kept |
| AdminDashboard.UserIds | src/pages/AdminDashboard.tsx:88 | no id is repeated or empty, and an id is listed exactly when some row carries it |
| AdminDashboard.UserMapLastWins | src/pages/AdminDashboard.tsx:110 | the map holds exactly the fetched ids, each bound to the last user fetched with that id |
| AdminDashboard.UserMap | src/pages/AdminDashboard.tsx:110 | every id in the map finds a user with that id |
| AdminDashboard.UsersMap | src/pages/AdminDashboard.tsx:91-111 | with no user id, the map is empty and no lookup is made |
| AdminDashboard.NumberOrZero | src/pages/AdminDashboard.tsx:121-125 | `n \|\| 0` on a nullable count is the count when present and 0 when null |
| AdminDashboard.TextOr | src/pages/AdminDashboard.tsx:120-123 | `s || fallback` on a nullable text is the text when present and non-empty, and the fallback otherwise |
| AdminDashboard.TransformRow | src/pages/AdminDashboard.tsx:114-131 | the identity, career and completion columns are copied; the name, age, e-mail and phone come from the user, each with its fallback; the score falls back to 0 and the answer maps to empty; the creation date is the row's own when truthy, otherwise the user's |
| AdminDashboard.Transform | src/pages/AdminDashboard.tsx:114-131 | one result per fetched row, in the same order, each joined with the user its id finds |
| AdminDashboard.MissingUserDefaults | src/pages/AdminDashboard.tsx:115-129 | a missing user gives name `'Unknown'`, age 0, and empty e-mail and phone, and the row's own creation date is kept only when it is truthy |
| AdminDashboard.NullColumnDefaults | src/pages/AdminDashboard.tsx:125-129 | a null score becomes 0, null answer maps become empty, and a null creation date falls back to the user's |
| AdminDashboard.PresentValuesKept | src/pages/AdminDashboard.tsx:114-131 | with a found user, its present name, age, e-mail and phone and the row's present score, answer maps and truthy creation date are copied unchanged; a falsy row date gives the user's |
| AdminDashboard.DashboardResults | src/pages/AdminDashboard.tsx:80-131 | the result list has the fetched rows' length and ids, in order, and is empty for no rows |
| AdminDashboard.NoUserIdsNoUsers | src/pages/AdminDashboard.tsx:88-131 | when no row carries a user id, every result has the placeholder user columns |
| EnvFile.ParseTrimmedDefined | scripts/create-admin-user.mjs:19-22 | a trimmed line gives an entry exactly when it is non-empty, does not start with `#`, and has an `=` that is not its first character |
| EnvFile.ParseTrimmedEntry | scripts/create-admin-user.mjs:21-23 | the key is the trimmed text before the first `=` and the value is the trimmed text after it, later `=` kept |
| EnvFile.ParseLineSpec | scripts/create-admin-user.mjs:18-24 | the same rules stated on the raw line after trimming, and the key is never empty |
| EnvFile.ParseLine | scripts/create-admin-user.mjs:18-24 | an entry's key is never empty, and the trimmed line holds an `=` |
| EnvFile.CarriageReturnIgnored | scripts/create-admin-user.mjs:19 | a carriage return left by a Windows line break changes nothing |
| EnvFile.ParseEmptyValue | scripts/create-admin-user.mjs:21-23 | `KEY=` defines the key with the empty value |
| EnvFile.Store | scripts/create-admin-user.mjs:23 | assigning the key `__proto__` stores nothing; any other key gets the value |
| EnvFile.AssignLastWins | scripts/create-admin-user.mjs:18-26 | every key other than `__proto__` holds the value of the last line that defines it; a key no line defines, and `__proto__`, keeps its earlier value |
| EnvFile.LoadEnvLastWins | scripts/create-admin-user.mjs:13-29 | the loaded settings are exactly the keys other than `__proto__` that some line defines, each with the value of its last definition |
| EnvFile.LoadEnv | scripts/create-admin-user.mjs:13-29 | the loaded settings never hold a `__proto__` entry |
| EnvFile.RequireSupabase | scripts/create-admin-user.mjs:31-39 | the script goes on exactly when both settings are present and non-empty, and then with their values |
| EnvFile.EmptyValueFails | scripts/create-admin-user.mjs:22-23 | when `KEY=` is the last definition of the URL, the script aborts |
| ResultsTable.FormatTime | src/components/admin/ResultsTable.tsx:42-47 | `'-'` exactly for a null or zero time; otherwise a clock text that reads back to the time |
| ResultsTable.HandleSort | src/components/admin/ResultsTable.tsx:59-66 | the clicked column becomes the sort column; re-clicking reverses the direction; a new column sorts descending |
| ResultsTable.HandleSortTwice | src/components/admin/ResultsTable.tsx:59-66 | clicking the current column twice restores the sort state |
| ResultsTable.HandleSortNewColumnTwice | src/components/admin/ResultsTable.tsx:59-66 | clicking a new column twice sorts it ascending |
| ResultsTable.FilterResults | src/components/admin/ResultsTable.tsx:68-73 | a row is shown exactly when it is a result and the term matches, ignoring case, its child, parent or school name; the shown rows are a sub-multiset of the results, so never more of them |
| ResultsTable.EmptyTermKeepsAll | src/components/admin/ResultsTable.tsx:68-73 | an empty search box shows every row, in order |
| ResultsTable.ToLowerIdempotent | src/components/admin/ResultsTable.tsx:70-72 | lower-casing twice is lower-casing once |
| ResultsTable.FilterIgnoresTermCase | src/components/admin/ResultsTable.tsx:68-73 | the search gives the same rows for a term and its lower-cased form |
| ResultsTable.NullNamesNeverMatch | src/components/admin/ResultsTable.tsx:71-72 | null parent and school names never match, so only the child's name counts |
| ResultsTable.TextOrEmpty | src/components/admin/ResultsTable.tsx:105-108 | a null text gives an empty cell and a present one its text |
| ResultsTable.NumberOrEmpty | src/components/admin/ResultsTable.tsx:104 | a null or zero number gives an empty cell; otherwise its decimal text |
| ResultsTable.CsvCells | src/components/admin/ResultsTable.tsx:102-113 | one cell per header |
| ResultsTable.CsvCellsOfRow | src/components/admin/ResultsTable.tsx:102-113 | the name, career and date are copied; the parent name, e-mail, phone and school are their text when present and empty when null; age and time are their decimal text when non-zero and empty when null or 0; the score is always printed, 0 included |
| ResultsTable.Quote | src/components/admin/ResultsTable.tsx:116 | the cell text between two double quotes, unescaped |
| ResultsTable.QuoteAll | src/components/admin/ResultsTable.tsx:116 | every cell of a line is quoted, in order |
| ResultsTable.RowLines | src/components/admin/ResultsTable.tsx:102-116 | one line per result, in result order |
| ResultsTable.CsvLines | src/components/admin/ResultsTable.tsx:115-117 | the header line plus one line per result, covering all results whatever the search box holds |
| ResultsTable.Csv | src/components/admin/ResultsTable.tsx:115-117 | the export text starts with the header line, and is only that line when there are no results |
| ResultsTable.CsvSplitsIntoLines | src/components/admin/ResultsTable.tsx:115-117 | when no field holds a newline, reading the export back line by line gives the header line and then each result's line, in order |
| ResultsTable.CsvLineFields | src/components/admin/ResultsTable.tsx:116 | when no cell holds a comma, reading a line back at its commas gives the quoted cells |
| ResultsTable.ScoreBand | src/components/admin/ResultsTable.tsx:245-251 | green exactly from 70, yellow exactly from 40 below 70, red exactly below 40 |
| ResultsTable.ScoreBandMonotone | src/components/admin/ResultsTable.tsx:245-251 | a higher score never gets a worse colour |
| ResultsTable.CareerLabel | src/components/admin/ResultsTable.tsx:241 | a tag without a label shows raw; a tag with a non-empty label shows the label |
| ResultsTable.CareerLabelShown | src/components/admin/ResultsTable.tsx:27-35 | the scientist tag shows its label |
| ResultsTable.CareerLabelRawForCamelCaseTags | src/components/admin/ResultsTable.tsx:27-35 | the camel-case tags `techHero` and `environmentHero` miss the snake-case keys and show raw |
| Seqs.Find | src/hooks/useQuiz.ts:47-48 | nothing exactly when no element matches; otherwise a matching element with no match before it |
| Seqs.Dedup | src/pages/AdminDashboard.tsx:88 | no repeats, the same members as the input, and no longer than it |
| Seqs.DedupMembers | src/pages/AdminDashboard.tsx:88 | a value is kept exactly when it occurs |
| Seqs.DedupFirstOccurrenceOrder | src/pages/AdminDashboard.tsx:88 | the kept values are in order of first occurrence |
| Seqs.Filter | src/components/admin/statsCards.tsx:23 | the kept elements satisfy the predicate and come from the input, every satisfying element is kept, and none is kept more often than it occurs |
| Seqs.FilterCounts | src/components/admin/statsCards.tsx:23 | an element satisfying the predicate is kept exactly as often as it occurs, and any other element never |
| Seqs.FilterAppend | src/components/admin/statsCards.tsx:23 | filtering a concatenation gives the filtered parts in the same order, so the kept elements keep input order |
| Seqs.FilterKeepsAll | src/components/admin/ResultsTable.tsx:68-73 | a predicate every element satisfies keeps the whole list |
| Text.NatToString | src/components/admin/AdminStats.tsx:49 | a canonical decimal text whose value is the number, one digit exactly below 10 |
| Text.NatToStringOfValue | src/hooks/useTimer.ts:53 | every canonical decimal text is the printing of its value |
| Text.PadStart | src/hooks/useTimer.ts:53 | the text right-aligned to the width, filled on the left with the pad character |
| Text.Trim | scripts/create-admin-user.mjs:19 | no longer than the input, and neither end of a non-empty result is whitespace |
| Text.TrimParts | scripts/create-admin-user.mjs:19 | the input is whitespace, then the trimmed text, then whitespace |
| Text.TrimCharacterized | scripts/create-admin-user.mjs:19 | any split of a text into whitespace, a core with non-whitespace ends, and whitespace has that core as its trim |
| Text.TrimIdempotent | scripts/create-admin-user.mjs:19-23 | trimming twice is trimming once |
| Text.TrimEmpty | scripts/create-admin-user.mjs:20 | the trim is empty exactly when the text is all whitespace |
| Text.TrimAppendWhitespace | scripts/create-admin-user.mjs:19 | a trailing whitespace character does not change the trim |
| Text.Split | scripts/create-admin-user.mjs:18 | the pieces hold no separator, rejoin to the input, and number one more than the separators |
| Text.SplitOfJoin | scripts/create-admin-user.mjs:21-23 | splitting the join of separator-free pieces gives the pieces back |
| Text.SplitOfJoinCons | src/components/admin/ResultsTable.tsx:115-117 | splitting a head line joined with further lines gives the head and the lines back |
| Text.JoinHead | src/components/admin/ResultsTable.tsx:115-117 | a join starts with its first part, and is that part alone when there is no other |
| Text.Includes | src/components/admin/ResultsTable.tsx:70-72 | the needle occurs somewhere in the text |
| Text.IncludesEmpty | src/components/admin/ResultsTable.tsx:68-73 | every text includes the empty text |
| Text.ToLower | src/components/admin/ResultsTable.tsx:70-72 | each character lower-cased, the length unchanged, and no upper-case ASCII letter left |

## Left out

- Rendering, animation, videos and the style-only components have no computed content here.
- `src/pages/Index.tsx` beyond the phase-to-action wiring, and `src/pages/FrontPage.tsx`, are presentation. So is `ResultScreen` not receiving answers or score.
- Supabase and browser I/O are outside the model:
  - the result and user fetches, the `admins` table lookup (`src/pages/AdminDashboard.tsx:35-52`), `localStorage` writes, `navigate` and `toast`;
  - `src/lib/quizStorage.ts`, `ParentInfoForm`, `AdminLogin`;
  - `readFileSync`, `signUp` and `process.exit` in the script.

  The fetched rows, the fetched users and the `.env` text are inputs.
- The `setInterval` scheduling and cleanup of the timer are not modelled. A tick is an explicit event that has an effect only while the timer runs, as the interval exists only then.
- `formatDate` depends on the locale and `Date`.
- The blob download and the file name depend on the current date.
- The table's sort comparator is not modelled. It never returns 0 and compares nulls as ±Infinity, so it is no consistent order, and the filtered rows are modelled before sorting.
- Question and option texts, card descriptions, emojis and colours are copied as data. No property depends on them.
- Quiz.AnswerPersonality: JavaScript lists integer-like object keys before the others, and the model keeps plain insertion order. The two agree for the `p1`–`p6` and `l1`–`l9` ids, the only ids that resolve.
- AdminStats.DistributionCounts: the same integer-like key order applies to the distribution's career keys. The model keeps insertion order, which matters for the tie-break only if a career is spelled like an integer.
- AdminStats.CareerDistribution: for a career spelled like an `Object.prototype` member other than `__proto__` (`constructor`, `toString`, ...), the source stores a concatenated text such as `function Object() { [native code] }1`; the model keeps no entry for it. The reduce never picks such a text, since it never compares greater than a count, so the top career is the same.
- Stats.RoundHalfUp: `Math.round` over floating point is modelled as exact integer rounding, halves up. Scores and times are modelled as non-negative integers, which are all the app stores.
- Text.ToLower: only ASCII letters are lower-cased; JavaScript's full Unicode case mapping is not modelled.
- ResultsTable.Quote: cells are quoted without escaping inner double quotes, as written. No round-trip is claimed for cells holding `"`, `,` or a newline.
- ResultsTable.CareerLabel: a tag spelled like an `Object.prototype` member (`constructor`, `toString`) would find an inherited function in the source, which the cell cannot show as text. The label table is modelled as holding its seven own keys only.
- AdminDashboard.UsersMap: the users the lookup returns are an input. The model does not constrain them to the requested ids.
- ResultsTable.FilterResults: the table is modelled against its own declared row type only. The dashboard's rows lack `child_name` and the other columns it reads, so the source throws on them, and the model does not state that failure (see Row shapes).
- ResultsTable.CsvCells: its own contract states only the cell count; the content of every cell is stated in `CsvCellsOfRow`.
