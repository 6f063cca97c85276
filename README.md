# advanced-TODO task rules in Dafny

This project models the core of advanced-TODO, a task manager. Its backend, an Express
service over a MongoDB `Task` collection, stores tasks that have:

- a title, a status (`done` / `not done`) and a priority (`low` / `medium` / `high`);
- a list of tasks they depend on;
- recurring and dependency flags, and an optional recurrence pattern (`daily` / `weekly` /
  `monthly`).

A cron job creates the next occurrence of each recurring task. The React frontend shows tasks
as cards. It also has a filter panel, a pagination control and a small store slice for the
task about to be deleted.

The model has three layers.

- **Data** (`task_enums.dfy`, `task_model.dfy`, `validations.dfy`, `calendar.dfy`,
  `basics.dfy`)
  - The three enums with their string values.
  - The `Task` document with its schema defaults and enum validators.
  - The three zod request schemas, as predicates over a JSON body.
  - Whole-day civil-date arithmetic for the scheduler.
  - ASCII `toLowerCase`, `split` and `join`.
- **Backend behaviour**
  - `task_search.dfy`: the queries of `searchTasks` as functions on the collection: the
    filter, the newest-first sort, paging, `populate` and the statistics aggregation.
  - `task_controller.dfy`: the request handlers as methods of a `TaskStore` class.
    - The class holds the collection (`docs`, natural order) and the next id.
    - Each handler states its reply and the new collection for every outcome: 400 for a
      malformed id, 404 for a missing task, 400 when the dependency gate refuses.
  - `scheduler.dfy`: `calculateNextDueDate` and one cron tick.
    - `RunTick` is a loop over the candidates, proved against the recursive specification
      `RunFrom`.
    - The loop's structural properties are proved once for any loop body (`Step`, `RunWith`)
      and then used for the tick's own loop body.
- **Frontend**
  - `pagination.dfy`: the Pagination buttons.
  - `filter_component.dfy`: the filter panel, as a class with five checkbox flags.
  - `todo_slice.dfy`: the `todos` reducer, as a function and as a class with one field.
  - `util.dfy`: the shared class-name helpers.
  - `card.dfy`: the task card's view.

Several pieces of the code disagree with their own enums. Where they do, a member takes a
`Policy` argument:

- `AsWritten` models the code exactly.
- `Corrected` models what was evidently intended.

Both are proved about; see "## Findings".

The store hands out ObjectIds as consecutive naturals (`nextId`), and a request id is a
24-digit hexadecimal string parsed to its value. Time is a parameter: `now` and the
timestamps the store writes into `createdAt` / `updatedAt` are passed in.

## Model

| member | source | states |
|---|---|---|
| TaskEnums.ParseStatus | backend/src/constants/taskEnums.ts:1-4 | a string names a status exactly when it is 'done' or 'not done', and parsing gives back the member with that value |
| TaskEnums.ParsePriority | backend/src/constants/taskEnums.ts:6-10 | a string names a priority exactly when it is one of 'low', 'medium', 'high' |
| TaskEnums.ParsePattern | backend/src/constants/taskEnums.ts:12-16 | a string names a pattern exactly when it is one of 'daily', 'weekly', 'monthly' |
| TaskEnums.EnumRoundTrips | backend/src/constants/taskEnums.ts:1-16 | values within each enum are distinct: parsing a member's value yields that member |
| TaskEnums.EnumValueSets | backend/src/constants/taskEnums.ts:1-16 | each enum has exactly the listed values |
| TaskEnums.NotDoneLiteral | backend/src/controllers/taskController.ts:78 | the literal the code compares statuses with is no status as written; corrected it is NOT_DONE |
| TaskEnums.NotDoneLiteralIsNoStatus | backend/src/constants/taskEnums.ts:3 | 'notDone' is not the value of any status |
| TaskEnums.StatusName | backend/src/constants/taskEnums.ts:1-4 | (definition) DONE is 'done', NOT_DONE is 'not done' |
| TaskEnums.PriorityName | backend/src/constants/taskEnums.ts:6-10 | (definition) LOW, MEDIUM, HIGH are 'low', 'medium', 'high' |
| TaskEnums.PatternName | backend/src/constants/taskEnums.ts:12-16 | (definition) DAILY, WEEKLY, MONTHLY are 'daily', 'weekly', 'monthly' |
| TaskModel.HexDigitValue | backend/src/validations/validations.ts:12 | a hex digit has a value below 16, and that value is its position among the lower-case digits `0123456789abcdef` |
| TaskModel.HexValueIgnoresCase | backend/src/validations/validations.ts:12 | lower-casing a hex id keeps it hex and keeps its value: ids differing in letter case denote one ObjectId |
| TaskModel.IsObjectIdString | backend/src/validations/validations.ts:12 | (definition) exactly 24 characters, each a hex digit of either case |
| TaskModel.HexValue | backend/src/models/taskModel.ts:27 | (definition) the number a hex id string denotes, most significant digit first |
| TaskModel.FieldErrors | backend/src/models/taskModel.ts:24-30 | a path fails exactly when: title is absent on a new document or empty; status is present but not 'done' or 'not done'; priority present but not 'low', 'medium' or 'high'; recurrencePattern present but not 'daily', 'weekly' or 'monthly' |
| TaskModel.Build | backend/src/models/taskModel.ts:22-34 | a new document is refused exactly when some path fails, and the error lists every failing path; otherwise it is well formed and has the given id; each given field is kept (title, status, priority, dependencies, the three flags, pattern, dueDate); the defaults fill absent ones (status NOT_DONE, priority LOW, no dependencies, flags false, no pattern); createdAt and updatedAt are the creation time |
| TaskModel.DefaultsApplied | backend/src/models/taskModel.ts:25-31 | a title alone gives status NOT_DONE, priority LOW, all three flags false, no dependencies, no pattern |
| TaskModel.BuildRefusals | backend/src/models/taskModel.ts:24-30 | a missing or empty title, and any status, priority or pattern outside its enum, is refused |
| TaskModel.PatternIndependentOfRecurring | backend/src/models/taskModel.ts:28-30 | a non-recurring task with a pattern and a recurring task without one are both accepted |
| TaskModel.ApplyPatch | backend/src/controllers/taskController.ts:116-119 | an update keeps the id and createdAt, stamps updatedAt, keeps a well-formed task well formed, sets a given status and keeps an absent one; an empty update changes only updatedAt |
| TaskModel.ApplyPatchFields | backend/src/controllers/taskController.ts:116-119 | for every other field ($set semantics): a field present in the update overwrites the stored value (an enum value by the member it names), an absent one keeps it |
| Validations.CreateIsStrict | backend/src/validations/validations.ts:6-18 | any key outside the seven declared ones makes createTaskSchema refuse the body |
| Validations.UpdateIgnoresUndeclaredKeys | backend/src/validations/validations.ts:20-27 | adding an undeclared key (dependencies among them) never makes updateTaskSchema refuse a body it accepted |
| Validations.TodoDataIsNotValidated | backend/src/routes/v1/taskRouters.ts:22 | a body holding only `todoData`, whatever its value, passes updateTaskSchema |
| Validations.UpdateSchemaIsWeakest | backend/src/validations/validations.ts:6-33 | every body the create schema or the status schema accepts, the update schema accepts |
| Validations.StatusUpdateIsExactlyOneStatus | backend/src/validations/validations.ts:29-33 | statusUpdate accepts exactly the bodies { status: v } with v a status value |
| Validations.CreatePatternIndependentOfRecurring | backend/src/validations/validations.ts:14-16 | a recurring body without a pattern and a non-recurring body with one are both accepted |
| Validations.CastIds | backend/src/validations/validations.ts:11-13 | every validated id string is cast, in order, to the ObjectId its hex digits denote |
| Validations.CreateBodyBuilds | backend/src/controllers/taskController.ts:9 | a body the create schema accepts always passes the model's validation, and the document keeps its title, status and priority |
| Validations.CreateTaskSchema | backend/src/validations/validations.ts:6-18 | (definition) required non-empty title, status and priority from their enums and the two boolean flags; optional 24-hex dependency strings and pattern; no other key |
| Validations.UpdateTaskSchema | backend/src/validations/validations.ts:20-27 | (definition) every declared field optional, a present one of its declared type; other keys pass |
| Validations.StatusUpdateSchema | backend/src/validations/validations.ts:29-33 | (definition) a status value and no other key |
| Validations.CreateInput | backend/src/controllers/taskController.ts:9 | (definition) the fields `Task.create(req.body)` receives: strings and flags as sent, dependency strings cast to ObjectIds, no cronCreated or dueDate |
| Basics.Lower | frontend/src/util/util.ts:5 | toLowerCase keeps the length and lower-cases each character |
| Basics.LowerNeverEquals | frontend/src/util/util.ts:30 | a lower-cased string never equals a literal with an upper-case letter |
| Basics.LowerIdempotent | backend/src/utils/scheduler.ts:41 | lower-casing twice is lower-casing once |
| Basics.Split | backend/src/controllers/taskController.ts:54 | split yields at least one piece, and no piece holds the separator |
| Basics.SplitWithoutSeparator | backend/src/controllers/taskController.ts:54-55 | a parameter without a comma splits into itself |
| Basics.JoinSplit | backend/src/controllers/taskController.ts:54-55 | joining the pieces with the separator gives the string back |
| Basics.Contains | backend/src/controllers/taskController.ts:53 | (definition) the pattern occurs as a contiguous substring |
| Basics.Join | backend/src/controllers/taskController.ts:54 | (definition) the pieces joined with the separator, the inverse that JoinSplit relates to split |
| Calendar.DaysInMonth | backend/src/utils/scheduler.ts:109 | every month has 28 to 31 days, and February has 29 exactly in leap years |
| Calendar.DateLtTransitive | backend/src/utils/scheduler.ts:31 | the order of dates is transitive |
| Calendar.FirstOfNextMonth | backend/src/utils/scheduler.ts:109 | the first of the next month is a valid date after the last day of this one |
| Calendar.NextDay | backend/src/utils/scheduler.ts:103 | the next day is a valid, later date |
| Calendar.NextDayAdjacent | backend/src/utils/scheduler.ts:14-15 | no valid date lies strictly between a day and the next one |
| Calendar.AddDays | backend/src/utils/scheduler.ts:106 | adding days gives a valid date |
| Calendar.AddDaysIsLater | backend/src/utils/scheduler.ts:106 | adding at least one day gives a later date |
| Calendar.AddOneMonth | backend/src/utils/scheduler.ts:109 | the date one month on is a valid date later than the given one |
| Calendar.AddDaysStep | backend/src/utils/scheduler.ts:103-106 | adding n + 1 days is the day after adding n days |
| Calendar.AddDaysWithinMonth | backend/src/utils/scheduler.ts:103-106 | days added without leaving the month only move the day of the month |
| Calendar.AddDaysSplit | backend/src/utils/scheduler.ts:103-106 | adding a + b days is adding a days and then b days |
| Calendar.AddOneMonthCountsDays | backend/src/utils/scheduler.ts:109 | setMonth(getMonth() + 1) lands d.day - 1 days after the first of the next month: the same day when that month has it, otherwise the overflow rolled forward into the month after |
| Calendar.DayWindow | backend/src/utils/scheduler.ts:50-56 | [midnight of day D, midnight of D + 24h) holds exactly the instants on day D |
| Calendar.FromTomorrowIsAfterToday | backend/src/utils/scheduler.ts:14-21 | an instant at or after the start of tomorrow lies on a day after today |
| Calendar.BeforeTomorrowIsNotAfterToday | backend/src/utils/scheduler.ts:31 | an instant before the start of tomorrow lies on today or earlier |
| Scheduler.StepOf | backend/src/utils/scheduler.ts:101-114 | a lower-cased known pattern names its own step; any other pattern is daily |
| Scheduler.Advance | backend/src/utils/scheduler.ts:99-117 | the next due date keeps the time of day and falls on a later date: one day later for daily, seven for weekly, and for monthly as many days after the first of the next month as the due date is after the first of its own |
| Scheduler.NextDueDate | backend/src/utils/scheduler.ts:98-118 | calculateNextDueDate keeps the time of day, falls on a later date, and advances by the step its lower-cased pattern names (daily for anything else) |
| Scheduler.StoredPatternStep | backend/src/utils/scheduler.ts:41-44 | a stored pattern names its own step, lower-cased or not |
| Scheduler.NextDueDateIgnoresCase | backend/src/utils/scheduler.ts:101 | the pattern is matched without regard to letter case |
| Scheduler.UnknownPatternIsDaily | backend/src/utils/scheduler.ts:112-114 | an unrecognised pattern recurs daily |
| Scheduler.PatternSteps | backend/src/utils/scheduler.ts:102-110 | daily is the next day, weekly is seven next-day steps, monthly is one month on: the same day of the next month when that month has it, otherwise the overflow rolled forward into the month after |
| Scheduler.CalendarExamples | backend/src/utils/scheduler.ts:108-110 | 31 January goes to 3 March (2 March in a leap year); 'Weekly' crosses the year end |
| Scheduler.IsCandidate | backend/src/utils/scheduler.ts:18-21 | (definition) a recurring task with a due date, due at or after the start of tomorrow as written, before it once corrected |
| Scheduler.Candidates | backend/src/utils/scheduler.ts:18-21 | (definition) the candidates in collection order |
| Scheduler.OccurrenceInput | backend/src/utils/scheduler.ts:77-86 | (definition) the fields of the new occurrence: the template's title, priority, pattern and dependencies, status 'notDone' as written or 'not done' corrected, recurring and cron-created, due at the next due date |
| Scheduler.ProcessTemplate | backend/src/utils/scheduler.ts:26-47 | (definition) a template due after today is skipped, one without a pattern fails, otherwise the occurrence at the next due date is scheduled |
| Scheduler.ScheduleNext | backend/src/utils/scheduler.ts:48-90 | (definition) a same-title task in the next due day's window skips, an exact match skips, otherwise the built occurrence is saved or its validation error ends the tick |
| Scheduler.StepFor | backend/src/utils/scheduler.ts:25-91 | (definition) the loop body of a tick at `now` |
| Scheduler.RunWith | backend/src/utils/scheduler.ts:25-94 | (definition) the loop over the candidates for any loop body: occurrences are appended with consecutive ids, the first failure ends the run |
| Scheduler.RunFrom | backend/src/utils/scheduler.ts:9-94 | (definition) one tick: RunWith with the tick's own loop body |
| Scheduler.WindowIsSameDay | backend/src/utils/scheduler.ts:50-56 | the 24-hour duplicate window finds exactly the tasks of that title due on the next due day |
| Scheduler.CandidatesHaveDueDates | backend/src/utils/scheduler.ts:18-21 | every candidate the query returns has a due date |
| Scheduler.ProcessCandidate | backend/src/utils/scheduler.ts:26-90 | the loop body for one candidate computes the outcome of its specification; it appends the occurrence with the next id when one is saved, and changes nothing otherwise |
| Scheduler.RunTick | backend/src/utils/scheduler.ts:9-94 | the tick's loop ends with the collection, next id and error of the specification run over the candidates |
| Scheduler.RunOnlyAppends | backend/src/utils/scheduler.ts:25-91 | whatever the loop body does, a run only appends to the collection and hands out one id per appended document |
| Scheduler.FailureEndsRun | backend/src/utils/scheduler.ts:92-94 | whatever the loop body does, after a failure the remaining candidates are never processed |
| Scheduler.RunWithAfter | backend/src/utils/scheduler.ts:25-91 | one loop step: a failure ends the run, an occurrence is appended with the next id, anything else passes on |
| Scheduler.RunAppendsFresh | backend/src/utils/scheduler.ts:50-88 | with a loop body that saves only fresh occurrences, every appended document is cron-created and has no task of its title due on its day before it |
| Scheduler.AppendKeepsValid | backend/src/utils/scheduler.ts:88 | saving a well-formed document with the next id keeps ids distinct and below the next id |
| Scheduler.AsWrittenSkipsAll | backend/src/utils/scheduler.ts:26-36 | as written every candidate is due after today, so the skip test passes over all of them and the run changes nothing |
| Scheduler.AsWrittenTickChangesNothing | backend/src/utils/scheduler.ts:18-36 | as written a tick never changes the collection and never fails |
| Scheduler.CorrectedCreatesDueOccurrence | backend/src/utils/scheduler.ts:31-88 | corrected, a template due today or earlier, with a pattern and nothing of its title on its next due day, gets a new occurrence |
| Scheduler.AsWrittenOccurrenceRejected | backend/src/utils/scheduler.ts:77-88 | as written the occurrence's status 'notDone' fails validation, on the status path only |
| Scheduler.CorrectedOccurrenceFields | backend/src/utils/scheduler.ts:77-86 | corrected, the occurrence saves and copies title, priority, dependencies and pattern; it is not done, recurring, cron-created and due on the next due date |
| Scheduler.ExactMatchIsSubsumed | backend/src/utils/scheduler.ts:65-74 | the exact-match check never decides: a task due exactly then is inside the window |
| Scheduler.RerunFindsOccurrence | backend/src/utils/scheduler.ts:50-63 | once an occurrence is saved, scheduling the same template again creates nothing |
| Scheduler.OccurrenceIsNew | backend/src/utils/scheduler.ts:50-88 | an occurrence is cron-created and no task of its title is due on its day |
| Scheduler.StepForIsFresh | backend/src/utils/scheduler.ts:50-88 | the tick's loop body saves only fresh occurrences |
| Scheduler.TickOnlyAppends | backend/src/utils/scheduler.ts:25-91 | a tick only appends, one id per appended document |
| Scheduler.TickOccurrencesUnique | backend/src/utils/scheduler.ts:50-88 | a tick creates at most one occurrence per title and due day: each appended document has no task of its title due on its day before it |
| Scheduler.FailureEndsTick | backend/src/utils/scheduler.ts:9 | an error ends the tick: the templates after the one that failed are never processed |
| Scheduler.CorrectedFailsOnlyWithoutPattern | backend/src/utils/scheduler.ts:41 | corrected, a tick over well-formed templates fails only on a template without a pattern |
| TaskSearch.FindById | backend/src/controllers/taskController.ts:27-29 | findById finds a document with that id exactly when one exists |
| TaskSearch.Select | backend/src/controllers/taskController.ts:60 | find(filter) keeps exactly the documents that pass |
| TaskSearch.SelectNone | backend/src/controllers/taskController.ts:60 | a test no document passes selects nothing |
| TaskSearch.SelectCongruent | backend/src/controllers/taskController.ts:60 | tests that agree on the collection select the same documents |
| TaskSearch.SelectAppend | backend/src/controllers/taskController.ts:60 | selection keeps collection order |
| TaskSearch.Resolve | backend/src/controllers/taskController.ts:62 | populate yields referenced documents that exist, and none that exists is lost |
| TaskSearch.ResolveComplete | backend/src/controllers/taskController.ts:62 | when every referenced id exists, populate loses none |
| TaskSearch.BuildFilter | backend/src/controllers/taskController.ts:47-57 | the filter built parameter by parameter admits a document exactly when every given parameter admits it |
| TaskSearch.Matches | backend/src/controllers/taskController.ts:53-57 | (definition) the document meets every condition the filter holds: title substring ignoring case, status and priority among the listed values, flags equal |
| TaskSearch.Admits | backend/src/controllers/taskController.ts:45-57 | (definition) one condition per query parameter: an absent or empty title, status or priority constrains nothing, a list is split at commas, a present flag parameter requires the flag to equal (value is "true") |
| TaskSearch.Matching | backend/src/controllers/taskController.ts:60-66 | the documents a search matches are exactly the documents of the collection the query admits |
| TaskSearch.Selected | backend/src/controllers/taskController.ts:60 | the documents a filter selects are exactly the documents of the collection that match it |
| TaskSearch.SelectedIsMatching | backend/src/controllers/taskController.ts:60-66 | a filter equivalent to the query selects the documents the query matches |
| TaskSearch.NoParametersMatchAll | backend/src/controllers/taskController.ts:47-57 | with no parameter every document matches |
| TaskSearch.SingleValueFilter | backend/src/controllers/taskController.ts:54-55 | a status or priority parameter without commas matches exactly that value |
| TaskSearch.NotDoneStatusMatchesNothing | backend/src/controllers/taskController.ts:54 | status=notDone, the key the filter panel sends, matches nothing |
| TaskSearch.FlagParameterIsLiteralTrue | backend/src/controllers/taskController.ts:56-57 | a flag parameter other than "true" selects the tasks with the flag false |
| TaskSearch.PageNumber | backend/src/controllers/taskController.ts:45-48 | the page is at least 1 and defaults to 1 |
| TaskSearch.LimitNumber | backend/src/controllers/taskController.ts:45-49 | the limit is at least 1 and defaults to 3 |
| TaskSearch.Skip | backend/src/controllers/taskController.ts:50 | (definition) the documents on the pages before the requested one |
| TaskSearch.CeilDiv | backend/src/controllers/taskController.ts:95 | (definition) Math.ceil(n / limit); its bounds are CeilDivBounds |
| TaskSearch.CeilDivBounds | backend/src/controllers/taskController.ts:95 | totalPages is the least number of pages of `limit` that hold the matches |
| TaskSearch.NoPagesIffNoMatches | backend/src/controllers/taskController.ts:95 | totalPages is 0 exactly when nothing matches |
| TaskSearch.PageInRangeIffNonEmpty | backend/src/controllers/taskController.ts:50-95 | a page holds some match exactly when its number is at most totalPages |
| TaskSearch.Page | backend/src/controllers/taskController.ts:63-64 | skip/limit yields at most `limit` consecutive documents from position `skip`, and nothing past the end |
| TaskSearch.PageLocates | backend/src/controllers/taskController.ts:63-64 | result k is on page k / limit + 1 |
| TaskSearch.PrependKeepsOrder | backend/src/controllers/taskController.ts:61 | a document no older than the head keeps a list newest first |
| TaskSearch.NewestFirst | backend/src/controllers/taskController.ts:61 | (definition) updatedAt never increases along the list |
| TaskSearch.Insert | backend/src/controllers/taskController.ts:61 | inserting into a newest-first list keeps it newest first |
| TaskSearch.InsertPermutes | backend/src/controllers/taskController.ts:61 | insertion adds exactly the one document |
| TaskSearch.SortNewestFirst | backend/src/controllers/taskController.ts:61 | the sort is a permutation ordered by updatedAt descending |
| TaskSearch.Populate | backend/src/controllers/taskController.ts:62 | each returned document carries its resolved dependencies |
| TaskSearch.CountStatus | backend/src/controllers/taskController.ts:74-79 | a status count never exceeds the collection |
| TaskSearch.CollectionStats | backend/src/controllers/taskController.ts:69-86 | the statistics cover the whole collection: its size, the 'done' count and the count of the incomplete literal |
| TaskSearch.StatusCountsPartition | backend/src/constants/taskEnums.ts:1-4 | every document is 'done' or 'not done' |
| TaskSearch.StatsAsWrittenMissIncomplete | backend/src/controllers/taskController.ts:77-79 | as written incompleteTasks is always 0, so the two counts miss every task that is not done |
| TaskSearch.StatsCorrectedPartition | backend/src/controllers/taskController.ts:69-86 | corrected, completedTasks + incompleteTasks == totalTasks |
| TaskSearch.ResultPage | backend/src/controllers/taskController.ts:60-64 | the page holds at most `limit` documents, and is empty exactly when skip reaches past the matches |
| TaskSearch.SearchResult | backend/src/controllers/taskController.ts:43-99 | the response: pagination over the matching count, statistics over the whole collection, at most pageSize tasks |
| TaskSearch.SearchResultTasks | backend/src/controllers/taskController.ts:60-64 | every returned document is in the collection and matches the query |
| TaskSearch.PageKeepsOrder | backend/src/controllers/taskController.ts:61-64 | a page of an ordered list is ordered |
| TaskSearch.SearchResultOrder | backend/src/controllers/taskController.ts:61 | the returned page is newest first |
| TaskSearch.SearchResultPaging | backend/src/controllers/taskController.ts:93-98 | totalPages is 0 exactly when nothing matches, and the requested page holds a task exactly when it is in range |
| TaskSearch.ThirdPageOfSeven | backend/src/controllers/taskController.ts:45-95 | seven matches with the default limit give three pages, and page 3 holds one task |
| TaskSearch.IncompleteTasksAsWrittenEmpty | backend/src/controllers/taskController.ts:211-223 | as written the incomplete-task list is always empty |
| TaskSearch.IncompleteTasksCorrected | backend/src/controllers/taskController.ts:211-223 | corrected, it lists exactly the tasks that are not done |
| TaskSearch.IncompleteTasks | backend/src/controllers/taskController.ts:211-223 | (definition) id and title of every document whose status equals the incomplete literal, in collection order |
| TaskController.ParseId | backend/src/controllers/taskController.ts:108 | an id is accepted exactly when it is 24 hex digits, and denotes their value |
| TaskController.ParseIdIgnoresCase | backend/src/controllers/taskController.ts:137 | ids that differ in letter case denote the same task |
| TaskController.FindOwnId | backend/src/controllers/taskController.ts:27-29 | with distinct ids, looking up a document's id finds it |
| TaskController.WithoutId | backend/src/controllers/taskController.ts:156-159 | $pull removes every occurrence of the given id and nothing else: the other ids keep their multiplicity and their order, and a list without the id is unchanged |
| TaskController.RemoveId | backend/src/controllers/taskController.ts:145 | findByIdAndDelete keeps exactly the documents with another id |
| TaskController.PullDependency | backend/src/controllers/taskController.ts:156-159 | the pull changes only the dependency lists that held the id (and their updatedAt); all other fields are unchanged |
| TaskController.ReplaceById | backend/src/controllers/taskController.ts:116-119 | the document with that id is replaced; the others are unchanged |
| TaskController.WithStatus | backend/src/controllers/taskController.ts:196 | updateOne sets the requested status (an absent one keeps the old) and changes nothing else but updatedAt |
| TaskController.DependenciesComplete | backend/src/controllers/taskController.ts:185-186 | an absent dependency list fails; otherwise every dependency must be done |
| TaskController.GateKeepsCompletionOrdered | backend/src/controllers/taskController.ts:185-196 | marking a task done through the gate keeps every done task's existing dependencies done |
| TaskController.RemoveKeepsCompletionOrdered | backend/src/controllers/taskController.ts:145 | removing a document keeps completion ordered |
| TaskController.PullKeepsCompletionOrdered | backend/src/controllers/taskController.ts:156-159 | pulling an id from every list keeps completion ordered |
| TaskController.DeleteKeepsCompletionOrdered | backend/src/controllers/taskController.ts:145-159 | deleting a task keeps completion ordered |
| TaskController.DeleteLeavesNoReferences | backend/src/controllers/taskController.ts:145-159 | after a delete no document has the id and no list refers to it |
| TaskController.ReopenCanBreakOrder | backend/src/controllers/taskController.ts:185-196 | the gate checks only 'done': reopening a task a done task depends on breaks completion order |
| TaskController.GeneralUpdateBypassesGate | backend/src/controllers/taskController.ts:116-119 | the general update can mark a task done while its dependency is not done |
| TaskController.CreateBypassesGate | backend/src/validations/validations.ts:6-18 | a create body that is done and lists, by its id string, a task that is not done passes the schema and builds a document that breaks completion order |
| TaskController.DoneWithDependencyAccepted | backend/src/validations/validations.ts:6-18 | a done body listing one valid id string passes the create schema, and the model receives that id's value as its one dependency |
| TaskController.TaskStore.constructor | backend/src/models/taskModel.ts:36 | the collection starts empty and valid |
| TaskController.TaskStore.CreateTask | backend/src/controllers/taskController.ts:7-14 | a validated body is always saved: the built document is appended with the next id and returned |
| TaskController.TaskStore.GetTasks | backend/src/controllers/taskController.ts:16-23 | every document in natural order, each with its dependencies populated |
| TaskController.TaskStore.GetTask | backend/src/controllers/taskController.ts:25-41 | a malformed id is a cast error; otherwise the task with that id, or not found |
| TaskController.TaskStore.SearchTasks | backend/src/controllers/taskController.ts:43-103 | the response equals the search specification on the current collection |
| TaskController.TaskStore.UpdateTask | backend/src/controllers/taskController.ts:105-133 | a malformed id gives 400, a failing field a validation error, a missing task 404, all with no change; otherwise the stored task is replaced in place by ApplyPatch of it (every present field overwritten, every absent one kept, per ApplyPatch and ApplyPatchFields) and that task is the reply |
| TaskController.TaskStore.DeleteTask | backend/src/controllers/taskController.ts:135-168 | a malformed id gives 400 and a missing task 404, with no change; otherwise the task is removed and its id pulled from every list |
| TaskController.TaskStore.UpdateStatus | backend/src/controllers/taskController.ts:170-209 | 400 for a malformed id and 404 for a missing task, with no change; done is refused with no write unless every resolved dependency is done; any other status is written |
| TaskController.SelectKeepsDistinct | backend/src/controllers/taskController.ts:145 | removing documents keeps ids distinct |
| TaskController.StatusRouteMarksDoneOnlyWhenDependenciesDone | backend/src/controllers/taskController.ts:185-193 | when the gate lets done through, every existing dependency is done |
| Pagination.Click | frontend/src/components/Shared/Pagination.tsx:11-45 | a click does nothing exactly when its button is disabled (Previous at page ≤ 1, Next at page ≥ totalPages); otherwise it requests the page before or after |
| Pagination.PreviousDisabled | frontend/src/components/Shared/Pagination.tsx:11 | (definition) Previous is disabled on page 1 or below |
| Pagination.NextDisabled | frontend/src/components/Shared/Pagination.tsx:14 | (definition) Next is disabled on the last page or past it |
| Pagination.RequestedPageInRange | frontend/src/components/Shared/Pagination.tsx:11-19 | an enabled button requests a page in [1, totalPages] |
| Pagination.NoPagesDisablesNext | frontend/src/components/Shared/Pagination.tsx:14 | with no pages Next is always disabled |
| Pagination.SinglePageDisablesBoth | frontend/src/__tests__/Pagination.test.tsx:109-159 | on page 1 of 1 both buttons are disabled and neither calls onPageChange |
| Pagination.RequestedPageIsNonEmpty | frontend/src/components/Shared/Pagination.tsx:19-45 | with the backend's page count, every requested page holds at least one task |
| FilterComponent.CheckedKeys | frontend/src/components/FilterComponent.tsx:53-58 | Object.keys(...).filter(...) keeps checked keys in declaration order, one per set flag |
| FilterComponent.CheckedKeysAt | frontend/src/components/FilterComponent.tsx:53-58 | a key is selected exactly when its flag is set |
| FilterComponent.CheckedKeysNone | frontend/src/components/FilterComponent.tsx:53-58 | no flag set selects nothing |
| FilterComponent.CheckedKeysAll | frontend/src/components/FilterComponent.tsx:53-58 | every flag set selects all keys in order |
| FilterComponent.ShownStat | frontend/src/components/FilterComponent.tsx:27-31 | a missing statistic is shown as 0 |
| FilterComponent.Filters.constructor | frontend/src/components/FilterComponent.tsx:34-37 | all five flags start unchecked |
| FilterComponent.Filters.HandleFilterChange | frontend/src/components/FilterComponent.tsx:39-50 | the changed checkbox takes its new value; every other flag is unchanged |
| FilterComponent.Filters.Submit | frontend/src/components/FilterComponent.tsx:52-63 | each group's emitted keys are exactly its checked ones, in declaration order |
| FilterComponent.Filters.ClearFilter | frontend/src/components/FilterComponent.tsx:68-81 | emits empty selections and unchecks every flag |
| FilterComponent.SubmitWithNothingChecked | frontend/src/components/FilterComponent.tsx:52-81 | applying with nothing checked emits what clearing emits |
| FilterComponent.SubmitWithEverythingChecked | frontend/src/components/FilterComponent.tsx:52-63 | with every box checked all keys are sent in order, 'notDone' among them |
| TodoSlice.Reduce | frontend/src/state/todo/todoSlice.ts:19-29 | setTaskToDelete stores exactly the payload; confirm and cancel clear it |
| TodoSlice.ConfirmIsCancel | frontend/src/state/todo/todoSlice.ts:23-29 | confirm and cancel have the same effect, and each is idempotent |
| TodoSlice.ReduceForgetsPrevious | frontend/src/state/todo/todoSlice.ts:19-29 | the state after an action depends only on the action |
| TodoSlice.SetThenConfirm | frontend/src/state/todo/todoSlice.ts:19-25 | set then confirm ends with nothing to delete |
| TodoSlice.TodoState.constructor | frontend/src/state/todo/todoSlice.ts:9-11 | initially no task awaits deletion |
| TodoSlice.TodoState.SetTask | frontend/src/state/todo/todoSlice.ts:19-21 | the field becomes the payload, as the reducer says |
| TodoSlice.TodoState.ConfirmDelete | frontend/src/state/todo/todoSlice.ts:23-25 | the field is cleared, as the reducer says |
| TodoSlice.TodoState.CancelDelete | frontend/src/state/todo/todoSlice.ts:27-29 | the field is cleared, as the reducer says |
| Util.PriorityShade | frontend/src/util/util.ts:4-27 | red, yellow or green exactly for lower-cased 'high', 'medium', 'low' |
| Util.PriorityColor | frontend/src/util/util.ts:4-15 | the red, yellow and green badge classes exactly for lower-cased 'high', 'medium', 'low'; gray for everything else |
| Util.CardBorder | frontend/src/util/util.ts:16-27 | the red, yellow and green borders exactly for lower-cased 'high', 'medium', 'low'; gray for everything else |
| Util.GrayFallbacksAgree | frontend/src/util/util.ts:4-27 | both helpers fall back to gray for exactly the same inputs |
| Util.PriorityIgnoresCase | frontend/src/util/util.ts:4-27 | inputs differing only in letter case get the same classes |
| Util.CompletedBackground | frontend/src/util/util.ts:28-37 | green exactly when the lower-cased status is 'done', gray otherwise |
| Util.NotDoneCaseUnreachable | frontend/src/util/util.ts:30 | the 'notDone' case can never be taken |
| Util.BackgroundIgnoresCase | frontend/src/util/util.ts:28-37 | the background ignores letter case |
| Card.TruncTitle | frontend/src/components/Card.tsx:79-81 | a title of at most 40 characters is unchanged; a longer one becomes its first 40 and "...", 43 in all |
| Card.TruncTitleIdempotent | frontend/src/components/Card.tsx:79-81 | truncating twice is truncating once |
| Card.TruncTitleKeepsPrefix | frontend/src/components/Card.tsx:79-81 | the shown title is the title itself, or its first 40 characters and "..." |
| Card.CardBackground | frontend/src/components/Card.tsx:64-73 | green exactly when the lower-cased status is 'done' |
| Card.CardBackgroundIsShared | frontend/src/components/Card.tsx:64-73 | the card's background helper agrees with the shared one on every input |
| Card.ChipFor | frontend/src/components/Card.tsx:193-219 | a dependency chip shows the dependency's truncated title, its border and its status; its badge shows the card's priority as written, the dependency's corrected |
| Card.Actions | frontend/src/components/Card.tsx:227-291 | Delete is always offered; Update and Done exactly when the status is not 'done' |
| Card.View | frontend/src/components/Card.tsx:101-223 | the card shows the truncated title, the colours of its priority and status, the completed badge for 'done', the pattern when recurring, and the dependency list exactly when isDependency holds and the list is non-empty |
| Card.StoredTaskCardIsConsistent | frontend/src/components/Card.tsx:103-127 | for a stored task the card is green, shows the completed badge and withholds Done exactly when the task is done |
| Card.StoredCard | frontend/src/components/Card.tsx:4-13 | (definition) the card props of a stored task: its enum fields as their string values, its dependencies with their own title, status and priority |
| Card.UpperCaseDoneStillOffersDone | frontend/src/components/Card.tsx:121-248 | status "DONE" is green but still offers Done: the two rules compare differently |
| Card.ChipShowsCardPriority | frontend/src/components/Card.tsx:204-208 | as written a low-priority dependency of a high-priority card is labelled "high" |
| Card.ChipShowsOwnPriority | frontend/src/components/Card.tsx:204-208 | corrected, every chip carries its dependency's own priority |

## Left out

- HTTP plumbing is not modelled: Express, status codes as numbers, `next(error)`, the middlewares, `validateRequest` and the routes. Replies are a `Reply` datatype. The route wiring appears only as facts: the status route validates with `updateTaskSchema`, and the general update reads `todoData`.
- The title search parameter is compiled as a case-insensitive regular expression. The model treats it as a case-insensitive substring match, so regex metacharacters are not modelled.
- `Number(page)` and `Number(limit)` are modelled on integers only. NaN, fractional and non-numeric parameters are not modelled.
- Mongo's sort is not stable. The model fixes one order among tasks with equal `updatedAt`, and proves only the newest-first order and the permutation.
- `Promise.all` runs the three reads of a search concurrently. They all read the same unchanged collection, so the model reads them in sequence.
- `ObjectId.isValid` also accepts some 12-character strings. The model accepts exactly the 24-hex-digit ids.
- A cast error inside `todoData` is not modelled. The patch arrives as typed optional fields, and only the enum and title validators run on it.
- `strict` mode is not modelled: the undeclared `dueDate` path is read and written as the scheduler's queries are written.
- `populate` of a dangling reference is not modelled: it drops it, and the model resolves only the ids of existing documents.
- Time zones, DST and `setHours` in local time are not modelled. Dates are proleptic Gregorian civil dates, and "+24h" is the next day.
- The cron schedule, the wall clock and logging are not modelled. `now` and the save timestamps are parameters.
- The scheduler's occurrence does not copy `isDependency`; the model leaves it at its default, as the code does.
- Scheduler.StepFor: a candidate without a due date is passed over. This cannot happen, because every candidate has one (`CandidatesHaveDueDates`).
- Scheduler.ProcessTemplate does not go through `NextDueDate` on the lower-cased stored pattern. It advances by the stored pattern directly, and `StoredPatternStep` proves the two agree.
- Validation errors name their failing paths as a `Path` datatype, not as message strings.
- `handleFilterChange` is modelled for the five checkbox names only. A name outside them would add a new key to the filter state.
- `formatDate`, the `handle*` callbacks, the SVG markup and the other rendering-only components are not modelled.
- Card.tsx:40-63 redefines `getPriorityColor` and `getCardBorder` with the same bodies as util.ts. The model uses the one definition in `Util`.
- `title.length` counts UTF-16 code units; the model counts characters.
- `toLowerCase` is modelled for ASCII letters only.
- Card.test.tsx expects a "Reopen" button that Card.tsx never renders. The model follows the component.
- TaskController.TaskStore.UpdateStatus takes the requested status as an optional `TaskStatus`. A body with a malformed status is refused by its schema before the handler runs.

## Findings

| source | as written | input that shows it | evidently intended | confidence | as-written member | corrected member |
|---|---|---|---|---|---|---|
| backend/src/utils/scheduler.ts:18-36 | candidates are the recurring tasks due at or after the start of tomorrow, and the loop skips every task due after today | any recurring task, e.g. one due today with pattern 'daily': it is not a candidate; one due tomorrow is a candidate but is skipped | process the templates due today or earlier | high (not executed) | Scheduler.AsWrittenTickChangesNothing | Scheduler.CorrectedCreatesDueOccurrence |
| backend/src/utils/scheduler.ts:79 | the occurrence is saved with status 'notDone', which is not a TaskStatus value | any template that reaches the save | status NOT_DONE ('not done') | high (not executed) | Scheduler.AsWrittenOccurrenceRejected | Scheduler.CorrectedOccurrenceFields |
| backend/src/controllers/taskController.ts:78 | incompleteTasks counts documents whose status is 'notDone' | a collection with one task that is not done: incompleteTasks is 0 | count the status 'not done', so completed + incomplete = total | high (not executed) | TaskSearch.StatsAsWrittenMissIncomplete | TaskSearch.StatsCorrectedPartition |
| backend/src/controllers/taskController.ts:215 | getIncompleteTask selects status 'notDone' | a collection with one task that is not done: the list is empty | list the tasks whose status is 'not done' | high (not executed) | TaskSearch.IncompleteTasksAsWrittenEmpty | TaskSearch.IncompleteTasksCorrected |
| frontend/src/components/Card.tsx:204-208 | a dependency chip's badge shows the card's own `priority`, not `dep.priority` | a high-priority card depending on a low-priority task labels the dependency "high" | show the dependency's priority, as its border already does | medium (not executed) | Card.ChipShowsCardPriority | Card.ChipShowsOwnPriority |
