/** The recurring-task scheduler: the next due date of a recurrence, and one tick of the cron
    job, which selects recurring templates, skips those not yet due, checks for an existing
    occurrence and saves a new one. One try/catch wraps the whole tick, so the first error
    ends it; what was saved before stays saved. */
module Scheduler {
  import opened Basics
  import opened TaskEnums
  import opened TaskModel
  import opened Calendar
  import opened TaskSearch
  import opened TaskController

  // ---------------------------------------------------------------------------
  // calculateNextDueDate
  // ---------------------------------------------------------------------------

  /** The step a pattern names, matched on its lower-cased form; a pattern that is none of
      the three counts as daily. */
  function StepOf(pattern: string): (p: RecurrencePattern)
    ensures Lower(pattern) in {"daily", "weekly", "monthly"} ==> PatternName(p) == Lower(pattern)
    ensures Lower(pattern) !in {"daily", "weekly", "monthly"} ==> p == Daily
  {
    var q := Lower(pattern);
    if q == "weekly" then Weekly
    else if q == "monthly" then Monthly
    else Daily
  }

  /** The due date one step later, at the same time of day: a day, seven days or a calendar
      month on, counted in days; a month on is as many days after the first of the next
      month as the due date is after the first of its own. */
  function Advance(due: Moment, p: RecurrencePattern): (r: Moment)
    ensures r.ms == due.ms
    ensures DateLt(due.date, r.date)
    ensures p == Daily ==> r.date == AddDays(due.date, 1)
    ensures p == Weekly ==> r.date == AddDays(due.date, 7)
    ensures p == Monthly ==>
              r.date == AddDays(FirstOfNextMonth(due.date.year, due.date.month), due.date.day - 1)
  {
    match p
    case Weekly =>
      AddDaysIsLater(due.date, 7);
      Instant(AddDays(due.date, 7), due.ms)
    case Monthly =>
      AddOneMonthCountsDays(due.date);
      Instant(AddOneMonth(due.date), due.ms)
    case Daily => Instant(NextDay(due.date), due.ms)
  }

  /** calculateNextDueDate: the due date one recurrence later, by the lower-cased pattern. */
  function NextDueDate(due: Moment, pattern: string): (r: Moment)
    ensures r.ms == due.ms
    ensures DateLt(due.date, r.date)
    ensures r == Advance(due, StepOf(pattern))
  {
    Advance(due, StepOf(pattern))
  }

  /** A stored pattern names its own step, whether or not the tick lower-cases it first. */
  lemma StoredPatternStep(p: RecurrencePattern)
    ensures StepOf(PatternName(p)) == p
    ensures StepOf(Lower(PatternName(p))) == p
  {
    assert Lower("daily") == "daily" && Lower("weekly") == "weekly" && Lower("monthly") == "monthly";
    LowerIdempotent(PatternName(p));
  }

  /** The pattern is matched without regard to letter case. */
  lemma NextDueDateIgnoresCase(due: Moment, pattern: string)
    ensures NextDueDate(due, pattern) == NextDueDate(due, Lower(pattern))
  {
    LowerIdempotent(pattern);
  }

  /** An unrecognised pattern, and the empty one, recur daily. */
  lemma UnknownPatternIsDaily(due: Moment, pattern: string)
    requires Lower(pattern) !in {"daily", "weekly", "monthly"}
    ensures NextDueDate(due, pattern) == NextDueDate(due, "daily")
    ensures NextDueDate(due, pattern).date == NextDay(due.date)
  {
  }

  /** The three patterns: the next day, seven next-day steps, and one month on: the same day
      of the next month when that month has it, otherwise the overflow rolled forward into
      the month after. */
  lemma PatternSteps(due: Moment)
    ensures NextDueDate(due, "daily").date == NextDay(due.date)
    ensures NextDueDate(due, "weekly").date == NextDay(NextDay(NextDay(NextDay(NextDay(NextDay(NextDay(due.date)))))))
    ensures NextDueDate(due, "monthly").date == AddOneMonth(due.date)
    ensures var m := FirstOfNextMonth(due.date.year, due.date.month);
            due.date.day <= DaysInMonth(m.year, m.month) ==>
              NextDueDate(due, "monthly").date == Date(m.year, m.month, due.date.day)
    ensures var m := FirstOfNextMonth(due.date.year, due.date.month);
            var after := FirstOfNextMonth(m.year, m.month);
            due.date.day > DaysInMonth(m.year, m.month) ==>
              NextDueDate(due, "monthly").date == Date(after.year, after.month, due.date.day - DaysInMonth(m.year, m.month))
  {
    assert Lower("weekly") == "weekly";
    assert Lower("monthly") == "monthly";
    assert Lower("daily") == "daily";
  }

  /** A monthly task due on 31 January falls due on 3 March, or on 2 March in a leap year;
      a weekly task due on 28 December falls due on 4 January. */
  lemma CalendarExamples()
    ensures NextDueDate(Instant(Date(2025, 1, 31), 0), "monthly").date == Date(2025, 3, 3)
    ensures NextDueDate(Instant(Date(2024, 1, 31), 0), "monthly").date == Date(2024, 3, 2)
    ensures NextDueDate(Instant(Date(2024, 12, 28), 0), "Weekly").date == Date(2025, 1, 4)
  {
    assert Lower("monthly") == "monthly";
    assert Lower("Weekly") == "weekly";
  }

  // ---------------------------------------------------------------------------
  // One template
  // ---------------------------------------------------------------------------

  /** The candidate query. As written it asks for recurring tasks due at or after the start
      of tomorrow; corrected, for those due before it (today or in the past). A document
      without a due date matches neither. */
  predicate IsCandidate(t: Task, now: Moment, policy: Policy) {
    && t.isRecurring
    && t.dueDate.Some?
    && if policy.AsWritten? then InstantLe(StartOfNextDay(now.date), t.dueDate.value)
       else InstantLt(t.dueDate.value, StartOfNextDay(now.date))
  }

  function Candidates(docs: seq<Task>, now: Moment, policy: Policy): seq<Task> {
    Select(docs, (t: Task) => IsCandidate(t, now, policy))
  }

  /** The first duplicate check: a task with the same title due in the 24 hours from the
      start of the next due day. */
  predicate DueInWindow(d: Task, title: string, next: Moment) {
    && d.title == title
    && d.dueDate.Some?
    && InstantLe(StartOfDay(next), d.dueDate.value)
    && InstantLt(d.dueDate.value, StartOfNextDay(next.date))
  }

  /** The second duplicate check: a task with the same title due exactly then. */
  predicate DueExactly(d: Task, title: string, next: Moment) {
    d.title == title && d.dueDate == Some(next)
  }

  /** The 24-hour window holds exactly the due dates on the next due day. */
  lemma WindowIsSameDay(d: Task, title: string, next: Moment)
    ensures DueInWindow(d, title, next) <==> d.title == title && d.dueDate.Some? && d.dueDate.value.date == next.date
  {
    if d.dueDate.Some? {
      DayWindow(d.dueDate.value, next.date);
    }
  }

  /** The fields of a new occurrence: the template's title, priority, pattern and
      dependencies, the incomplete status literal, recurring and cron-created, due on the
      next due date. isDependency is not copied. */
  function OccurrenceInput(t: Task, next: Moment, policy: Policy): TaskInput {
    TaskInput(
      title := Some(t.title),
      status := Some(NotDoneLiteral(policy)),
      priority := Some(PriorityName(t.priority)),
      dependencies := Some(t.dependencies),
      isRecurring := Some(true),
      isDependency := None,
      recurrencePattern := if t.recurrencePattern.Some? then Some(PatternName(t.recurrencePattern.value)) else None,
      cronCreated := Some(true),
      dueDate := Some(next))
  }

  datatype TickError =
    | MissingPattern                  // `undefined.toLowerCase()` throws
    | SaveRejected(paths: set<Path>) // the document fails validation on save

  datatype TemplateOutcome =
    | NotYetDue
    | AlreadyScheduled
    | ExactDuplicate
    | Occurrence(task: Task)
    | Failed(error: TickError)

  /** What the loop body does with one candidate, given the collection as it stands: the
      skip test, the pattern, then the duplicate checks and the save for the next due date. */
  function ProcessTemplate(docs: seq<Task>, t: Task, now: Moment, policy: Policy, id: ObjectId, stamp: Timestamp): TemplateOutcome
    requires t.dueDate.Some?
  {
    var due := t.dueDate.value;
    if InstantLt(StartOfDay(now), StartOfDay(due)) then NotYetDue
    else if t.recurrencePattern.None? then Failed(MissingPattern)
    else ScheduleNext(docs, t, Advance(due, t.recurrencePattern.value), policy, id, stamp)
  }

  /** The duplicate checks and the save of the occurrence due at `next`. */
  function ScheduleNext(docs: seq<Task>, t: Task, next: Moment, policy: Policy, id: ObjectId, stamp: Timestamp): TemplateOutcome {
    if exists d :: d in docs && DueInWindow(d, t.title, next) then AlreadyScheduled
    else if exists d :: d in docs && DueExactly(d, t.title, next) then ExactDuplicate
    else
      match Build(OccurrenceInput(t, next, policy), id, stamp)
      case Err(paths) => Failed(SaveRejected(paths))
      case Ok(o) => Occurrence(o)
  }

  // ---------------------------------------------------------------------------
  // The tick
  // ---------------------------------------------------------------------------

  datatype TickResult = TickResult(docs: seq<Task>, nextId: ObjectId, error: Option<TickError>)

  /** The loop body as a value: what it does with one candidate, given the collection as it
      stands and the id the next saved document takes. */
  type Step = (seq<Task>, Task, ObjectId) -> TemplateOutcome

  /** The loop body of a tick at `now`. A candidate always has a due date; one without would
      be passed over. */
  function StepFor(now: Moment, policy: Policy, stamp: Timestamp): Step {
    (docs: seq<Task>, t: Task, id: ObjectId) =>
      if t.dueDate.Some? then ProcessTemplate(docs, t, now, policy, id, stamp) else NotYetDue
  }

  /** Running a loop body over the candidates in order: an occurrence is appended and takes
      the next id; the first failure ends the run. */
  function RunWith(docs: seq<Task>, nextId: ObjectId, cands: seq<Task>, step: Step): TickResult
    decreases |cands|
  {
    if |cands| == 0 then TickResult(docs, nextId, None)
    else
      match step(docs, cands[0], nextId)
      case Failed(e) => TickResult(docs, nextId, Some(e))
      case Occurrence(o) => RunWith(docs + [o], nextId + 1, cands[1..], step)
      case _ => RunWith(docs, nextId, cands[1..], step)
  }

  /** The tick's loop from a given collection and id over the remaining candidates. */
  function RunFrom(docs: seq<Task>, nextId: ObjectId, cands: seq<Task>, now: Moment, policy: Policy, stamp: Timestamp): TickResult {
    RunWith(docs, nextId, cands, StepFor(now, policy, stamp))
  }

  /** Whatever the loop body does, a run only appends to the collection and hands out one id
      per appended document. */
  lemma {:induction false} RunOnlyAppends(docs: seq<Task>, nextId: ObjectId, cands: seq<Task>, step: Step)
    ensures var r := RunWith(docs, nextId, cands, step);
            |docs| <= |r.docs| && r.docs[..|docs|] == docs && r.nextId == nextId + (|r.docs| - |docs|)
    decreases |cands|
  {
    if |cands| > 0 {
      match step(docs, cands[0], nextId)
      case Failed(e) =>
      case Occurrence(o) =>
        RunOnlyAppends(docs + [o], nextId + 1, cands[1..], step);
        var r := RunWith(docs + [o], nextId + 1, cands[1..], step);
        assert r.docs[..|docs|] == r.docs[..|docs| + 1][..|docs|];
      case _ =>
        RunOnlyAppends(docs, nextId, cands[1..], step);
    }
  }

  /** Whatever the loop body does, a failure ends the run: the candidates after the one that
      failed are never processed. */
  lemma {:induction false} FailureEndsRun(docs: seq<Task>, nextId: ObjectId, a: seq<Task>, b: seq<Task>, step: Step)
    requires RunWith(docs, nextId, a, step).error.Some?
    ensures RunWith(docs, nextId, a + b, step) == RunWith(docs, nextId, a, step)
    decreases |a|
  {
    assert (a + b)[0] == a[0];
    assert (a + b)[1..] == a[1..] + b;
    match step(docs, a[0], nextId)
    case Failed(e) =>
    case Occurrence(o) =>
      FailureEndsRun(docs + [o], nextId + 1, a[1..], b, step);
    case _ =>
      FailureEndsRun(docs, nextId, a[1..], b, step);
  }

  /** A run after the first candidate's outcome: a failure ends it, an occurrence is
      appended before the rest, anything else leaves the rest to run on the same collection. */
  lemma RunWithAfter(docs: seq<Task>, nextId: ObjectId, cands: seq<Task>, step: Step, outcome: TemplateOutcome)
    requires |cands| > 0 && outcome == step(docs, cands[0], nextId)
    ensures outcome.Failed? ==> RunWith(docs, nextId, cands, step) == TickResult(docs, nextId, Some(outcome.error))
    ensures outcome.Occurrence? ==>
      RunWith(docs, nextId, cands, step) == RunWith(docs + [outcome.task], nextId + 1, cands[1..], step)
    ensures !outcome.Failed? && !outcome.Occurrence? ==>
      RunWith(docs, nextId, cands, step) == RunWith(docs, nextId, cands[1..], step)
  {
  }

  /** A loop body whose every occurrence is cron-created and has no task of its title due on
      its day in the collection it was checked against. */
  ghost predicate OnlyFreshOccurrences(step: Step) {
    forall d, t, id :: step(d, t, id).Occurrence? ==>
      step(d, t, id).task.cronCreated && NoSameDay(d, step(d, t, id).task)
  }

  /** With such a loop body, everything a run appends is cron-created and has no task of its
      title due on its day before it. */
  lemma {:induction false} RunAppendsFresh(docs: seq<Task>, nextId: ObjectId, cands: seq<Task>, step: Step)
    requires OnlyFreshOccurrences(step)
    ensures var r := RunWith(docs, nextId, cands, step);
            forall k :: |docs| <= k < |r.docs| ==> r.docs[k].cronCreated && NoSameDay(r.docs[..k], r.docs[k])
    decreases |cands|
  {
    if |cands| > 0 {
      match step(docs, cands[0], nextId)
      case Failed(e) =>
      case Occurrence(o) =>
        RunAppendsFresh(docs + [o], nextId + 1, cands[1..], step);
        RunOnlyAppends(docs + [o], nextId + 1, cands[1..], step);
        var r := RunWith(docs + [o], nextId + 1, cands[1..], step);
        forall k | |docs| <= k < |r.docs|
          ensures r.docs[k].cronCreated && NoSameDay(r.docs[..k], r.docs[k])
        {
          if k == |docs| {
            assert r.docs[..k] == r.docs[..|docs| + 1][..|docs|] == docs;
            assert r.docs[k] == (docs + [o])[|docs|] == o;
          }
        }
      case _ =>
        RunWithAfter(docs, nextId, cands, step, step(docs, cands[0], nextId));
        RunAppendsFresh(docs, nextId, cands[1..], step);
    }
  }

  /** Every candidate has a due date. */
  lemma CandidatesHaveDueDates(docs: seq<Task>, now: Moment, policy: Policy)
    ensures forall k :: 0 <= k < |Candidates(docs, now, policy)| ==> Candidates(docs, now, policy)[k].dueDate.Some?
  {
    var c := Candidates(docs, now, policy);
    forall k | 0 <= k < |c|
      ensures c[k].dueDate.Some?
    {
      assert c[k] in c;
    }
  }

  /** The body of the loop for one candidate: the skip test, the pattern, the two duplicate
      checks and the save, each on the collection as it stands. */
  method ProcessCandidate(store: TaskStore, task: Task, now: Moment, policy: Policy, stamp: Timestamp) returns (outcome: TemplateOutcome)
    requires store.Valid() && task.dueDate.Some?
    modifies store
    ensures store.Valid()
    ensures outcome == ProcessTemplate(old(store.docs), task, now, policy, old(store.nextId), stamp)
    ensures outcome.Occurrence? ==> store.docs == old(store.docs) + [outcome.task] && store.nextId == old(store.nextId) + 1
    ensures !outcome.Occurrence? ==> store.docs == old(store.docs) && store.nextId == old(store.nextId)
  {
    var taskDueDate := task.dueDate.value;
    if InstantLt(StartOfDay(now), StartOfDay(taskDueDate)) {
      return NotYetDue;
    }
    if task.recurrencePattern.None? {
      return Failed(MissingPattern);
    }
    var taskPattern := Lower(PatternName(task.recurrencePattern.value));
    var nextDueDate := NextDueDate(taskDueDate, taskPattern);
    StoredPatternStep(task.recurrencePattern.value);
    var existingForNextDay := exists d :: d in store.docs && DueInWindow(d, task.title, nextDueDate);
    if existingForNextDay {
      return AlreadyScheduled;
    }
    var exactMatch := exists d :: d in store.docs && DueExactly(d, task.title, nextDueDate);
    if exactMatch {
      return ExactDuplicate;
    }
    var saved := Build(OccurrenceInput(task, nextDueDate, policy), store.nextId, stamp);
    if saved.Err? {
      return Failed(SaveRejected(saved.error));
    }
    AppendKeepsValid(store.docs, store.nextId, saved.value);
    store.docs := store.docs + [saved.value];
    store.nextId := store.nextId + 1;
    outcome := Occurrence(saved.value);
  }

  /** One tick of the cron job over the store: the candidates are read once, then processed
      in order until one fails. */
  method RunTick(store: TaskStore, now: Moment, policy: Policy, stamp: Timestamp) returns (error: Option<TickError>)
    requires store.Valid()
    modifies store
    ensures store.Valid()
    ensures RunFrom(old(store.docs), old(store.nextId), Candidates(old(store.docs), now, policy), now, policy, stamp)
            == TickResult(store.docs, store.nextId, error)
  {
    CandidatesHaveDueDates(store.docs, now, policy);
    var recurringTasks := Candidates(store.docs, now, policy);
    ghost var step := StepFor(now, policy, stamp);
    var i := 0;
    while i < |recurringTasks|
      invariant 0 <= i <= |recurringTasks|
      invariant store.Valid()
      invariant RunWith(store.docs, store.nextId, recurringTasks[i..], step)
                == RunWith(old(store.docs), old(store.nextId), recurringTasks, step)
    {
      assert recurringTasks[i..][0] == recurringTasks[i] && recurringTasks[i..][1..] == recurringTasks[i + 1..];
      ghost var docs := store.docs;
      ghost var nextId := store.nextId;
      var outcome := ProcessCandidate(store, recurringTasks[i], now, policy, stamp);
      RunWithAfter(docs, nextId, recurringTasks[i..], step, outcome);
      if outcome.Failed? {
        return Some(outcome.error);
      }
      i := i + 1;
    }
    error := None;
  }

  /** Appending a well-formed document that takes the next id keeps the store's invariant. */
  lemma AppendKeepsValid(docs: seq<Task>, nextId: ObjectId, o: Task)
    requires DistinctIds(docs) && forall k :: 0 <= k < |docs| ==> docs[k].id < nextId && WellFormed(docs[k])
    requires o.id == nextId && WellFormed(o)
    ensures DistinctIds(docs + [o]) && forall k :: 0 <= k < |docs + [o]| ==> (docs + [o])[k].id < nextId + 1 && WellFormed((docs + [o])[k])
  {
  }

  // ---------------------------------------------------------------------------
  // What the tick does
  // ---------------------------------------------------------------------------

  /** As written, every candidate is due on a day after today, so the skip test passes over
      all of them: the tick processes nothing. */
  lemma {:induction false} AsWrittenSkipsAll(docs: seq<Task>, nextId: ObjectId, cands: seq<Task>, now: Moment, stamp: Timestamp)
    requires forall k :: 0 <= k < |cands| ==> cands[k].dueDate.Some? && IsCandidate(cands[k], now, AsWritten)
    ensures RunFrom(docs, nextId, cands, now, AsWritten, stamp) == TickResult(docs, nextId, None)
    decreases |cands|
  {
    if |cands| > 0 {
      var due := cands[0].dueDate.value;
      FromTomorrowIsAfterToday(now.date, due);
      assert ProcessTemplate(docs, cands[0], now, AsWritten, nextId, stamp) == NotYetDue;
      AsWrittenSkipsAll(docs, nextId, cands[1..], now, stamp);
    }
  }

  /** As written, a tick never changes the collection and never fails. */
  lemma AsWrittenTickChangesNothing(docs: seq<Task>, nextId: ObjectId, now: Moment, stamp: Timestamp)
    ensures forall k :: 0 <= k < |Candidates(docs, now, AsWritten)| ==> Candidates(docs, now, AsWritten)[k].dueDate.Some?
    ensures RunFrom(docs, nextId, Candidates(docs, now, AsWritten), now, AsWritten, stamp) == TickResult(docs, nextId, None)
  {
    CandidatesHaveDueDates(docs, now, AsWritten);
    var c := Candidates(docs, now, AsWritten);
    forall k | 0 <= k < |c|
      ensures c[k].dueDate.Some? && IsCandidate(c[k], now, AsWritten)
    {
      assert c[k] in c;
    }
    AsWrittenSkipsAll(docs, nextId, c, now, stamp);
  }

  /** Corrected, a template due today or earlier with a pattern and no task of its title on
      its next due day gets a new occurrence. */
  lemma CorrectedCreatesDueOccurrence(docs: seq<Task>, t: Task, now: Moment, id: ObjectId, stamp: Timestamp)
    requires IsCandidate(t, now, Corrected) && WellFormed(t) && t.recurrencePattern.Some?
    requires var next := Advance(t.dueDate.value, t.recurrencePattern.value);
             forall d :: d in docs ==> !(d.title == t.title && d.dueDate.Some? && d.dueDate.value.date == next.date)
    ensures ProcessTemplate(docs, t, now, Corrected, id, stamp).Occurrence?
  {
    var next := Advance(t.dueDate.value, t.recurrencePattern.value);
    BeforeTomorrowIsNotAfterToday(now.date, t.dueDate.value);
    forall d | d in docs
      ensures !DueInWindow(d, t.title, next) && !DueExactly(d, t.title, next)
    {
      WindowIsSameDay(d, t.title, next);
    }
    CorrectedOccurrenceFields(t, next, id, stamp);
  }

  /** As written, the occurrence's status 'notDone' is not a status value, so saving it
      fails validation on the status path. */
  lemma AsWrittenOccurrenceRejected(t: Task, next: Moment, id: ObjectId, stamp: Timestamp)
    requires WellFormed(t)
    ensures Build(OccurrenceInput(t, next, AsWritten), id, stamp) == Err({StatusPath})
  {
    var errs := FieldErrors(OccurrenceInput(t, next, AsWritten), true);
    assert StatusPath in errs;
    if t.recurrencePattern.Some? {
      EnumRoundTrips(NotDone, t.priority, t.recurrencePattern.value);
    } else {
      EnumRoundTrips(NotDone, t.priority, Daily);
    }
  }

  /** Corrected, the occurrence saves and copies what the template promises. */
  lemma CorrectedOccurrenceFields(t: Task, next: Moment, id: ObjectId, stamp: Timestamp)
    requires WellFormed(t)
    ensures var r := Build(OccurrenceInput(t, next, Corrected), id, stamp);
            && r.Ok?
            && r.value.id == id
            && r.value.title == t.title
            && r.value.priority == t.priority
            && r.value.dependencies == t.dependencies
            && r.value.recurrencePattern == t.recurrencePattern
            && r.value.status == NotDone
            && r.value.isRecurring && r.value.cronCreated && !r.value.isDependency
            && r.value.dueDate == Some(next)
  {
    if t.recurrencePattern.Some? {
      EnumRoundTrips(NotDone, t.priority, t.recurrencePattern.value);
    } else {
      EnumRoundTrips(NotDone, t.priority, Daily);
    }
  }

  /** The exact-match check never decides anything: a task due exactly at the next due date
      is inside the 24-hour window. */
  lemma ExactMatchIsSubsumed(docs: seq<Task>, t: Task, next: Moment, policy: Policy, id: ObjectId, stamp: Timestamp)
    ensures ScheduleNext(docs, t, next, policy, id, stamp) != ExactDuplicate
  {
    if exists d :: d in docs && DueExactly(d, t.title, next) {
      var d :| d in docs && DueExactly(d, t.title, next);
      WindowIsSameDay(d, t.title, next);
      assert DueInWindow(d, t.title, next);
    }
  }

  /** Once an occurrence is saved, scheduling the same template again finds it and creates
      nothing. */
  lemma RerunFindsOccurrence(docs: seq<Task>, t: Task, next: Moment, policy: Policy, id: ObjectId, id2: ObjectId, stamp: Timestamp, stamp2: Timestamp)
    requires ScheduleNext(docs, t, next, policy, id, stamp).Occurrence?
    ensures ScheduleNext(docs + [ScheduleNext(docs, t, next, policy, id, stamp).task], t, next, policy, id2, stamp2) == AlreadyScheduled
  {
    var o := ScheduleNext(docs, t, next, policy, id, stamp).task;
    assert o.title == t.title && o.dueDate == Some(next);
    WindowIsSameDay(o, t.title, next);
    assert o in docs + [o] && DueInWindow(o, t.title, next);
  }

  /** No task with the title of `o` is due on the day `o` is due. */
  predicate NoSameDay(docs: seq<Task>, o: Task) {
    forall d :: d in docs ==> !(d.title == o.title && d.dueDate.Some? && o.dueDate.Some? && d.dueDate.value.date == o.dueDate.value.date)
  }

  /** A tick only appends to the collection, and hands out one id per appended document. */
  lemma TickOnlyAppends(docs: seq<Task>, nextId: ObjectId, cands: seq<Task>, now: Moment, policy: Policy, stamp: Timestamp)
    ensures var r := RunFrom(docs, nextId, cands, now, policy, stamp);
            |docs| <= |r.docs| && r.docs[..|docs|] == docs && r.nextId == nextId + (|r.docs| - |docs|)
  {
    RunOnlyAppends(docs, nextId, cands, StepFor(now, policy, stamp));
  }

  /** An occurrence is cron-created and no task of its title is due on its day. */
  lemma OccurrenceIsNew(docs: seq<Task>, t: Task, next: Moment, policy: Policy, id: ObjectId, stamp: Timestamp)
    requires ScheduleNext(docs, t, next, policy, id, stamp).Occurrence?
    ensures ScheduleNext(docs, t, next, policy, id, stamp).task.cronCreated
    ensures NoSameDay(docs, ScheduleNext(docs, t, next, policy, id, stamp).task)
  {
    var o := ScheduleNext(docs, t, next, policy, id, stamp).task;
    assert o.title == t.title && o.dueDate == Some(next);
    forall d | d in docs
      ensures !(d.title == o.title && d.dueDate.Some? && d.dueDate.value.date == o.dueDate.value.date)
    {
      WindowIsSameDay(d, t.title, next);
    }
  }

  /** The tick's loop body saves only fresh occurrences. */
  lemma StepForIsFresh(now: Moment, policy: Policy, stamp: Timestamp)
    ensures OnlyFreshOccurrences(StepFor(now, policy, stamp))
  {
    var step := StepFor(now, policy, stamp);
    forall d, t, id | step(d, t, id).Occurrence?
      ensures step(d, t, id).task.cronCreated && NoSameDay(d, step(d, t, id).task)
    {
      OccurrenceIsNew(d, t, Advance(t.dueDate.value, t.recurrencePattern.value), policy, id, stamp);
    }
  }

  /** Everything a tick appends is a cron-created occurrence with no task of its title already
      due on its day: at most one per title and day. */
  lemma TickOccurrencesUnique(docs: seq<Task>, nextId: ObjectId, cands: seq<Task>, now: Moment, policy: Policy, stamp: Timestamp)
    ensures var r := RunFrom(docs, nextId, cands, now, policy, stamp);
            forall k :: |docs| <= k < |r.docs| ==> r.docs[k].cronCreated && NoSameDay(r.docs[..k], r.docs[k])
  {
    StepForIsFresh(now, policy, stamp);
    RunAppendsFresh(docs, nextId, cands, StepFor(now, policy, stamp));
    assert RunFrom(docs, nextId, cands, now, policy, stamp) == RunWith(docs, nextId, cands, StepFor(now, policy, stamp));
  }

  /** A failure ends the tick: the templates after the one that failed are never processed. */
  lemma FailureEndsTick(docs: seq<Task>, nextId: ObjectId, a: seq<Task>, b: seq<Task>, now: Moment, policy: Policy, stamp: Timestamp)
    requires RunFrom(docs, nextId, a, now, policy, stamp).error.Some?
    ensures RunFrom(docs, nextId, a + b, now, policy, stamp) == RunFrom(docs, nextId, a, now, policy, stamp)
  {
    FailureEndsRun(docs, nextId, a, b, StepFor(now, policy, stamp));
  }

  /** Corrected, a tick over well-formed templates can fail only on a template without a
      recurrence pattern. */
  lemma {:induction false} CorrectedFailsOnlyWithoutPattern(docs: seq<Task>, nextId: ObjectId, cands: seq<Task>, now: Moment, stamp: Timestamp)
    requires forall k :: 0 <= k < |cands| ==> cands[k].dueDate.Some? && WellFormed(cands[k])
    ensures var r := RunFrom(docs, nextId, cands, now, Corrected, stamp);
            r.error.Some? ==> r.error == Some(MissingPattern) && exists k :: 0 <= k < |cands| && cands[k].recurrencePattern.None?
    decreases |cands|
  {
    if |cands| > 0 {
      var t := cands[0];
      match ProcessTemplate(docs, t, now, Corrected, nextId, stamp)
      case Failed(e) =>
        if t.recurrencePattern.Some? {
          CorrectedOccurrenceFields(t, Advance(t.dueDate.value, t.recurrencePattern.value), nextId, stamp);
        }
      case Occurrence(o) =>
        CorrectedFailsOnlyWithoutPattern(docs + [o], nextId + 1, cands[1..], now, stamp);
        var r := RunFrom(docs + [o], nextId + 1, cands[1..], now, Corrected, stamp);
        if r.error.Some? {
          var k :| 0 <= k < |cands[1..]| && cands[1..][k].recurrencePattern.None?;
          assert cands[k + 1].recurrencePattern.None?;
        }
      case _ =>
        CorrectedFailsOnlyWithoutPattern(docs, nextId, cands[1..], now, stamp);
        var r := RunFrom(docs, nextId, cands[1..], now, Corrected, stamp);
        if r.error.Some? {
          var k :| 0 <= k < |cands[1..]| && cands[1..][k].recurrencePattern.None?;
          assert cands[k + 1].recurrencePattern.None?;
        }
    }
  }
}
