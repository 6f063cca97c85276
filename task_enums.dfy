/** The three string enums of the backend: task status, priority and recurrence pattern. */
module TaskEnums {
  import opened Basics

  datatype TaskStatus = Done | NotDone
  datatype TaskPriority = Low | Medium | High
  datatype RecurrencePattern = Daily | Weekly | Monthly

  /** The string value of each status member: DONE is 'done', NOT_DONE is 'not done'. */
  function StatusName(s: TaskStatus): string {
    match s
    case Done => "done"
    case NotDone => "not done"
  }

  function PriorityName(p: TaskPriority): string {
    match p
    case Low => "low"
    case Medium => "medium"
    case High => "high"
  }

  function PatternName(p: RecurrencePattern): string {
    match p
    case Daily => "daily"
    case Weekly => "weekly"
    case Monthly => "monthly"
  }

  /** The member whose value is `s`, if any (what an enum check accepts). */
  function ParseStatus(s: string): (r: Option<TaskStatus>)
    ensures r.None? ==> forall m :: StatusName(m) != s
    ensures r.Some? ==> StatusName(r.value) == s
  {
    if s == "done" then Some(Done)
    else if s == "not done" then Some(NotDone)
    else None
  }

  function ParsePriority(s: string): (r: Option<TaskPriority>)
    ensures r.None? ==> forall m :: PriorityName(m) != s
    ensures r.Some? ==> PriorityName(r.value) == s
  {
    if s == "low" then Some(Low)
    else if s == "medium" then Some(Medium)
    else if s == "high" then Some(High)
    else None
  }

  function ParsePattern(s: string): (r: Option<RecurrencePattern>)
    ensures r.None? ==> forall m :: PatternName(m) != s
    ensures r.Some? ==> PatternName(r.value) == s
  {
    if s == "daily" then Some(Daily)
    else if s == "weekly" then Some(Weekly)
    else if s == "monthly" then Some(Monthly)
    else None
  }

  /** The values of one enum are distinct: parsing a member's value gives that member back. */
  lemma EnumRoundTrips(s: TaskStatus, p: TaskPriority, q: RecurrencePattern)
    ensures ParseStatus(StatusName(s)) == Some(s)
    ensures ParsePriority(PriorityName(p)) == Some(p)
    ensures ParsePattern(PatternName(q)) == Some(q)
  {
  }

  /** Each enum has exactly the listed values. */
  lemma EnumValueSets()
    ensures (set s: TaskStatus | true :: StatusName(s)) == {"done", "not done"}
    ensures (set p: TaskPriority | true :: PriorityName(p)) == {"low", "medium", "high"}
    ensures (set q: RecurrencePattern | true :: PatternName(q)) == {"daily", "weekly", "monthly"}
  {
    assert StatusName(Done) == "done" && StatusName(NotDone) == "not done";
    assert PriorityName(Low) == "low" && PriorityName(Medium) == "medium" && PriorityName(High) == "high";
    assert PatternName(Daily) == "daily" && PatternName(Weekly) == "weekly" && PatternName(Monthly) == "monthly";
  }

  /** Whether a member models the code as written or as evidently intended. The two differ
      only where the code compares a status with the literal 'notDone' and where the
      scheduler selects its candidates. */
  datatype Policy = AsWritten | Corrected

  /** The string the code uses for an incomplete task: 'notDone' as written, the value of
      NOT_DONE ('not done') once corrected. */
  function NotDoneLiteral(policy: Policy): (lit: string)
    ensures policy.Corrected? ==> ParseStatus(lit) == Some(NotDone)
    ensures policy.AsWritten? ==> ParseStatus(lit) == None
  {
    if policy.AsWritten? then "notDone" else StatusName(NotDone)
  }

  /** The literal 'notDone', which the statistics, the incomplete-task query and the
      scheduler compare statuses with, is not a status value. */
  lemma NotDoneLiteralIsNoStatus(s: TaskStatus)
    ensures StatusName(s) != "notDone"
    ensures ParseStatus("notDone") == None
  {
  }
}
