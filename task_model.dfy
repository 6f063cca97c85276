/** The Task document: its fields, the enum restrictions and defaults the schema applies
    when a document is built or updated, and ObjectId parsing. */
module TaskModel {
  import opened Basics
  import opened TaskEnums
  import opened Calendar

  /** An ObjectId is a 12-byte value; the model keeps it as a number. */
  type ObjectId = nat

  /** Milliseconds since the epoch, as the store writes them into createdAt and updatedAt. */
  type Timestamp = int

  predicate IsHexDigit(c: char) {
    ('0' <= c <= '9') || ('a' <= c <= 'f') || ('A' <= c <= 'F')
  }

  const HexDigits := "0123456789abcdef"

  /** The value of a hex digit: its position among the lower-case digits. */
  function HexDigitValue(c: char): (v: nat)
    requires IsHexDigit(c)
    ensures v < 16
    ensures HexDigits[v] == LowerChar(c)
  {
    if '0' <= c <= '9' then c as int - '0' as int
    else if 'a' <= c <= 'f' then c as int - 'a' as int + 10
    else c as int - 'A' as int + 10
  }

  predicate AllHex(s: string) {
    forall i :: 0 <= i < |s| ==> IsHexDigit(s[i])
  }

  /** The pattern /^[0-9a-fA-F]{24}$/, which is also what the model takes
      `ObjectId.isValid` to accept. */
  predicate IsObjectIdString(s: string) {
    |s| == 24 && AllHex(s)
  }

  /** The value of a hexadecimal numeral, most significant digit first. */
  function HexValue(s: string): (v: nat)
    requires AllHex(s)
    decreases |s|
  {
    if |s| == 0 then 0 else HexValue(s[..|s| - 1]) * 16 + HexDigitValue(s[|s| - 1])
  }

  /** Casting an id string to an ObjectId ignores the letter case of its hex digits. */
  lemma {:induction false} HexValueIgnoresCase(s: string)
    requires AllHex(s)
    ensures AllHex(Lower(s))
    ensures HexValue(Lower(s)) == HexValue(s)
    decreases |s|
  {
    if |s| > 0 {
      var init := s[..|s| - 1];
      HexValueIgnoresCase(init);
      assert Lower(s)[..|s| - 1] == Lower(init);
      assert HexDigitValue(Lower(s)[|s| - 1]) == HexDigitValue(s[|s| - 1]);
    }
  }

  /** A stored task document. `dueDate` is not declared by the schema; it is kept because
      the scheduler reads and writes it. */
  datatype Task = Task(
    id: ObjectId,
    title: string,
    status: TaskStatus,
    priority: TaskPriority,
    dependencies: seq<ObjectId>,
    isRecurring: bool,
    isDependency: bool,
    recurrencePattern: Option<RecurrencePattern>,
    cronCreated: bool,
    dueDate: Option<Moment>,
    createdAt: Timestamp,
    updatedAt: Timestamp)

  /** What the schema guarantees of every stored task: a non-empty title. */
  predicate WellFormed(t: Task) {
    |t.title| >= 1
  }

  /** The raw fields handed to the model (`Task.create`, `new Task(...)`, or an update),
      before validation and defaults; `None` is an absent field. */
  datatype TaskInput = TaskInput(
    title: Option<string>,
    status: Option<string>,
    priority: Option<string>,
    dependencies: Option<seq<ObjectId>>,
    isRecurring: Option<bool>,
    isDependency: Option<bool>,
    recurrencePattern: Option<string>,
    cronCreated: Option<bool>,
    dueDate: Option<Moment>)

  const NoFields := TaskInput(None, None, None, None, None, None, None, None, None)

  predicate EnumViolated<T>(value: Option<string>, parse: string -> Option<T>) {
    value.Some? && parse(value.value).None?
  }

  /** The document paths a validation error names: `title`, `status`, `priority` and
      `recurrencePattern`. */
  datatype Path = TitlePath | StatusPath | PriorityPath | PatternPath

  /** The paths that fail the schema's validators. `title` is required, so on a new document
      an absent or empty title fails; on an update only a title that is present is checked.
      status, priority and recurrencePattern must be values of their enums. */
  function FieldErrors(input: TaskInput, isNew: bool): (errs: set<Path>)
    ensures TitlePath in errs <==> (isNew && input.title.None?) || (input.title.Some? && |input.title.value| == 0)
    ensures StatusPath in errs <==> input.status.Some? && input.status.value !in {"done", "not done"}
    ensures PriorityPath in errs <==> input.priority.Some? && input.priority.value !in {"low", "medium", "high"}
    ensures PatternPath in errs <==>
              input.recurrencePattern.Some? && input.recurrencePattern.value !in {"daily", "weekly", "monthly"}
  {
    (if (isNew && input.title.None?) || (input.title.Some? && |input.title.value| == 0)
     then {TitlePath} else {})
    + (if EnumViolated(input.status, ParseStatus) then {StatusPath} else {})
    + (if EnumViolated(input.priority, ParsePriority) then {PriorityPath} else {})
    + (if EnumViolated(input.recurrencePattern, ParsePattern) then {PatternPath} else {})
  }

  /** Builds and validates a new document: the schema's defaults fill absent fields (status
      NOT_DONE, priority LOW, the three flags false, no dependencies, no pattern), and the
      store stamps createdAt and updatedAt. A validation failure reports every failing path. */
  function Build(input: TaskInput, id: ObjectId, stamp: Timestamp): (r: Result<Task, set<Path>>)
    ensures r.Err? <==> FieldErrors(input, true) != {}
    ensures r.Err? ==> r.error == FieldErrors(input, true)
    ensures r.Ok? ==> WellFormed(r.value) && r.value.id == id
    ensures r.Ok? ==> Some(r.value.title) == input.title
    ensures r.Ok? ==> input.status.Some? ==> StatusName(r.value.status) == input.status.value
    ensures r.Ok? ==> input.priority.Some? ==> PriorityName(r.value.priority) == input.priority.value
    ensures r.Ok? ==> input.status.None? ==> r.value.status == NotDone
    ensures r.Ok? ==> input.priority.None? ==> r.value.priority == Low
    ensures r.Ok? ==> input.dependencies.Some? ==> r.value.dependencies == input.dependencies.value
    ensures r.Ok? ==> input.dependencies.None? ==> r.value.dependencies == []
    ensures r.Ok? ==> (r.value.isRecurring <==> input.isRecurring == Some(true))
    ensures r.Ok? ==> (r.value.isDependency <==> input.isDependency == Some(true))
    ensures r.Ok? ==> (r.value.cronCreated <==> input.cronCreated == Some(true))
    ensures r.Ok? ==> input.recurrencePattern.Some? ==>
              r.value.recurrencePattern.Some? && PatternName(r.value.recurrencePattern.value) == input.recurrencePattern.value
    ensures r.Ok? ==> input.recurrencePattern.None? ==> r.value.recurrencePattern.None?
    ensures r.Ok? ==> r.value.dueDate == input.dueDate
    ensures r.Ok? ==> r.value.createdAt == stamp && r.value.updatedAt == stamp
  {
    var errs := FieldErrors(input, true);
    if errs != {} then Err(errs)
    else
      Ok(Task(
        id := id,
        title := input.title.value,
        status := if input.status.Some? then ParseStatus(input.status.value).value else NotDone,
        priority := if input.priority.Some? then ParsePriority(input.priority.value).value else Low,
        dependencies := input.dependencies.GetOr([]),
        isRecurring := input.isRecurring.GetOr(false),
        isDependency := input.isDependency.GetOr(false),
        recurrencePattern :=
          if input.recurrencePattern.Some? then ParsePattern(input.recurrencePattern.value) else None,
        cronCreated := input.cronCreated.GetOr(false),
        dueDate := input.dueDate,
        createdAt := stamp,
        updatedAt := stamp))
  }

  /** A document given only a title gets every default. */
  lemma DefaultsApplied(title: string, id: ObjectId, stamp: Timestamp)
    requires |title| >= 1
    ensures Build(NoFields.(title := Some(title)), id, stamp)
      == Ok(Task(id, title, NotDone, Low, [], false, false, None, false, None, stamp, stamp))
  {
  }

  /** A missing or empty title is refused; so is any status, priority or pattern outside its enum. */
  lemma BuildRefusals(input: TaskInput, id: ObjectId, stamp: Timestamp)
    ensures input.title.None? || input.title == Some("") ==> Build(input, id, stamp).Err?
    ensures input.status.Some? && input.status.value !in {"done", "not done"} ==> Build(input, id, stamp).Err?
    ensures input.priority.Some? && input.priority.value !in {"low", "medium", "high"} ==> Build(input, id, stamp).Err?
    ensures input.recurrencePattern.Some? && input.recurrencePattern.value !in {"daily", "weekly", "monthly"}
      ==> Build(input, id, stamp).Err?
  {
  }

  /** Nothing ties recurrencePattern to isRecurring: a non-recurring task with a pattern and a
      recurring task without one are both accepted. */
  lemma PatternIndependentOfRecurring(id: ObjectId, stamp: Timestamp)
    ensures Build(NoFields.(title := Some("t"), isRecurring := Some(false), recurrencePattern := Some("daily")), id, stamp).Ok?
    ensures Build(NoFields.(title := Some("t"), isRecurring := Some(true)), id, stamp).Ok?
  {
  }

  /** An update as `findByIdAndUpdate` with validators applies it: present fields overwrite,
      absent ones are kept, and the store stamps updatedAt. */
  function ApplyPatch(t: Task, patch: TaskInput, stamp: Timestamp): (r: Task)
    requires FieldErrors(patch, false) == {}
    ensures r.id == t.id && r.createdAt == t.createdAt && r.updatedAt == stamp
    ensures WellFormed(t) ==> WellFormed(r)
    ensures patch.status.Some? ==> StatusName(r.status) == patch.status.value
    ensures patch.status.None? ==> r.status == t.status
    ensures patch == NoFields ==> r == t.(updatedAt := stamp)
  {
    var status := if patch.status.Some? then ParseStatus(patch.status.value).value else t.status;
    var priority := if patch.priority.Some? then ParsePriority(patch.priority.value).value else t.priority;
    var pattern :=
      if patch.recurrencePattern.Some? then ParsePattern(patch.recurrencePattern.value) else t.recurrencePattern;
    Task(
      id := t.id,
      title := patch.title.GetOr(t.title),
      status := status,
      priority := priority,
      dependencies := patch.dependencies.GetOr(t.dependencies),
      isRecurring := patch.isRecurring.GetOr(t.isRecurring),
      isDependency := patch.isDependency.GetOr(t.isDependency),
      recurrencePattern := pattern,
      cronCreated := patch.cronCreated.GetOr(t.cronCreated),
      dueDate := if patch.dueDate.Some? then patch.dueDate else t.dueDate,
      createdAt := t.createdAt,
      updatedAt := stamp)
  }

  /** Every field of a patch: present, it overwrites the stored value; absent, the stored
      value is kept. */
  lemma ApplyPatchFields(t: Task, patch: TaskInput, stamp: Timestamp)
    requires FieldErrors(patch, false) == {}
    ensures patch.title.Some? ==> ApplyPatch(t, patch, stamp).title == patch.title.value
    ensures patch.title.None? ==> ApplyPatch(t, patch, stamp).title == t.title
    ensures patch.priority.Some? ==> PriorityName(ApplyPatch(t, patch, stamp).priority) == patch.priority.value
    ensures patch.priority.None? ==> ApplyPatch(t, patch, stamp).priority == t.priority
    ensures patch.dependencies.Some? ==> ApplyPatch(t, patch, stamp).dependencies == patch.dependencies.value
    ensures patch.dependencies.None? ==> ApplyPatch(t, patch, stamp).dependencies == t.dependencies
    ensures patch.isRecurring.Some? ==> ApplyPatch(t, patch, stamp).isRecurring == patch.isRecurring.value
    ensures patch.isRecurring.None? ==> ApplyPatch(t, patch, stamp).isRecurring == t.isRecurring
    ensures patch.isDependency.Some? ==> ApplyPatch(t, patch, stamp).isDependency == patch.isDependency.value
    ensures patch.isDependency.None? ==> ApplyPatch(t, patch, stamp).isDependency == t.isDependency
    ensures patch.recurrencePattern.Some? ==>
              ApplyPatch(t, patch, stamp).recurrencePattern.Some? && PatternName(ApplyPatch(t, patch, stamp).recurrencePattern.value) == patch.recurrencePattern.value
    ensures patch.recurrencePattern.None? ==> ApplyPatch(t, patch, stamp).recurrencePattern == t.recurrencePattern
    ensures patch.cronCreated.Some? ==> ApplyPatch(t, patch, stamp).cronCreated == patch.cronCreated.value
    ensures patch.cronCreated.None? ==> ApplyPatch(t, patch, stamp).cronCreated == t.cronCreated
    ensures patch.dueDate.Some? ==> ApplyPatch(t, patch, stamp).dueDate == patch.dueDate
    ensures patch.dueDate.None? ==> ApplyPatch(t, patch, stamp).dueDate == t.dueDate
  {
  }
}
