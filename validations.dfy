/** The request-body schemas as predicates over a JSON object: createTaskSchema (strict),
    updateTaskSchema (not strict) and statusUpdate (strict). A schema accepts a body or
    not; the request layer then passes the body on unchanged. */
module Validations {
  import opened Basics
  import opened TaskEnums
  import opened TaskModel

  /** JSON values as they arrive in a request body (numbers are kept integral). */
  datatype Json = JNull | JBool(b: bool) | JNum(n: int) | JStr(s: string) | JArr(items: seq<Json>) | JObj(fields: map<string, Json>)

  /** A request body: an object from keys to values; a key that is absent is `undefined`. */
  type Body = map<string, Json>

  predicate NonEmptyString(v: Json) {
    v.JStr? && |v.s| >= 1
  }

  predicate IsStatusValue(v: Json) {
    v.JStr? && ParseStatus(v.s).Some?
  }

  predicate IsPriorityValue(v: Json) {
    v.JStr? && ParsePriority(v.s).Some?
  }

  predicate IsPatternValue(v: Json) {
    v.JStr? && ParsePattern(v.s).Some?
  }

  predicate IsObjectIdJson(v: Json) {
    v.JStr? && IsObjectIdString(v.s)
  }

  /** An array whose every entry is a string of exactly 24 hexadecimal characters. */
  predicate IsObjectIdArray(v: Json) {
    v.JArr? && forall i :: 0 <= i < |v.items| ==> IsObjectIdJson(v.items[i])
  }

  const CreateKeys: set<string> :=
    {"title", "status", "priority", "dependencies", "isRecurring", "isDependency", "recurrencePattern"}

  const UpdateKeys: set<string> :=
    {"title", "status", "priority", "isRecurring", "isDependency", "recurrencePattern"}

  /** createTaskSchema: a non-empty title, a status and a priority from their enums and the two
      flags are required; dependencies (24-hex ids) and recurrencePattern are optional; no
      other key is allowed. */
  predicate CreateTaskSchema(body: Body) {
    && body.Keys <= CreateKeys
    && "title" in body && NonEmptyString(body["title"])
    && "status" in body && IsStatusValue(body["status"])
    && "priority" in body && IsPriorityValue(body["priority"])
    && ("dependencies" !in body || IsObjectIdArray(body["dependencies"]))
    && "isRecurring" in body && body["isRecurring"].JBool?
    && "isDependency" in body && body["isDependency"].JBool?
    && ("recurrencePattern" !in body || IsPatternValue(body["recurrencePattern"]))
  }

  /** updateTaskSchema: every declared field optional, a present title non-empty; it declares
      no dependencies and, not being strict, lets any other key through. */
  predicate UpdateTaskSchema(body: Body) {
    && ("title" !in body || NonEmptyString(body["title"]))
    && ("status" !in body || IsStatusValue(body["status"]))
    && ("priority" !in body || IsPriorityValue(body["priority"]))
    && ("isRecurring" !in body || body["isRecurring"].JBool?)
    && ("isDependency" !in body || body["isDependency"].JBool?)
    && ("recurrencePattern" !in body || IsPatternValue(body["recurrencePattern"]))
  }

  /** statusUpdate: exactly one key, status, holding a status value. */
  predicate StatusUpdateSchema(body: Body) {
    body.Keys <= {"status"} && "status" in body && IsStatusValue(body["status"])
  }

  /** The create schema is strict: any key outside its seven makes it refuse the body. */
  lemma CreateIsStrict(body: Body, k: string)
    requires k in body && k !in CreateKeys
    ensures !CreateTaskSchema(body)
  {
  }

  /** The update schema is not strict: adding a key it does not declare, dependencies among
      them, never makes it refuse a body it accepted. */
  lemma UpdateIgnoresUndeclaredKeys(body: Body, k: string, v: Json)
    requires UpdateTaskSchema(body) && k !in UpdateKeys
    ensures UpdateTaskSchema(body[k := v])
  {
  }

  /** A general update sends its fields under `todoData`, a key the update schema does not
      declare: whatever `todoData` holds, the body passes. */
  lemma TodoDataIsNotValidated(v: Json)
    ensures UpdateTaskSchema(map["todoData" := v])
  {
  }

  /** Every body the create schema or the status schema accepts, the update schema accepts. */
  lemma UpdateSchemaIsWeakest(body: Body)
    ensures CreateTaskSchema(body) ==> UpdateTaskSchema(body)
    ensures StatusUpdateSchema(body) ==> UpdateTaskSchema(body)
  {
  }

  /** The status schema accepts exactly the one-key bodies { status: <a status value> }. */
  lemma StatusUpdateIsExactlyOneStatus(body: Body)
    ensures StatusUpdateSchema(body) <==> exists s: TaskStatus :: body == map["status" := JStr(StatusName(s))]
  {
    if StatusUpdateSchema(body) {
      var s := ParseStatus(body["status"].s).value;
      assert body == map["status" := JStr(StatusName(s))];
    }
  }

  /** Nothing ties recurrencePattern to isRecurring in the create schema. */
  lemma CreatePatternIndependentOfRecurring()
    ensures CreateTaskSchema(map["title" := JStr("t"), "status" := JStr("done"), "priority" := JStr("low"),
                                 "isRecurring" := JBool(true), "isDependency" := JBool(false)])
    ensures CreateTaskSchema(map["title" := JStr("t"), "status" := JStr("done"), "priority" := JStr("low"),
                                 "isRecurring" := JBool(false), "isDependency" := JBool(false),
                                 "recurrencePattern" := JStr("weekly")])
  {
  }

  function StringField(body: Body, k: string): Option<string> {
    if k in body && body[k].JStr? then Some(body[k].s) else None
  }

  function BoolField(body: Body, k: string): Option<bool> {
    if k in body && body[k].JBool? then Some(body[k].b) else None
  }

  function CastId(v: Json): ObjectId
    requires IsObjectIdJson(v)
  {
    HexValue(v.s)
  }

  /** Casting each validated id string to an ObjectId. */
  function CastIds(items: seq<Json>): (ids: seq<ObjectId>)
    requires forall i :: 0 <= i < |items| ==> IsObjectIdJson(items[i])
    ensures |ids| == |items|
    ensures forall i :: 0 <= i < |items| ==> ids[i] == CastId(items[i])
  {
    seq(|items|, i requires 0 <= i < |items| => CastId(items[i]))
  }

  /** The document fields a validated create body hands to the model. */
  function CreateInput(body: Body): TaskInput
    requires CreateTaskSchema(body)
  {
    TaskInput(
      title := StringField(body, "title"),
      status := StringField(body, "status"),
      priority := StringField(body, "priority"),
      dependencies := if "dependencies" in body then Some(CastIds(body["dependencies"].items)) else None,
      isRecurring := BoolField(body, "isRecurring"),
      isDependency := BoolField(body, "isDependency"),
      recurrencePattern := StringField(body, "recurrencePattern"),
      cronCreated := None,
      dueDate := None)
  }

  /** A body the create schema accepts always passes the model's own validation, and the
      document keeps its title, status and priority. */
  lemma CreateBodyBuilds(body: Body, id: ObjectId, stamp: Timestamp)
    requires CreateTaskSchema(body)
    ensures Build(CreateInput(body), id, stamp).Ok?
    ensures Build(CreateInput(body), id, stamp).value.title == body["title"].s
    ensures StatusName(Build(CreateInput(body), id, stamp).value.status) == body["status"].s
    ensures PriorityName(Build(CreateInput(body), id, stamp).value.priority) == body["priority"].s
  {
    assert FieldErrors(CreateInput(body), true) == {};
  }
}
