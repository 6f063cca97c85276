/** The task controller over an in-memory collection: creating, reading, searching,
    updating and deleting tasks, and the status route with its dependency gate. Each
    operation's effect on the collection is a function of the old collection; the
    `TaskStore` methods perform it in place. */
module TaskController {
  import opened Basics
  import opened TaskEnums
  import opened TaskModel
  import opened Validations
  import opened TaskSearch

  /** What a request handler answers. */
  datatype Reply =
    | Created(task: Task)          // 201
    | Fetched(task: Task)          // 200
    | Updated(task: Task)          // 200
    | Deleted                      // 200, taskDeleted
    | StatusWritten                // 200
    | InvalidId                    // 400, invalidTaskId
    | NotFound                     // 404, taskNotFound
    | DependenciesIncomplete       // 400, taskDependentCom
    | ValidationError(paths: set<Path>) // 400 through the error handler
    | CastError                    // 500 through the error handler

  /** `ObjectId.isValid` followed by the cast: the id a well-formed request id denotes. */
  function ParseId(raw: string): (r: Option<ObjectId>)
    ensures r.Some? <==> IsObjectIdString(raw)
    ensures r.Some? ==> r.value == HexValue(raw)
  {
    if IsObjectIdString(raw) then Some(HexValue(raw)) else None
  }

  /** Request ids that differ only in the letter case of their hex digits denote one task. */
  lemma ParseIdIgnoresCase(raw: string)
    requires IsObjectIdString(raw)
    ensures ParseId(Lower(raw)) == ParseId(raw)
  {
    HexValueIgnoresCase(raw);
  }

  predicate DistinctIds(docs: seq<Task>) {
    forall i, j :: 0 <= i < j < |docs| ==> docs[i].id != docs[j].id
  }

  /** With distinct ids, a document is what a lookup of its own id finds. */
  lemma {:induction false} FindOwnId(docs: seq<Task>, k: nat)
    requires DistinctIds(docs) && k < |docs|
    ensures FindById(docs, docs[k].id) == Some(docs[k])
  {
    if k > 0 {
      assert docs[0].id != docs[k].id;
      assert DistinctIds(docs[1..]) by {
        forall i, j | 0 <= i < j < |docs| - 1
          ensures docs[1..][i].id != docs[1..][j].id
        {
          assert docs[1..][i] == docs[i + 1] && docs[1..][j] == docs[j + 1];
        }
      }
      FindOwnId(docs[1..], k - 1);
    }
  }

  // ---------------------------------------------------------------------------
  // The effect of each write on the collection
  // ---------------------------------------------------------------------------

  /** The ids of a list other than `id` (`$pull`), in their order. */
  function WithoutId(ids: seq<ObjectId>, id: ObjectId): (r: seq<ObjectId>)
    ensures |r| <= |ids|
    ensures forall x :: x in r <==> x in ids && x != id
    ensures id !in ids ==> r == ids
    ensures multiset(r) == multiset(ids)[id := 0]
    ensures Subsequence(r, ids)
  {
    if |ids| == 0 then []
    else
      assert ids == [ids[0]] + ids[1..];
      if ids[0] == id then WithoutId(ids[1..], id)
      else [ids[0]] + WithoutId(ids[1..], id)
  }

  /** `findByIdAndDelete`: the collection without the document with that id. */
  function RemoveId(docs: seq<Task>, id: ObjectId): (r: seq<Task>)
    ensures forall t :: t in r <==> t in docs && t.id != id
    ensures |r| <= |docs|
  {
    Select(docs, (t: Task) => t.id != id)
  }

  /** `updateMany({ dependencies: id }, { $pull: { dependencies: id } })`: every document whose
      list holds the id loses every occurrence of it and gets a new updatedAt; the other
      documents are not touched. */
  function PullDependency(docs: seq<Task>, id: ObjectId, stamp: Timestamp): (r: seq<Task>)
    ensures |r| == |docs|
    ensures forall k :: 0 <= k < |docs| ==>
      && r[k].dependencies == WithoutId(docs[k].dependencies, id)
      && r[k].updatedAt == (if id in docs[k].dependencies then stamp else docs[k].updatedAt)
      && r[k].id == docs[k].id && r[k].status == docs[k].status
      && r[k].(dependencies := docs[k].dependencies, updatedAt := docs[k].updatedAt) == docs[k]
  {
    seq(|docs|, k requires 0 <= k < |docs| =>
      if id in docs[k].dependencies
      then docs[k].(dependencies := WithoutId(docs[k].dependencies, id), updatedAt := stamp)
      else docs[k])
  }

  /** The document with that id replaced by `t`; the others unchanged. */
  function ReplaceById(docs: seq<Task>, id: ObjectId, t: Task): (r: seq<Task>)
    ensures |r| == |docs|
    ensures forall k :: 0 <= k < |docs| ==> r[k] == if docs[k].id == id then t else docs[k]
  {
    seq(|docs|, k requires 0 <= k < |docs| => if docs[k].id == id then t else docs[k])
  }

  /** `updateOne({ status })` on one document: the requested status, if any (an undefined
      status is stripped from the update), and a new updatedAt. */
  function WithStatus(t: Task, requested: Option<TaskStatus>, stamp: Timestamp): (r: Task)
    ensures r.status == requested.GetOr(t.status)
    ensures r.(status := t.status, updatedAt := t.updatedAt) == t
  {
    t.(status := requested.GetOr(t.status), updatedAt := stamp)
  }

  /** `dependencies?.every(dep => dep.status === 'done')`: an absent list fails, an empty
      one passes. */
  function DependenciesComplete(deps: Option<seq<Task>>): (ok: bool)
    ensures deps.None? ==> !ok
    ensures deps.Some? ==> (ok <==> forall d :: d in deps.value ==> d.status == Done)
  {
    match deps
    case None => false
    case Some(ds) => forall d :: d in ds ==> d.status == Done
  }

  // ---------------------------------------------------------------------------
  // The invariant the dependency gate is meant to keep
  // ---------------------------------------------------------------------------

  /** Every done task's existing dependencies are done. */
  predicate CompletionOrdered(docs: seq<Task>) {
    forall t, d :: t in docs && d in docs && t.status == Done && d.id in t.dependencies ==> d.status == Done
  }

  /** Marking a task done through the gate keeps completion ordered. */
  lemma GateKeepsCompletionOrdered(docs: seq<Task>, id: ObjectId, stamp: Timestamp)
    requires DistinctIds(docs) && CompletionOrdered(docs)
    requires FindById(docs, id).Some?
    requires DependenciesComplete(Some(Resolve(docs, FindById(docs, id).value.dependencies)))
    ensures CompletionOrdered(ReplaceById(docs, id, WithStatus(FindById(docs, id).value, Some(Done), stamp)))
  {
    var target := FindById(docs, id).value;
    var r := ReplaceById(docs, id, WithStatus(target, Some(Done), stamp));
    forall t, d | t in r && d in r && t.status == Done && d.id in t.dependencies
      ensures d.status == Done
    {
      var i :| 0 <= i < |r| && r[i] == t;
      var j :| 0 <= j < |r| && r[j] == d;
      if docs[j].id != id {
        assert d == docs[j];
        if docs[i].id == id {
          FindOwnId(docs, i);
          assert t.dependencies == target.dependencies;
          FindOwnId(docs, j);
          var k :| 0 <= k < |target.dependencies| && target.dependencies[k] == d.id;
          assert d in Resolve(docs, target.dependencies);
        } else {
          assert t == docs[i];
        }
      }
    }
  }

  /** Removing documents keeps completion ordered. */
  lemma RemoveKeepsCompletionOrdered(docs: seq<Task>, id: ObjectId)
    requires CompletionOrdered(docs)
    ensures CompletionOrdered(RemoveId(docs, id))
  {
  }

  /** Pulling an id from every list keeps completion ordered: no status changes and lists
      only shrink. */
  lemma PullKeepsCompletionOrdered(docs: seq<Task>, id: ObjectId, stamp: Timestamp)
    requires CompletionOrdered(docs)
    ensures CompletionOrdered(PullDependency(docs, id, stamp))
  {
    var r := PullDependency(docs, id, stamp);
    forall t, d | t in r && d in r && t.status == Done && d.id in t.dependencies
      ensures d.status == Done
    {
      var i :| 0 <= i < |r| && r[i] == t;
      var j :| 0 <= j < |r| && r[j] == d;
      assert t.status == docs[i].status && d.status == docs[j].status && d.id == docs[j].id;
      assert d.id in docs[i].dependencies;
      assert docs[i] in docs && docs[j] in docs;
    }
  }

  /** Deleting a task keeps completion ordered. */
  lemma DeleteKeepsCompletionOrdered(docs: seq<Task>, id: ObjectId, stamp: Timestamp)
    requires CompletionOrdered(docs)
    ensures CompletionOrdered(PullDependency(RemoveId(docs, id), id, stamp))
  {
    RemoveKeepsCompletionOrdered(docs, id);
    PullKeepsCompletionOrdered(RemoveId(docs, id), id, stamp);
  }

  /** Deleting a task leaves no document with its id and no list that refers to it. */
  lemma DeleteLeavesNoReferences(docs: seq<Task>, id: ObjectId, stamp: Timestamp)
    ensures forall t :: t in PullDependency(RemoveId(docs, id), id, stamp) ==> t.id != id && id !in t.dependencies
  {
    var kept := RemoveId(docs, id);
    var r := PullDependency(kept, id, stamp);
    forall t | t in r
      ensures t.id != id && id !in t.dependencies
    {
      var i :| 0 <= i < |r| && r[i] == t;
      assert kept[i] in kept;
    }
  }

  /** Reopening a task that a done task depends on breaks completion order: the status route
      checks dependencies only when a task is marked done. */
  lemma ReopenCanBreakOrder(a: Task, b: Task, stamp: Timestamp)
    requires a.id != b.id && a.status == Done && b.status == Done && b.id in a.dependencies
    ensures CompletionOrdered([a, b])
    ensures !CompletionOrdered(ReplaceById([a, b], b.id, WithStatus(b, Some(NotDone), stamp)))
  {
    var r := ReplaceById([a, b], b.id, WithStatus(b, Some(NotDone), stamp));
    assert r[0] == a && r[1].status == NotDone;
  }

  /** The general update applies its fields with no dependency check, so it can mark done a
      task whose dependency is not done. */
  lemma GeneralUpdateBypassesGate(a: Task, b: Task, stamp: Timestamp)
    requires a.id != b.id && a.status == NotDone && b.status == NotDone && b.id in a.dependencies
    ensures CompletionOrdered([a, b])
    ensures !CompletionOrdered(ReplaceById([a, b], a.id, ApplyPatch(a, NoFields.(status := Some("done")), stamp)))
  {
    var r := ReplaceById([a, b], a.id, ApplyPatch(a, NoFields.(status := Some("done")), stamp));
    assert r[0].status == Done && r[0].dependencies == a.dependencies && r[1] == b;
  }

  /** A create body for a task that is done from the start and depends on the task whose id
      string is `dep`. */
  function DoneWithDependency(dep: string): Body {
    map["title" := JStr("t"), "status" := JStr("done"), "priority" := JStr("low"),
        "dependencies" := JArr([JStr(dep)]),
        "isRecurring" := JBool(false), "isDependency" := JBool(true)]
  }

  /** The create schema accepts that body, and the model receives the dependency's id. */
  lemma DoneWithDependencyAccepted(dep: string)
    requires IsObjectIdString(dep)
    ensures CreateTaskSchema(DoneWithDependency(dep))
    ensures CreateInput(DoneWithDependency(dep))
      == TaskInput(Some("t"), Some("done"), Some("low"), Some([HexValue(dep)]), Some(false), Some(true), None, None, None)
  {
    var body := DoneWithDependency(dep);
    assert IsObjectIdArray(body["dependencies"]) by {
      assert body["dependencies"].items == [JStr(dep)];
    }
    assert CastIds([JStr(dep)]) == [HexValue(dep)];
  }

  /** The create schema accepts a task that is done from the start and depends on a task
      that is not: the document built from the body, with whatever id the store gives it,
      breaks completion order. */
  lemma CreateBypassesGate(b: Task, dep: string, id: ObjectId, stamp: Timestamp)
    requires b.status == NotDone && IsObjectIdString(dep) && HexValue(dep) == b.id
    ensures CreateTaskSchema(DoneWithDependency(dep))
    ensures var r := Build(CreateInput(DoneWithDependency(dep)), id, stamp);
            && r.Ok?
            && r.value.status == Done
            && r.value.dependencies == [b.id]
            && !CompletionOrdered([b, r.value])
  {
    DoneWithDependencyAccepted(dep);
    var input := CreateInput(DoneWithDependency(dep));
    assert FieldErrors(input, true) == {};
    var t := Build(input, id, stamp).value;
    assert t.status == Done && t.dependencies == [b.id];
    assert t in [b, t] && b in [b, t] && b.id in t.dependencies;
  }

  // ---------------------------------------------------------------------------
  // The store
  // ---------------------------------------------------------------------------

  class TaskStore {
    /** The collection, in natural order. */
    var docs: seq<Task>
    /** The next ObjectId the store hands out; ids are never reused. */
    var nextId: ObjectId

    predicate Valid()
      reads this
    {
      && DistinctIds(docs)
      && (forall k :: 0 <= k < |docs| ==> docs[k].id < nextId && WellFormed(docs[k]))
    }

    constructor()
      ensures Valid() && docs == [] && nextId == 0
    {
      docs := [];
      nextId := 0;
    }

    /** `createTask`: the route has validated the body; the model builds the document with
        its defaults and appends it. */
    method CreateTask(body: Body, stamp: Timestamp) returns (reply: Reply)
      requires Valid() && CreateTaskSchema(body)
      modifies this
      ensures Valid()
      ensures Build(CreateInput(body), old(nextId), stamp).Ok?
      ensures reply == Created(Build(CreateInput(body), old(nextId), stamp).value)
      ensures docs == old(docs) + [reply.task] && nextId == old(nextId) + 1
    {
      CreateBodyBuilds(body, nextId, stamp);
      var t := Build(CreateInput(body), nextId, stamp).value;
      docs := docs + [t];
      nextId := nextId + 1;
      reply := Created(t);
    }

    /** `getTasks`: every document in natural order, each with its dependencies populated. */
    method GetTasks() returns (tasks: seq<Populated>)
      ensures |tasks| == |docs|
      ensures forall k :: 0 <= k < |docs| ==>
        tasks[k].task == docs[k] && tasks[k].dependencies == Resolve(docs, docs[k].dependencies)
    {
      tasks := Populate(docs, docs);
    }

    /** `getTask`: no id check, so a malformed id makes the cast fail (500). */
    method GetTask(rawId: string) returns (reply: Reply)
      ensures reply == CastError <==> !IsObjectIdString(rawId)
      ensures reply == NotFound <==> IsObjectIdString(rawId) && FindById(docs, HexValue(rawId)).None?
      ensures reply.Fetched? <==> IsObjectIdString(rawId) && FindById(docs, HexValue(rawId)).Some?
      ensures reply.Fetched? ==> reply.task in docs && reply.task.id == HexValue(rawId)
    {
      var id := ParseId(rawId);
      if id.None? {
        return CastError;
      }
      var found := FindById(docs, id.value);
      if found.None? {
        reply := NotFound;
      } else {
        reply := Fetched(found.value);
      }
    }

    /** `searchTasks`: the filter is built parameter by parameter; the documents it selects
        are ordered, paged and populated. */
    method SearchTasks(q: SearchQuery, policy: Policy) returns (resp: SearchResponse)
      ensures resp == SearchResult(docs, q, policy)
    {
      var filter := BuildFilter(q);
      var pageNumber := if q.page.Some? && q.page.value > 1 then q.page.value else 1;
      var limitNumber := if q.limit.None? then 3 else if q.limit.value > 1 then q.limit.value else 1;
      var skip := (pageNumber - 1) * limitNumber;
      var matching := Selected(docs, filter);
      SelectedIsMatching(docs, filter, q);
      assert skip == Skip(q);
      var tasks := Populate(docs, Page(SortNewestFirst(matching), skip, limitNumber));
      assert tasks == Populate(docs, ResultPage(docs, q));
      var totalTasks := |matching|;
      resp := SearchResponse(
        tasks,
        CollectionStats(docs, policy),
        Pagination(totalTasks, CeilDiv(totalTasks, limitNumber), pageNumber, limitNumber));
    }

    /** `updateTask`: the id is checked, then the update validators run on the fields under
        `todoData`, then the document is looked up; the update applies every field given. */
    method UpdateTask(rawId: string, todoData: TaskInput, stamp: Timestamp) returns (reply: Reply)
      requires Valid()
      modifies this
      ensures Valid() && nextId == old(nextId)
      ensures !IsObjectIdString(rawId) ==> reply == InvalidId && docs == old(docs)
      ensures IsObjectIdString(rawId) && FieldErrors(todoData, false) != {} ==>
        reply == ValidationError(FieldErrors(todoData, false)) && docs == old(docs)
      ensures IsObjectIdString(rawId) && FieldErrors(todoData, false) == {} && FindById(old(docs), HexValue(rawId)).None? ==>
        reply == NotFound && docs == old(docs)
      ensures IsObjectIdString(rawId) && FieldErrors(todoData, false) == {} && FindById(old(docs), HexValue(rawId)).Some? ==>
        var t := ApplyPatch(FindById(old(docs), HexValue(rawId)).value, todoData, stamp);
        reply == Updated(t) && docs == ReplaceById(old(docs), HexValue(rawId), t)
    {
      var id := ParseId(rawId);
      if id.None? {
        return InvalidId;
      }
      var errors := FieldErrors(todoData, false);
      if errors != {} {
        return ValidationError(errors);
      }
      var found := FindById(docs, id.value);
      if found.None? {
        return NotFound;
      }
      var t := ApplyPatch(found.value, todoData, stamp);
      docs := ReplaceById(docs, id.value, t);
      reply := Updated(t);
    }

    /** `deleteTask`: the id is checked, the document removed, and its id pulled from every
        dependency list. */
    method DeleteTask(rawId: string, stamp: Timestamp) returns (reply: Reply)
      requires Valid()
      modifies this
      ensures Valid() && nextId == old(nextId)
      ensures !IsObjectIdString(rawId) ==> reply == InvalidId && docs == old(docs)
      ensures IsObjectIdString(rawId) && FindById(old(docs), HexValue(rawId)).None? ==>
        reply == NotFound && docs == old(docs)
      ensures IsObjectIdString(rawId) && FindById(old(docs), HexValue(rawId)).Some? ==>
        reply == Deleted && docs == PullDependency(RemoveId(old(docs), HexValue(rawId)), HexValue(rawId), stamp)
    {
      var id := ParseId(rawId);
      if id.None? {
        return InvalidId;
      }
      var found := FindById(docs, id.value);
      if found.None? {
        return NotFound;
      }
      var kept := RemoveId(docs, id.value);
      assert forall k :: 0 <= k < |kept| ==> kept[k] in docs;
      assert DistinctIds(kept) by {
        SelectKeepsDistinct(docs, (t: Task) => t.id != id.value);
      }
      docs := PullDependency(kept, id.value, stamp);
      reply := Deleted;
    }

    /** `updateStatus`: the id is checked and the task looked up with its dependencies
        populated; marking it done requires every resolved dependency to be done; any other
        request writes without looking at them. */
    method UpdateStatus(rawId: string, requested: Option<TaskStatus>, stamp: Timestamp) returns (reply: Reply)
      requires Valid()
      modifies this
      ensures Valid() && nextId == old(nextId)
      ensures !IsObjectIdString(rawId) ==> reply == InvalidId && docs == old(docs)
      ensures IsObjectIdString(rawId) && FindById(old(docs), HexValue(rawId)).None? ==>
        reply == NotFound && docs == old(docs)
      ensures IsObjectIdString(rawId) && FindById(old(docs), HexValue(rawId)).Some? ==>
        var t := FindById(old(docs), HexValue(rawId)).value;
        if requested == Some(Done) && !DependenciesComplete(Some(Resolve(old(docs), t.dependencies)))
        then reply == DependenciesIncomplete && docs == old(docs)
        else reply == StatusWritten && docs == ReplaceById(old(docs), HexValue(rawId), WithStatus(t, requested, stamp))
    {
      var id := ParseId(rawId);
      if id.None? {
        return InvalidId;
      }
      var checkTask := FindById(docs, id.value);
      if checkTask.Some? {
        if requested == Some(Done) {
          var complete := DependenciesComplete(Some(Resolve(docs, checkTask.value.dependencies)));
          if !complete {
            return DependenciesIncomplete;
          }
        }
      }
      if checkTask.None? {
        return NotFound;
      }
      docs := ReplaceById(docs, id.value, WithStatus(checkTask.value, requested, stamp));
      reply := StatusWritten;
    }
  }

  /** Selecting from a collection with distinct ids keeps them distinct. */
  lemma {:induction false} SelectKeepsDistinct(docs: seq<Task>, keep: Task -> bool)
    requires DistinctIds(docs)
    ensures DistinctIds(Select(docs, keep))
  {
    if |docs| > 0 {
      assert DistinctIds(docs[1..]) by {
        forall i, j | 0 <= i < j < |docs| - 1
          ensures docs[1..][i].id != docs[1..][j].id
        {
          assert docs[1..][i] == docs[i + 1] && docs[1..][j] == docs[j + 1];
        }
      }
      SelectKeepsDistinct(docs[1..], keep);
      var rest := Select(docs[1..], keep);
      if keep(docs[0]) {
        forall j | 0 <= j < |rest|
          ensures docs[0].id != rest[j].id
        {
          assert rest[j] in docs[1..];
        }
      }
    }
  }

  /** A task marked done through the status route has every existing dependency done. */
  lemma StatusRouteMarksDoneOnlyWhenDependenciesDone(docs: seq<Task>, id: ObjectId, k: nat)
    requires DistinctIds(docs) && FindById(docs, id).Some?
    requires DependenciesComplete(Some(Resolve(docs, FindById(docs, id).value.dependencies)))
    requires k < |docs| && docs[k].id in FindById(docs, id).value.dependencies
    ensures docs[k].status == Done
  {
    FindOwnId(docs, k);
    var deps := FindById(docs, id).value.dependencies;
    var m :| 0 <= m < |deps| && deps[m] == docs[k].id;
  }
}
