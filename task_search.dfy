/** Queries over the task collection as `searchTasks`, `getIncompleteTask` and the population
    of `dependencies` perform them: the filter a search builds from its query parameters,
    the order and paging of the results, the page count and the statistics. The collection
    is a sequence of documents in their natural (insertion) order. */
module TaskSearch {
  import opened Basics
  import opened TaskEnums
  import opened TaskModel

  // ---------------------------------------------------------------------------
  // Lookups and selections over the collection
  // ---------------------------------------------------------------------------

  /** `findById`: the first document with the given id, if any. */
  function FindById(docs: seq<Task>, id: ObjectId): (r: Option<Task>)
    ensures r.Some? ==> r.value in docs && r.value.id == id
    ensures r.None? <==> forall t :: t in docs ==> t.id != id
  {
    if |docs| == 0 then None
    else if docs[0].id == id then Some(docs[0])
    else FindById(docs[1..], id)
  }

  /** The documents of `docs` that satisfy `keep`, in collection order (`find(filter)`). */
  function Select(docs: seq<Task>, keep: Task -> bool): (r: seq<Task>)
    ensures |r| <= |docs|
    ensures forall t :: t in r <==> t in docs && keep(t)
  {
    if |docs| == 0 then []
    else if keep(docs[0]) then [docs[0]] + Select(docs[1..], keep)
    else Select(docs[1..], keep)
  }

  /** A test that no document passes selects nothing. */
  lemma {:induction false} SelectNone(docs: seq<Task>, keep: Task -> bool)
    requires forall t :: t in docs ==> !keep(t)
    ensures Select(docs, keep) == []
  {
    if |docs| > 0 {
      SelectNone(docs[1..], keep);
    }
  }

  /** Two tests that agree on every document of the collection select the same documents. */
  lemma {:induction false} SelectCongruent(docs: seq<Task>, p: Task -> bool, q: Task -> bool)
    requires forall t :: t in docs ==> p(t) == q(t)
    ensures Select(docs, p) == Select(docs, q)
  {
    if |docs| > 0 {
      SelectCongruent(docs[1..], p, q);
    }
  }

  /** Selecting is order-preserving: selecting from a concatenation selects from each part. */
  lemma {:induction false} SelectAppend(a: seq<Task>, b: seq<Task>, keep: Task -> bool)
    ensures Select(a + b, keep) == Select(a, keep) + Select(b, keep)
  {
    if |a| == 0 {
      assert a + b == b;
    } else {
      var ab := a + b;
      assert ab[0] == a[0] && ab[1..] == a[1..] + b;
      SelectAppend(a[1..], b, keep);
      if keep(a[0]) {
        assert Select(ab, keep) == [a[0]] + Select(a[1..] + b, keep);
        assert Select(a, keep) == [a[0]] + Select(a[1..], keep);
      } else {
        assert Select(ab, keep) == Select(a[1..] + b, keep);
        assert Select(a, keep) == Select(a[1..], keep);
      }
    }
  }

  /** What `populate('dependencies')` leaves in place of a list of ids: the referenced
      documents that exist, in the order of the ids; a dangling id is dropped. */
  function Resolve(docs: seq<Task>, ids: seq<ObjectId>): (r: seq<Task>)
    ensures |r| <= |ids|
    ensures forall t :: t in r ==> t in docs && t.id in ids
    ensures forall k :: 0 <= k < |ids| && FindById(docs, ids[k]).Some? ==> FindById(docs, ids[k]).value in r
  {
    if |ids| == 0 then []
    else
      var rest := Resolve(docs, ids[1..]);
      assert forall k :: 1 <= k < |ids| ==> ids[k] == ids[1..][k - 1];
      match FindById(docs, ids[0])
      case Some(t) => [t] + rest
      case None => rest
  }

  /** Resolving ids that all exist loses none of them. */
  lemma {:induction false} ResolveComplete(docs: seq<Task>, ids: seq<ObjectId>)
    requires forall k :: 0 <= k < |ids| ==> FindById(docs, ids[k]).Some?
    ensures |Resolve(docs, ids)| == |ids|
  {
    if |ids| > 0 {
      assert forall k :: 0 <= k < |ids[1..]| ==> ids[1..][k] == ids[k + 1];
      ResolveComplete(docs, ids[1..]);
    }
  }

  // ---------------------------------------------------------------------------
  // The search filter
  // ---------------------------------------------------------------------------

  /** The query string of a search request. `None` is a parameter that was not sent; page
      and limit are the numeric values of those parameters. */
  datatype SearchQuery = SearchQuery(
    title: Option<string>,
    status: Option<string>,
    priority: Option<string>,
    isRecurring: Option<string>,
    isDependency: Option<string>,
    page: Option<int>,
    limit: Option<int>)

  /** The Mongo filter a search builds; `None` is a condition that was not added. */
  datatype Filter = Filter(
    title: Option<string>,
    statusIn: Option<seq<string>>,
    priorityIn: Option<seq<string>>,
    isRecurring: Option<bool>,
    isDependency: Option<bool>)

  const EmptyFilter := Filter(None, None, None, None, None)

  /** Whether a document satisfies every condition of the filter. The title condition is a
      case-insensitive substring test. */
  predicate Matches(f: Filter, t: Task) {
    && (f.title.None? || Contains(Lower(t.title), Lower(f.title.value)))
    && (f.statusIn.None? || StatusName(t.status) in f.statusIn.value)
    && (f.priorityIn.None? || PriorityName(t.priority) in f.priorityIn.value)
    && (f.isRecurring.None? || t.isRecurring == f.isRecurring.value)
    && (f.isDependency.None? || t.isDependency == f.isDependency.value)
  }

  /** The search's meaning, one condition per query parameter: an absent or empty title,
      status or priority constrains nothing; a status or priority list is split at commas
      and the document's value must be one of the pieces; a flag parameter that is present,
      with whatever value, requires the flag to equal (value is "true"). */
  predicate Admits(q: SearchQuery, t: Task) {
    && (q.title.None? || q.title.value == [] || Contains(Lower(t.title), Lower(q.title.value)))
    && (q.status.None? || q.status.value == [] || StatusName(t.status) in Split(q.status.value, ','))
    && (q.priority.None? || q.priority.value == [] || PriorityName(t.priority) in Split(q.priority.value, ','))
    && (q.isRecurring.None? || t.isRecurring == (q.isRecurring.value == "true"))
    && (q.isDependency.None? || t.isDependency == (q.isDependency.value == "true"))
  }

  /** The filter of `searchTasks`, built condition by condition from the query parameters. */
  method BuildFilter(q: SearchQuery) returns (f: Filter)
    ensures forall t :: Matches(f, t) <==> Admits(q, t)
  {
    f := EmptyFilter;
    if q.title.Some? && q.title.value != [] {
      f := f.(title := Some(q.title.value));
    }
    if q.status.Some? && q.status.value != [] {
      f := f.(statusIn := Some(Split(q.status.value, ',')));
    }
    if q.priority.Some? && q.priority.value != [] {
      f := f.(priorityIn := Some(Split(q.priority.value, ',')));
    }
    if q.isRecurring.Some? {
      f := f.(isRecurring := Some(q.isRecurring.value == "true"));
    }
    if q.isDependency.Some? {
      f := f.(isDependency := Some(q.isDependency.value == "true"));
    }
  }

  /** The documents a search matches, in collection order. */
  function Matching(docs: seq<Task>, q: SearchQuery): (r: seq<Task>)
    ensures forall t :: t in r <==> t in docs && Admits(q, t)
  {
    Select(docs, (t: Task) => Admits(q, t))
  }

  /** The documents a filter selects, in collection order. */
  function Selected(docs: seq<Task>, f: Filter): (r: seq<Task>)
    ensures forall t :: t in r <==> t in docs && Matches(f, t)
  {
    Select(docs, (t: Task) => Matches(f, t))
  }

  /** A filter that agrees with the query on every document selects what the query matches. */
  lemma SelectedIsMatching(docs: seq<Task>, f: Filter, q: SearchQuery)
    requires forall t :: Matches(f, t) <==> Admits(q, t)
    ensures Selected(docs, f) == Matching(docs, q)
  {
    SelectCongruent(docs, (t: Task) => Matches(f, t), (t: Task) => Admits(q, t));
  }

  /** A search without parameters matches the whole collection. */
  lemma {:induction false} NoParametersMatchAll(docs: seq<Task>, page: Option<int>, limit: Option<int>)
    ensures Matching(docs, SearchQuery(None, None, None, None, None, page, limit)) == docs
  {
    if |docs| > 0 {
      NoParametersMatchAll(docs[1..], page, limit);
      assert [docs[0]] + docs[1..] == docs;
    }
  }

  /** A status parameter without commas matches exactly the documents with that status;
      the same holds for priority. */
  lemma SingleValueFilter(t: Task, s: string)
    requires s != [] && ',' !in s
    ensures StatusName(t.status) in Split(s, ',') <==> StatusName(t.status) == s
    ensures PriorityName(t.priority) in Split(s, ',') <==> PriorityName(t.priority) == s
  {
    SplitWithoutSeparator(s, ',');
  }

  /** A status parameter 'notDone', the key the status filter of the user interface uses,
      matches no document. */
  lemma NotDoneStatusMatchesNothing(docs: seq<Task>, q: SearchQuery)
    requires q.status == Some("notDone")
    ensures Matching(docs, q) == []
  {
    SplitWithoutSeparator("notDone", ',');
    forall t | t in docs
      ensures !Admits(q, t)
    {
      NotDoneLiteralIsNoStatus(t.status);
    }
    SelectNone(docs, (t: Task) => Admits(q, t));
  }

  /** Flag parameters are compared with the literal "true": any other value, "TRUE" and "1"
      included, asks for the flag to be false. */
  lemma FlagParameterIsLiteralTrue(t: Task, q: SearchQuery)
    requires q.title.None? && q.status.None? && q.priority.None? && q.isDependency.None?
    requires q.isRecurring.Some? && q.isRecurring.value != "true"
    ensures Admits(q, t) <==> !t.isRecurring
  {
  }

  // ---------------------------------------------------------------------------
  // Paging
  // ---------------------------------------------------------------------------

  /** `Math.max(1, Number(page))`, page defaulting to 1. */
  function PageNumber(q: SearchQuery): (n: int)
    ensures n >= 1
    ensures q.page.None? ==> n == 1
    ensures q.page.Some? ==> n == if q.page.value >= 1 then q.page.value else 1
  {
    if q.page.Some? && q.page.value > 1 then q.page.value else 1
  }

  /** `Math.max(1, Number(limit))`, limit defaulting to 3. */
  function LimitNumber(q: SearchQuery): (n: int)
    ensures n >= 1
    ensures q.limit.None? ==> n == 3
    ensures q.limit.Some? ==> n == if q.limit.value >= 1 then q.limit.value else 1
  {
    if q.limit.None? then 3 else if q.limit.value > 1 then q.limit.value else 1
  }

  /** The number of documents skipped: those on the pages before the requested one. */
  function Skip(q: SearchQuery): (n: nat) {
    MulMonotone(0, PageNumber(q) - 1, LimitNumber(q));
    (PageNumber(q) - 1) * LimitNumber(q)
  }

  /** `Math.ceil(n / limit)`. */
  function CeilDiv(n: nat, limit: int): nat
    requires limit >= 1
  {
    (n + limit - 1) / limit
  }

  /** The page count is the least number of pages of `limit` documents that hold `n`. */
  lemma CeilDivBounds(n: nat, limit: int)
    requires limit >= 1
    ensures CeilDiv(n, limit) * limit >= n
    ensures CeilDiv(n, limit) == 0 || (CeilDiv(n, limit) - 1) * limit < n
  {
    var c := CeilDiv(n, limit);
    assert n + limit - 1 == c * limit + (n + limit - 1) % limit;
  }

  /** There are no pages exactly when nothing matched. */
  lemma NoPagesIffNoMatches(n: nat, limit: int)
    requires limit >= 1
    ensures CeilDiv(n, limit) == 0 <==> n == 0
  {
    CeilDivBounds(n, limit);
  }

  lemma MulMonotone(a: int, b: int, l: int)
    requires a <= b && l >= 0
    ensures a * l <= b * l
  {
  }

  /** A page holds some document exactly when its number is at most the page count. */
  lemma PageInRangeIffNonEmpty(n: nat, limit: int, page: int)
    requires limit >= 1 && page >= 1
    ensures (page - 1) * limit < n <==> page <= CeilDiv(n, limit)
  {
    var c := CeilDiv(n, limit);
    CeilDivBounds(n, limit);
    if page <= c {
      MulMonotone(page - 1, c - 1, limit);
    } else {
      MulMonotone(c, page - 1, limit);
    }
  }

  /** `.skip(skip).limit(limit)`: at most `limit` documents, starting after the first `skip`. */
  function Page(s: seq<Task>, skip: nat, limit: nat): (r: seq<Task>)
    ensures |r| <= limit
    ensures r == [] <==> skip >= |s| || limit == 0
    ensures skip < |s| ==> |r| == if skip + limit <= |s| then limit else |s| - skip
    ensures forall k :: 0 <= k < |r| ==> skip + k < |s| && r[k] == s[skip + k]
  {
    if skip >= |s| then []
    else if skip + limit <= |s| then s[skip..skip + limit]
    else s[skip..]
  }

  /** The document at position k of the ordered results is on page k / limit + 1, at
      position k % limit. */
  lemma PageLocates(s: seq<Task>, limit: int, k: nat)
    requires limit >= 1 && k < |s|
    ensures var p := Page(s, (k / limit) * limit, limit);
            k % limit < |p| && p[k % limit] == s[k]
  {
    assert (k / limit) * limit + k % limit == k;
  }

  // ---------------------------------------------------------------------------
  // Ordering by updatedAt, newest first
  // ---------------------------------------------------------------------------

  predicate NewestFirst(s: seq<Task>) {
    forall i, j :: 0 <= i < j < |s| ==> s[i].updatedAt >= s[j].updatedAt
  }

  /** A document no older than the head of an ordered list can go in front of it. */
  lemma PrependKeepsOrder(x: Task, s: seq<Task>)
    requires NewestFirst(s) && (|s| > 0 ==> s[0].updatedAt <= x.updatedAt)
    ensures NewestFirst([x] + s)
  {
    var r := [x] + s;
    forall i, j | 0 <= i < j < |r|
      ensures r[i].updatedAt >= r[j].updatedAt
    {
      assert r[j] == s[j - 1];
      if i > 0 {
        assert r[i] == s[i - 1];
      }
    }
  }

  /** Inserting a document into a list ordered newest first, ahead of the first one that is
      not newer than it. */
  function Insert(t: Task, s: seq<Task>): (r: seq<Task>)
    requires NewestFirst(s)
    ensures |r| == |s| + 1
    ensures r[0] == t || (|s| > 0 && r[0] == s[0])
    ensures NewestFirst(r)
  {
    if |s| == 0 then [t]
    else if t.updatedAt >= s[0].updatedAt then
      PrependKeepsOrder(t, s);
      [t] + s
    else
      var rest := Insert(t, s[1..]);
      PrependKeepsOrder(s[0], rest);
      [s[0]] + rest
  }

  /** Insertion adds exactly the one document. */
  lemma {:induction false} InsertPermutes(t: Task, s: seq<Task>)
    requires NewestFirst(s)
    ensures multiset(Insert(t, s)) == multiset(s) + multiset{t}
  {
    if |s| > 0 && t.updatedAt < s[0].updatedAt {
      InsertPermutes(t, s[1..]);
      assert s == [s[0]] + s[1..];
    }
  }

  /** `.sort({ updatedAt: -1 })`: the same documents, newest first. */
  function SortNewestFirst(s: seq<Task>): (r: seq<Task>)
    ensures NewestFirst(r)
    ensures multiset(r) == multiset(s)
    ensures |r| == |s|
  {
    if |s| == 0 then []
    else
      assert s == [s[0]] + s[1..];
      InsertPermutes(s[0], SortNewestFirst(s[1..]));
      Insert(s[0], SortNewestFirst(s[1..]))
  }

  // ---------------------------------------------------------------------------
  // The response
  // ---------------------------------------------------------------------------

  /** A returned document with its dependencies populated. */
  datatype Populated = Populated(task: Task, dependencies: seq<Task>)

  function Populate(docs: seq<Task>, page: seq<Task>): (r: seq<Populated>)
    ensures |r| == |page|
    ensures forall k :: 0 <= k < |page| ==> r[k].task == page[k] && r[k].dependencies == Resolve(docs, page[k].dependencies)
  {
    seq(|page|, k requires 0 <= k < |page| => Populated(page[k], Resolve(docs, page[k].dependencies)))
  }

  datatype Stats = Stats(totalTasks: nat, completedTasks: nat, incompleteTasks: nat)

  datatype Pagination = Pagination(totalTasks: nat, totalPages: nat, currentPage: int, pageSize: int)

  datatype SearchResponse = SearchResponse(tasks: seq<Populated>, stat: Stats, pagination: Pagination)

  /** The number of documents whose status value is `lit`. */
  function CountStatus(docs: seq<Task>, lit: string): (c: nat)
    ensures c <= |docs|
  {
    |Select(docs, (t: Task) => StatusName(t.status) == lit)|
  }

  /** The statistics aggregation: one group over the whole collection (there is no match
      stage, so the search filter does not apply), or the zero defaults when the collection
      is empty and the aggregation returns no group. */
  function CollectionStats(docs: seq<Task>, policy: Policy): (r: Stats)
    ensures r.totalTasks == |docs|
    ensures r.completedTasks == CountStatus(docs, "done")
    ensures r.incompleteTasks == CountStatus(docs, NotDoneLiteral(policy))
  {
    if |docs| == 0 then Stats(0, 0, 0)
    else Stats(|docs|, CountStatus(docs, "done"), CountStatus(docs, NotDoneLiteral(policy)))
  }

  /** Counting documents whose status is neither value of a pair is the same as counting
      the two separately: the counts of 'done' and 'not done' add up to the collection. */
  lemma {:induction false} StatusCountsPartition(docs: seq<Task>)
    ensures CountStatus(docs, "done") + CountStatus(docs, "not done") == |docs|
  {
    if |docs| > 0 {
      StatusCountsPartition(docs[1..]);
      assert docs == [docs[0]] + docs[1..];
      SelectAppend([docs[0]], docs[1..], (t: Task) => StatusName(t.status) == "done");
      SelectAppend([docs[0]], docs[1..], (t: Task) => StatusName(t.status) == "not done");
    }
  }

  /** As written, no document is ever counted as incomplete, so the completed and the
      incomplete counts add up to the total only when every task is done. */
  lemma {:induction false} StatsAsWrittenMissIncomplete(docs: seq<Task>)
    ensures CollectionStats(docs, AsWritten).incompleteTasks == 0
    ensures var r := CollectionStats(docs, AsWritten);
            r.completedTasks + r.incompleteTasks == r.totalTasks <==> forall t :: t in docs ==> t.status == Done
  {
    forall t | t in docs
      ensures StatusName(t.status) != "notDone"
    {
      NotDoneLiteralIsNoStatus(t.status);
    }
    SelectNone(docs, (t: Task) => StatusName(t.status) == "notDone");
    StatusCountsPartition(docs);
    if forall t :: t in docs ==> t.status == Done {
      SelectNone(docs, (t: Task) => StatusName(t.status) == "not done");
    } else {
      var t :| t in docs && t.status != Done;
      assert t in Select(docs, (t: Task) => StatusName(t.status) == "not done");
    }
  }

  /** Corrected, every document is counted once, as completed or as incomplete. */
  lemma StatsCorrectedPartition(docs: seq<Task>)
    ensures var r := CollectionStats(docs, Corrected);
            r.completedTasks + r.incompleteTasks == r.totalTasks
  {
    StatusCountsPartition(docs);
  }

  /** The requested page of the matching documents, newest first. */
  function ResultPage(docs: seq<Task>, q: SearchQuery): (page: seq<Task>)
    ensures |page| <= LimitNumber(q)
    ensures page == [] <==> Skip(q) >= |Matching(docs, q)|
  {
    var sorted := SortNewestFirst(Matching(docs, q));
    assert |sorted| == |Matching(docs, q)|;
    Page(sorted, Skip(q), LimitNumber(q))
  }

  /** The response of `searchTasks`: the matching documents newest first, paged and
      populated; the match count and the page count; the collection statistics. */
  function SearchResult(docs: seq<Task>, q: SearchQuery, policy: Policy): (r: SearchResponse)
    ensures r.pagination == Pagination(|Matching(docs, q)|, CeilDiv(|Matching(docs, q)|, LimitNumber(q)),
                                       PageNumber(q), LimitNumber(q))
    ensures r.stat == CollectionStats(docs, policy)
    ensures |r.tasks| <= r.pagination.pageSize
  {
    var matching := Matching(docs, q);
    SearchResponse(
      Populate(docs, ResultPage(docs, q)),
      CollectionStats(docs, policy),
      Pagination(|matching|, CeilDiv(|matching|, LimitNumber(q)), PageNumber(q), LimitNumber(q)))
  }

  /** Every returned document is in the collection and satisfies the query, and comes
      with its populated dependencies. */
  lemma SearchResultTasks(docs: seq<Task>, q: SearchQuery, policy: Policy)
    ensures var r := SearchResult(docs, q, policy);
            forall k :: 0 <= k < |r.tasks| ==>
              (r.tasks[k].task in docs && Admits(q, r.tasks[k].task)
               && r.tasks[k].dependencies == Resolve(docs, r.tasks[k].task.dependencies))
  {
    var matching := Matching(docs, q);
    var sorted := SortNewestFirst(matching);
    var page := ResultPage(docs, q);
    assert page == Page(sorted, Skip(q), LimitNumber(q));
    forall k | 0 <= k < |page|
      ensures page[k] in matching
    {
      assert page[k] in multiset(sorted);
    }
  }

  /** A page of an ordered list is ordered. */
  lemma PageKeepsOrder(s: seq<Task>, skip: nat, limit: nat)
    requires NewestFirst(s)
    ensures NewestFirst(Page(s, skip, limit))
  {
    var page := Page(s, skip, limit);
    forall i, j | 0 <= i < j < |page|
      ensures page[i].updatedAt >= page[j].updatedAt
    {
      assert page[i] == s[skip + i] && page[j] == s[skip + j];
    }
  }

  /** The returned page is ordered newest first. */
  lemma SearchResultOrder(docs: seq<Task>, q: SearchQuery, policy: Policy)
    ensures var r := SearchResult(docs, q, policy);
            forall k :: 0 <= k && k + 1 < |r.tasks| ==> r.tasks[k].task.updatedAt >= r.tasks[k + 1].task.updatedAt
  {
    var sorted := SortNewestFirst(Matching(docs, q));
    var page := ResultPage(docs, q);
    assert page == Page(sorted, Skip(q), LimitNumber(q));
    PageKeepsOrder(sorted, Skip(q), LimitNumber(q));
    var tasks := SearchResult(docs, q, policy).tasks;
    assert tasks == Populate(docs, page);
    forall k | 0 <= k && k + 1 < |tasks|
      ensures tasks[k].task.updatedAt >= tasks[k + 1].task.updatedAt
    {
      assert tasks[k].task == page[k] && tasks[k + 1].task == page[k + 1];
    }
  }

  /** The page count is 0 exactly when nothing matches, and the requested page holds
      documents exactly when its number is at most the page count. */
  lemma SearchResultPaging(docs: seq<Task>, q: SearchQuery, policy: Policy)
    ensures var r := SearchResult(docs, q, policy);
            r.pagination.totalPages == 0 <==> r.pagination.totalTasks == 0
    ensures var r := SearchResult(docs, q, policy);
            r.tasks != [] <==> r.pagination.currentPage <= r.pagination.totalPages
  {
    var total, n, l := |Matching(docs, q)|, PageNumber(q), LimitNumber(q);
    var r := SearchResult(docs, q, policy);
    assert r.pagination == Pagination(total, CeilDiv(total, l), n, l);
    assert |r.tasks| == |ResultPage(docs, q)|;
    NoPagesIffNoMatches(total, l);
    PageInRangeIffNonEmpty(total, l, n);
    assert Skip(q) == (n - 1) * l;
    assert ResultPage(docs, q) != [] <==> n <= CeilDiv(total, l);
  }

  /** An example: seven matching documents, the default limit of 3 and page 3 give three
      pages, the last holding the single oldest document. */
  lemma ThirdPageOfSeven(docs: seq<Task>, q: SearchQuery)
    requires |Matching(docs, q)| == 7 && q.page == Some(3) && q.limit.None?
    ensures SearchResult(docs, q, Corrected).pagination.totalPages == 3
    ensures |SearchResult(docs, q, Corrected).tasks| == 1
  {
    assert Skip(q) == 6;
    assert |ResultPage(docs, q)| == 1;
  }

  // ---------------------------------------------------------------------------
  // getIncompleteTask
  // ---------------------------------------------------------------------------

  /** The id and title of every document whose status equals the incomplete literal. */
  function IncompleteTasks(docs: seq<Task>, policy: Policy): seq<(ObjectId, string)> {
    var sel := Select(docs, (t: Task) => StatusName(t.status) == NotDoneLiteral(policy));
    seq(|sel|, k requires 0 <= k < |sel| => (sel[k].id, sel[k].title))
  }

  /** As written the list of incomplete tasks is always empty. */
  lemma IncompleteTasksAsWrittenEmpty(docs: seq<Task>)
    ensures IncompleteTasks(docs, AsWritten) == []
  {
    forall t | t in docs
      ensures StatusName(t.status) != NotDoneLiteral(AsWritten)
    {
      NotDoneLiteralIsNoStatus(t.status);
    }
    SelectNone(docs, (t: Task) => StatusName(t.status) == NotDoneLiteral(AsWritten));
  }

  /** Corrected, it lists exactly the tasks that are not done. */
  lemma IncompleteTasksCorrected(docs: seq<Task>, id: ObjectId, title: string)
    ensures (id, title) in IncompleteTasks(docs, Corrected)
      <==> exists t :: t in docs && t.status == NotDone && t.id == id && t.title == title
  {
    var sel := Select(docs, (t: Task) => StatusName(t.status) == NotDoneLiteral(Corrected));
    var listing := IncompleteTasks(docs, Corrected);
    assert |listing| == |sel| && forall k :: 0 <= k < |sel| ==> listing[k] == (sel[k].id, sel[k].title);
    if (id, title) in listing {
      var k :| 0 <= k < |sel| && listing[k] == (id, title);
      assert sel[k] in sel;
    }
    if exists t :: t in docs && t.status == NotDone && t.id == id && t.title == title {
      var t :| t in docs && t.status == NotDone && t.id == id && t.title == title;
      assert t in sel;
      var k :| 0 <= k < |sel| && sel[k] == t;
      assert listing[k] == (id, title);
    }
  }
}
