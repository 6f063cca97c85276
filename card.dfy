/** The task card: the title (truncated), the priority badge, a "completed" badge, the due date,
    the recurrence line, the list of dependencies and the Delete, Update and Done actions. */
module Card {
  import opened Basics
  import opened TaskEnums
  import opened TaskModel
  import opened Util

  /** The longest title shown in full. */
  const MaxTitle: nat := 40

  /** truncTitle: titles longer than 40 characters are cut to their first 40 followed by "...". */
  function TruncTitle(title: string): (r: string)
    ensures |title| <= MaxTitle ==> r == title
    ensures |title| > MaxTitle ==> |r| == MaxTitle + 3 && r[..MaxTitle] == title[..MaxTitle] && r[MaxTitle..] == "..."
    ensures |r| <= MaxTitle + 3
  {
    if |title| > MaxTitle then title[..MaxTitle] + "..." else title
  }

  /** Truncating twice cuts no more than truncating once. */
  lemma TruncTitleIdempotent(title: string)
    ensures TruncTitle(TruncTitle(title)) == TruncTitle(title)
  {
    if |title| > MaxTitle {
      var r := TruncTitle(title);
      assert r[..MaxTitle] + "..." == r;
    }
  }

  /** Every title is a prefix of what is shown, or what is shown ends in "..." after the
      first 40 characters of the title. */
  lemma TruncTitleKeepsPrefix(title: string)
    ensures IsPrefix(title, TruncTitle(title)) || IsPrefix(title[..MaxTitle] + "...", TruncTitle(title))
  {
  }

  /** The card's own completedBackground, whose first case is "not done". */
  function CardBackground(status: string): (c: string)
    ensures c == GreenBackground <==> Lower(status) == "done"
  {
    var s := Lower(status);
    if s == "not done" then GrayBackground
    else if s == "done" then GreenBackground
    else GrayBackground
  }

  /** The card's background helper and the shared one agree on every status. */
  lemma CardBackgroundIsShared(status: string)
    ensures CardBackground(status) == CompletedBackground(status)
  {
  }

  /** A referenced task as the card receives it: populated, with its own fields. */
  datatype Dependency = Dependency(title: string, status: string, priority: string)

  /** What the card is given. */
  datatype CardTask = CardTask(
    title: string,
    priority: string,
    status: string,
    isRecurring: bool,
    isDependency: bool,
    recurrencePattern: Option<string>,
    dependencies: Option<seq<Dependency>>)

  /** One entry of the "Depends on" list. */
  datatype Chip = Chip(background: string, border: string, title: string, badgeColor: string, badgeText: string, completed: bool)

  datatype CardAction = Delete | Update | Complete

  datatype CardView = CardView(
    background: string,
    border: string,
    heading: string,
    badgeColor: string,
    completedBadge: bool,
    recurrence: Option<string>,
    dependencyList: Option<seq<Chip>>,
    actions: seq<CardAction>)

  /** One dependency chip. As written, its priority badge shows the card's own priority;
      corrected, the dependency's. */
  function ChipFor(cardPriority: string, d: Dependency, policy: Policy): (c: Chip)
    ensures c.title == TruncTitle(d.title) && c.border == CardBorder(d.priority)
    ensures c.background == GreenBackground <==> Lower(d.status) == "done"
    ensures c.completed <==> d.status == "done"
    ensures policy == Corrected ==> c.badgeText == d.priority && c.badgeColor == PriorityColor(d.priority)
    ensures policy == AsWritten ==> c.badgeText == cardPriority && c.badgeColor == PriorityColor(cardPriority)
  {
    var shown := if policy == AsWritten then cardPriority else d.priority;
    Chip(CardBackground(d.status), CardBorder(d.priority), TruncTitle(d.title), PriorityColor(shown), shown, d.status == "done")
  }

  /** The actions offered: Delete always, Update and Done only while the status is not "done". */
  function Actions(status: string): (a: seq<CardAction>)
    ensures Delete in a
    ensures Update in a <==> status != "done"
    ensures Complete in a <==> status != "done"
  {
    [Delete] + (if status != "done" then [Update, Complete] else [])
  }

  /** The rendered card. */
  function View(t: CardTask, policy: Policy): (v: CardView)
    ensures v.heading == TruncTitle(t.title)
    ensures v.background == GreenBackground <==> Lower(t.status) == "done"
    ensures v.border == CardBorder(t.priority) && v.badgeColor == PriorityColor(t.priority)
    ensures v.completedBadge <==> t.status == "done"
    ensures v.recurrence.Some? <==> t.isRecurring
    ensures v.actions == Actions(t.status)
    ensures v.dependencyList.Some? <==> t.isDependency && t.dependencies.Some? && |t.dependencies.value| > 0
    ensures v.dependencyList.Some? ==> |v.dependencyList.value| == |t.dependencies.value|
    ensures v.dependencyList.Some? ==> forall i :: 0 <= i < |v.dependencyList.value| ==>
      v.dependencyList.value[i] == ChipFor(t.priority, t.dependencies.value[i], policy)
  {
    var deps :=
      if t.isDependency && t.dependencies.Some? && |t.dependencies.value| > 0 then
        Some(seq(|t.dependencies.value|, i requires 0 <= i < |t.dependencies.value| =>
          ChipFor(t.priority, t.dependencies.value[i], policy)))
      else None;
    CardView(
      CardBackground(t.status),
      CardBorder(t.priority),
      TruncTitle(t.title),
      PriorityColor(t.priority),
      t.status == "done",
      if t.isRecurring then Some(t.recurrencePattern.GetOr("")) else None,
      deps,
      Actions(t.status))
  }

  /** The card of a stored task, whose fields hold the backend's enum values. */
  function StoredCard(t: Task, deps: seq<Task>): CardTask {
    CardTask(
      t.title,
      PriorityName(t.priority),
      StatusName(t.status),
      t.isRecurring,
      t.isDependency,
      if t.recurrencePattern.Some? then Some(PatternName(t.recurrencePattern.value)) else None,
      Some(seq(|deps|, i requires 0 <= i < |deps| =>
        Dependency(deps[i].title, StatusName(deps[i].status), PriorityName(deps[i].priority)))))
  }

  /** For a stored task the views agree: the card is green, shows the "completed" badge and
      withholds Update and Done exactly when the task is done. */
  lemma StoredTaskCardIsConsistent(t: Task, deps: seq<Task>, policy: Policy)
    ensures View(StoredCard(t, deps), policy).background == GreenBackground <==> t.status == Done
    ensures View(StoredCard(t, deps), policy).completedBadge <==> t.status == Done
    ensures Complete in View(StoredCard(t, deps), policy).actions <==> t.status == NotDone
  {
    assert Lower("done") == "done";
    if t.status == NotDone {
      assert Lower("not done") == "not done";
    }
  }

  /** The action rule compares the status exactly while the background lower-cases it: a
      status of "DONE" gets the green background and still offers Done. */
  lemma UpperCaseDoneStillOffersDone(t: CardTask, policy: Policy)
    requires t.status == "DONE"
    ensures View(t, policy).background == GreenBackground
    ensures Complete in View(t, policy).actions
  {
    assert Lower("DONE") == "done";
  }

  /** As written, a dependency chip shows the card's priority: a high-priority card that
      depends on a low-priority task labels that dependency "high". */
  lemma ChipShowsCardPriority()
    ensures ChipFor("high", Dependency("setup", "not done", "low"), AsWritten).badgeText == "high"
    ensures View(CardTask("deploy", "high", "not done", false, true, None,
                          Some([Dependency("setup", "not done", "low")])), AsWritten)
              .dependencyList.value[0].badgeText != "low"
  {
  }

  /** Corrected, every chip of a shown dependency list carries that dependency's own priority. */
  lemma ChipShowsOwnPriority(t: CardTask, i: nat)
    requires View(t, Corrected).dependencyList.Some?
    requires i < |t.dependencies.value|
    ensures View(t, Corrected).dependencyList.value[i].badgeText == t.dependencies.value[i].priority
  {
  }
}
