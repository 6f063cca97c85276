/** The filter panel: the collection statistics, two status checkboxes and three priority
    checkboxes, an Apply button that hands the checked keys to the parent and a Clear button. */
module FilterComponent {
  import opened Basics

  /** The five checkboxes, named `status.done`, `status.notDone`, `priority.low`,
      `priority.medium` and `priority.high`. */
  datatype FlagName = DoneFlag | NotDoneFlag | LowFlag | MediumFlag | HighFlag

  /** What the parent receives: the checked keys of each group. */
  datatype FilterOptions = FilterOptions(status: seq<string>, priority: seq<string>)

  const StatusKeys: seq<string> := ["done", "notDone"]
  const PriorityKeys: seq<string> := ["low", "medium", "high"]

  /** The number of flags that are set. */
  function CountSet(flags: seq<bool>): nat {
    if |flags| == 0 then 0 else (if flags[0] then 1 else 0) + CountSet(flags[1..])
  }

  /** `Object.keys(group).filter(k => group[k])`: the keys whose flag is set, in the order the
      keys were declared. */
  function CheckedKeys(keys: seq<string>, flags: seq<bool>): (r: seq<string>)
    requires |keys| == |flags|
    ensures Subsequence(r, keys)
    ensures |r| == CountSet(flags)
    ensures forall k :: k in r ==> k in keys
    decreases |keys|
  {
    if |keys| == 0 then []
    else
      var rest := CheckedKeys(keys[1..], flags[1..]);
      if flags[0] then [keys[0]] + rest else rest
  }

  /** Among distinct keys, a key is selected exactly when its flag is set. */
  lemma {:induction false} CheckedKeysAt(keys: seq<string>, flags: seq<bool>, i: nat)
    requires |keys| == |flags| && i < |keys|
    requires forall a, b :: 0 <= a < b < |keys| ==> keys[a] != keys[b]
    ensures keys[i] in CheckedKeys(keys, flags) <==> flags[i]
    decreases |keys|
  {
    var rest := CheckedKeys(keys[1..], flags[1..]);
    if i == 0 {
      assert keys[0] !in keys[1..];
    } else {
      CheckedKeysAt(keys[1..], flags[1..], i - 1);
      assert keys[1..][i - 1] == keys[i] && flags[1..][i - 1] == flags[i];
      assert keys[i] != keys[0];
    }
  }

  /** With no flag set nothing is selected. */
  lemma {:induction false} CheckedKeysNone(keys: seq<string>, flags: seq<bool>)
    requires |keys| == |flags| && forall i :: 0 <= i < |flags| ==> !flags[i]
    ensures CheckedKeys(keys, flags) == []
    decreases |keys|
  {
    if |keys| > 0 {
      CheckedKeysNone(keys[1..], flags[1..]);
    }
  }

  /** With every flag set all keys are selected, in order. */
  lemma {:induction false} CheckedKeysAll(keys: seq<string>, flags: seq<bool>)
    requires |keys| == |flags| && forall i :: 0 <= i < |flags| ==> flags[i]
    ensures CheckedKeys(keys, flags) == keys
    decreases |keys|
  {
    if |keys| > 0 {
      CheckedKeysAll(keys[1..], flags[1..]);
      assert [keys[0]] + keys[1..] == keys;
    }
  }

  /** The statistics as the panel shows them: a missing count is shown as 0. */
  datatype TaskStats = TaskStats(totalTasks: Option<int>, completedTasks: Option<int>, incompleteTasks: Option<int>)

  function ShownStat(v: Option<int>): (n: int)
    ensures v.None? ==> n == 0
    ensures v.Some? ==> n == v.value
  {
    v.GetOr(0)
  }

  /** The checkbox state of the panel. */
  class Filters {
    var done: bool
    var notDone: bool
    var low: bool
    var medium: bool
    var high: bool

    /** Every checkbox starts unchecked. */
    constructor()
      ensures forall f :: !Flag(f)
    {
      done, notDone, low, medium, high := false, false, false, false, false;
    }

    function Flag(f: FlagName): bool
      reads this
    {
      match f
      case DoneFlag => done
      case NotDoneFlag => notDone
      case LowFlag => low
      case MediumFlag => medium
      case HighFlag => high
    }

    /** handleFilterChange: the checkbox that changed takes its new value; the others keep theirs. */
    method HandleFilterChange(f: FlagName, checked: bool)
      modifies this
      ensures Flag(f) == checked
      ensures forall g :: g != f ==> Flag(g) == old(Flag(g))
    {
      match f
      case DoneFlag => done := checked;
      case NotDoneFlag => notDone := checked;
      case LowFlag => low := checked;
      case MediumFlag => medium := checked;
      case HighFlag => high := checked;
    }

    /** handleFilterSubmit: the checked status keys and the checked priority keys, each in
        declaration order. It changes no flag. */
    function Submit(): (opts: FilterOptions)
      reads this
      ensures Subsequence(opts.status, StatusKeys) && Subsequence(opts.priority, PriorityKeys)
      ensures "done" in opts.status <==> done
      ensures "notDone" in opts.status <==> notDone
      ensures "low" in opts.priority <==> low
      ensures "medium" in opts.priority <==> medium
      ensures "high" in opts.priority <==> high
      ensures |opts.status| == CountSet([done, notDone])
      ensures |opts.priority| == CountSet([low, medium, high])
    {
      CheckedKeysAt(StatusKeys, [done, notDone], 0);
      CheckedKeysAt(StatusKeys, [done, notDone], 1);
      CheckedKeysAt(PriorityKeys, [low, medium, high], 0);
      CheckedKeysAt(PriorityKeys, [low, medium, high], 1);
      CheckedKeysAt(PriorityKeys, [low, medium, high], 2);
      FilterOptions(CheckedKeys(StatusKeys, [done, notDone]), CheckedKeys(PriorityKeys, [low, medium, high]))
    }

    /** clearFilter: the parent receives empty selections and every checkbox is unchecked. */
    method ClearFilter() returns (emitted: FilterOptions)
      modifies this
      ensures emitted == FilterOptions([], [])
      ensures forall f :: !Flag(f)
    {
      emitted := FilterOptions([], []);
      done, notDone, low, medium, high := false, false, false, false, false;
    }
  }

  /** Submitting right after clearing (or on the initial panel) sends the same empty selection
      that clearFilter sends. */
  lemma SubmitWithNothingChecked(f: Filters)
    requires forall g :: !f.Flag(g)
    ensures f.Submit() == FilterOptions([], [])
  {
    assert !f.Flag(DoneFlag) && !f.Flag(NotDoneFlag) && !f.Flag(LowFlag) && !f.Flag(MediumFlag) && !f.Flag(HighFlag);
    var statusFlags, priorityFlags := [f.done, f.notDone], [f.low, f.medium, f.high];
    assert statusFlags == [false, false] && priorityFlags == [false, false, false];
    CheckedKeysNone(StatusKeys, statusFlags);
    CheckedKeysNone(PriorityKeys, priorityFlags);
  }

  /** With every box checked, all keys are sent in declaration order; the status key for the
      "Not Done" box is the literal "notDone". */
  lemma SubmitWithEverythingChecked(f: Filters)
    requires forall g :: f.Flag(g)
    ensures f.Submit() == FilterOptions(StatusKeys, PriorityKeys)
  {
    assert f.Flag(DoneFlag) && f.Flag(NotDoneFlag) && f.Flag(LowFlag) && f.Flag(MediumFlag) && f.Flag(HighFlag);
    var statusFlags, priorityFlags := [f.done, f.notDone], [f.low, f.medium, f.high];
    assert statusFlags == [true, true] && priorityFlags == [true, true, true];
    CheckedKeysAll(StatusKeys, statusFlags);
    CheckedKeysAll(PriorityKeys, priorityFlags);
    assert f.Submit() == FilterOptions(CheckedKeys(StatusKeys, statusFlags), CheckedKeys(PriorityKeys, priorityFlags));
  }
}
