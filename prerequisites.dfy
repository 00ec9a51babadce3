/** Prerequisite graph queries: which resources a learner may take next.
    The prerequisite table and the learning-path table are parameters, so
    every property below holds for any catalogue, acyclic or not. */
module Prerequisites {
  import opened Common

  type Name = string

  /** Resource name -> names of the resources that must be completed first. */
  type PrerequisiteTable = map<Name, seq<Name>>

  /** Goal name -> the recommended completion order for that goal. */
  type PathTable = map<string, seq<Name>>

  /** The goal used when none, or an unknown one, is asked for. */
  const DefaultGoal: string := "complete_course"

  /** `get_prerequisites`: the table entry, or no prerequisites at all for a
      name the table does not list. */
  function GetPrerequisites(table: PrerequisiteTable, r: Name): (ps: seq<Name>)
    ensures r in table ==> ps == table[r]
    ensures r !in table ==> ps == []
  {
    if r in table then table[r] else []
  }

  /** Python's `all(p in completed for p in ps)`, evaluated left to right. */
  function AllCompleted(ps: seq<Name>, completed: seq<Name>): (ok: bool)
    ensures ok <==> forall p :: p in ps ==> p in completed
  {
    if ps == [] then true else ps[0] in completed && AllCompleted(ps[1..], completed)
  }

  /** `check_prerequisites_met`: every listed prerequisite of `r` is completed;
      a name without a table entry has nothing to wait for. */
  function PrerequisitesMet(table: PrerequisiteTable, r: Name, completed: seq<Name>): (met: bool)
    ensures met <==> forall p :: p in GetPrerequisites(table, r) ==> p in completed
    ensures r !in table ==> met
  {
    AllCompleted(GetPrerequisites(table, r), completed)
  }

  /** Completing more never makes a resource's prerequisites unmet. */
  lemma {:induction false} PrerequisitesMetMonotone(table: PrerequisiteTable, r: Name,
                                                   completed: seq<Name>, more: seq<Name>)
    requires forall x :: x in completed ==> x in more
    requires PrerequisitesMet(table, r, completed)
    ensures PrerequisitesMet(table, r, more)
  {
    forall p | p in GetPrerequisites(table, r) ensures p in more {
      assert p in completed;
    }
  }

  /** The membership rule of `get_available_resources`: a key of the table
      that either has no prerequisites, or is not yet completed and has all
      of its prerequisites completed. */
  predicate IsAvailable(table: PrerequisiteTable, completed: seq<Name>, r: Name) {
    r in table &&
    (table[r] == [] || (r !in completed && PrerequisitesMet(table, r, completed)))
  }

  /** `get_available_resources`: two passes over the key set, then the
      duplicates dropped. The order of the result is left open, as Python's
      set iteration order is. */
  method GetAvailableResources(table: PrerequisiteTable, completed: seq<Name>)
    returns (available: seq<Name>)
    ensures NoDup(available)
    ensures forall r :: r in available <==> IsAvailable(table, completed, r)
  {
    var all := Enumerate(table.Keys);
    var found: seq<Name> := [];
    // resources with no prerequisites
    for i := 0 to |all|
      invariant forall r :: r in found <==> r in all[..i] && GetPrerequisites(table, r) == []
    {
      if GetPrerequisites(table, all[i]) == [] {
        found := found + [all[i]];
      }
    }
    assert all[..|all|] == all;
    // resources whose prerequisites are met
    for i := 0 to |all|
      invariant forall r :: r in found <==>
        (r in all && GetPrerequisites(table, r) == []) ||
        (r in all[..i] && r !in completed && PrerequisitesMet(table, r, completed))
    {
      var r := all[i];
      if r !in completed && PrerequisitesMet(table, r, completed) {
        found := found + [r];
      }
    }
    available := Enumerate(Elements(found));
  }

  /** `[r for r in xs if r not in completed]`, keeping the order of `xs`. */
  function NotCompleted(xs: seq<Name>, completed: seq<Name>): (ys: seq<Name>)
    ensures |ys| <= |xs|
    ensures forall r :: r in ys <==> r in xs && r !in completed
    ensures NoDup(xs) ==> NoDup(ys)
  {
    if xs == [] then []
    else if xs[0] in completed then NotCompleted(xs[1..], completed)
    else [xs[0]] + NotCompleted(xs[1..], completed)
  }

  /** Python's slice `xs[:k]`; a negative `k` counts back from the end. */
  function SliceTo<T>(xs: seq<T>, k: int): (ys: seq<T>)
    ensures ys <= xs
    ensures 0 <= k ==> |ys| == if k < |xs| then k else |xs|
    ensures k < 0 ==> |ys| == if |xs| + k < 0 then 0 else |xs| + k
  {
    if 0 <= k then (if k < |xs| then xs[..k] else xs)
    else if |xs| + k < 0 then [] else xs[..|xs| + k]
  }

  /** A prefix of a duplicate-free sequence is duplicate-free. */
  lemma PrefixNoDup<T>(xs: seq<T>, ys: seq<T>)
    requires NoDup(xs) && ys <= xs
    ensures NoDup(ys)
  {
    forall i, j | 0 <= i < j < |ys| ensures ys[i] != ys[j] {
      assert ys[i] == xs[i] && ys[j] == xs[j];
    }
  }

  /** `suggest_next_resources`: at most `maxSuggestions` available resources,
      none completed, none twice; when fewer than asked for come back, every
      available resource not yet completed is among them. */
  method SuggestNextResources(table: PrerequisiteTable, completed: seq<Name>, maxSuggestions: int)
    returns (suggestions: seq<Name>)
    ensures 0 <= maxSuggestions ==> |suggestions| <= maxSuggestions
    ensures NoDup(suggestions)
    ensures forall r :: r in suggestions ==>
      r in table && r !in completed && PrerequisitesMet(table, r, completed)
    ensures 0 <= maxSuggestions && |suggestions| < maxSuggestions ==>
      forall r :: IsAvailable(table, completed, r) && r !in completed ==> r in suggestions
  {
    var available := GetAvailableResources(table, completed);
    var pending := NotCompleted(available, completed);
    suggestions := SliceTo(pending, maxSuggestions);
    PrefixNoDup(pending, suggestions);
    forall r | r in suggestions ensures r in pending {
      var k :| 0 <= k < |suggestions| && suggestions[k] == r;
      assert pending[k] == r;
    }
    if 0 <= maxSuggestions && |suggestions| < maxSuggestions {
      assert suggestions == pending;
    }
  }

  /** `get_learning_path`: the path of a known goal, else the default goal's.
      The default is looked up even when `goal` is known, so a table without
      the default goal fails (a `KeyError`), modelled as `None`. */
  function GetLearningPath(paths: PathTable, goal: string): (path: Option<seq<Name>>)
    ensures path.Some? <==> DefaultGoal in paths
    ensures path.Some? && goal in paths ==> path.value == paths[goal]
    ensures path.Some? && goal !in paths ==> path.value == paths[DefaultGoal]
  {
    if DefaultGoal !in paths then None
    else if goal in paths then Some(paths[goal])
    else Some(paths[DefaultGoal])
  }
}
