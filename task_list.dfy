/** TaskList: the ordered, 0-based list of tasks that the application changes in
    place. The list owns its tasks, so marking the task at an index is modelled as
    writing the marked value back at that index. */
module TaskLists {
  import opened Wrappers
  import opened Tasks

  // ------------------------------------------------------------------ specification

  /** The list with the element at index i deleted: the elements before i keep their
      places and the ones after it move down by one. */
  function Removed(s: seq<Task>, i: nat): (r: seq<Task>)
    requires i < |s|
    ensures |r| == |s| - 1
    ensures forall j :: 0 <= j < i ==> r[j] == s[j]
    ensures forall j :: i <= j < |r| ==> r[j] == s[j + 1]
  {
    s[..i] + s[i + 1..]
  }

  /** The list with the task at index i marked (done) or unmarked (not done). */
  function Flagged(s: seq<Task>, i: nat, done: bool): (r: seq<Task>)
    requires i < |s|
    ensures |r| == |s|
    ensures r[i].done == done && r[i].(done := s[i].done) == s[i]
    ensures forall j :: 0 <= j < |s| && j != i ==> r[j] == s[j]
  {
    s[i := if done then Mark(s[i]) else Unmark(s[i])]
  }

  /** Removing an element loses exactly that element: the removed task and the rest
      make up the old list as a multiset, and putting the task back at its index
      restores the list. */
  lemma RemovedIsPermutation(s: seq<Task>, i: nat)
    requires i < |s|
    ensures multiset(Removed(s, i)) + multiset{s[i]} == multiset(s)
    ensures Removed(s, i)[..i] + [s[i]] + Removed(s, i)[i..] == s
  {
    var r := Removed(s, i);
    assert r[..i] == s[..i];
    assert r[i..] == s[i + 1..];
    assert s == s[..i] + [s[i]] + s[i + 1..];
  }

  /** Appending a task and then removing the last element gives the list back. */
  lemma RemoveLastUndoesAppend(s: seq<Task>, t: Task)
    ensures Removed(s + [t], |s|) == s
  {
    assert (s + [t])[..|s|] == s;
  }

  /** Setting a flag twice is setting it once; setting a task's flag to what it
      already is leaves the list as it was; the last of two settings at one index wins. */
  lemma FlaggedLaws(s: seq<Task>, i: nat, a: bool, b: bool)
    requires i < |s|
    ensures Flagged(Flagged(s, i, a), i, b) == Flagged(s, i, b)
    ensures Flagged(s, i, s[i].done) == s
  {
    MarkUnmarkLaws(s[i]);
  }

  // ------------------------------------------------------------------ the class

  class TaskList {
    var tasks: seq<Task>

    /** new TaskList(): empty. */
    constructor ()
      ensures tasks == []
    {
      tasks := [];
    }

    /** add(task): appended at the end; the earlier tasks are unchanged. */
    method Add(task: Task)
      modifies this
      ensures tasks == old(tasks) + [task]
    {
      tasks := tasks + [task];
    }

    /** get(index): the task at the 0-based index; None where Java throws
        IndexOutOfBoundsException. */
    method Get(index: int) returns (r: Option<Task>)
      ensures r.Some? <==> 0 <= index < |tasks|
      ensures r.Some? ==> r.value == tasks[index]
    {
      if 0 <= index < |tasks| {
        r := Some(tasks[index]);
      } else {
        r := None;
      }
    }

    /** remove(index): the old task at the index, with the list closing the gap; an
        index out of range fails (None) and leaves the list as it was. */
    method Remove(index: int) returns (removed: Option<Task>)
      modifies this
      ensures removed.Some? <==> 0 <= index < |old(tasks)|
      ensures removed.Some? ==> removed.value == old(tasks)[index] && tasks == Removed(old(tasks), index)
      ensures removed.None? ==> tasks == old(tasks)
    {
      if 0 <= index < |tasks| {
        removed := Some(tasks[index]);
        tasks := Removed(tasks, index);
      } else {
        removed := None;
      }
    }

    /** mark(index): only the task at the index changes, and only in its flag; an
        index out of range fails (false) and leaves the list as it was. */
    method Mark(index: int) returns (ok: bool)
      modifies this
      ensures ok <==> 0 <= index < |old(tasks)|
      ensures ok ==> tasks == Flagged(old(tasks), index, true)
      ensures !ok ==> tasks == old(tasks)
    {
      ok := 0 <= index < |tasks|;
      if ok {
        tasks := Flagged(tasks, index, true);
      }
    }

    /** unmark(index): as mark, clearing the flag instead. */
    method Unmark(index: int) returns (ok: bool)
      modifies this
      ensures ok <==> 0 <= index < |old(tasks)|
      ensures ok ==> tasks == Flagged(old(tasks), index, false)
      ensures !ok ==> tasks == old(tasks)
    {
      ok := 0 <= index < |tasks|;
      if ok {
        tasks := Flagged(tasks, index, false);
      }
    }

    /** size(): the number of tasks. */
    method Size() returns (n: nat)
      ensures n == |tasks|
    {
      n := |tasks|;
    }

    /** isEmpty(): whether there are no tasks, that is, whether size() is 0. */
    method IsEmpty() returns (empty: bool)
      ensures empty <==> tasks == []
    {
      var n := Size();
      empty := n == 0;
    }
  }
}
