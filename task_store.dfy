/** The task store of js/script.js: the global `tasks` array and the functions that change it.
    Each mutator in the source ends with `saveTasks()` (persistence, not modelled) and
    `renderTasks()`, whose only effect on the data is to sort `tasks` by `order`. */
module TaskStore {
  import opened Tasks
  import Strings

  /** `tasks.filter(task => task.id !== id)`. */
  function WithoutId(s: seq<Task>, id: int): (r: seq<Task>)
    ensures |r| <= |s|
    ensures forall k :: 0 <= k < |r| ==> r[k].id != id
  {
    if s == [] then []
    else (if s[0].id == id then [] else [s[0]]) + WithoutId(s[1..], id)
  }

  /** Every record without the id survives the filter, as often as it occurred. */
  lemma {:induction false} WithoutIdKeepsOthers(s: seq<Task>, id: int, t: Task)
    requires t.id != id
    ensures multiset(WithoutId(s, id))[t] == multiset(s)[t]
  {
    if s != [] {
      WithoutIdKeepsOthers(s[1..], id, t);
      assert s == [s[0]] + s[1..];
    }
  }

  /** The filter keeps the survivors in their original relative order: filtering a
      concatenation is concatenating the filtered parts. */
  lemma {:induction false} WithoutIdAppend(a: seq<Task>, b: seq<Task>, id: int)
    ensures WithoutId(a + b, id) == WithoutId(a, id) + WithoutId(b, id)
  {
    if a != [] {
      WithoutIdAppend(a[1..], b, id);
      assert (a + b)[1..] == a[1..] + b;
      assert (a + b)[0] == a[0];
    } else {
      assert a + b == b;
    }
  }

  /** `tasks.forEach((task, index) => { task.order = index; })`, as a value. */
  function Renumbered(s: seq<Task>): seq<Task>
  {
    seq(|s|, k requires 0 <= k < |s| => s[k].(order := k))
  }

  /** The list deleteTask leaves: the records without that id, renumbered by position. */
  function Deleted(s: seq<Task>, id: int): (r: seq<Task>)
    ensures |r| == |WithoutId(s, id)|
    ensures forall k :: 0 <= k < |r| ==> r[k].id != id
    ensures forall k :: 0 <= k < |r| ==> r[k].order == k
    ensures forall k :: 0 <= k < |r| ==> r[k].(order := WithoutId(s, id)[k].order) == WithoutId(s, id)[k]
  {
    Renumbered(WithoutId(s, id))
  }

  /** After a delete the orders are exactly 0..n-1 and already in display order. */
  lemma DeletedIsDenseAndSorted(s: seq<Task>, id: int)
    ensures Dense(Deleted(s, id)) && Sorted(Deleted(s, id))
  {
  }

  /** Deleting an id that no record has changes nothing on a list that is dense and in
      display order; on any other list it still renumbers every record. */
  lemma DeleteAbsentOnDenseIsIdentity(s: seq<Task>, id: int)
    requires forall k :: 0 <= k < |s| ==> s[k].id != id
    requires Dense(s) && Sorted(s)
    ensures Deleted(s, id) == s
  {
    WithoutIdAbsent(s, id);
    SortedDenseOrderIsPosition(s);
  }

  lemma {:induction false} WithoutIdAbsent(s: seq<Task>, id: int)
    requires forall k :: 0 <= k < |s| ==> s[k].id != id
    ensures WithoutId(s, id) == s
  {
    if s != [] {
      WithoutIdAbsent(s[1..], id);
      assert [s[0]] + s[1..] == s;
    }
  }

  /** toggleComplete's effect: `completed` flipped on the first record with the id. */
  function Toggled(s: seq<Task>, id: int): (r: seq<Task>)
    ensures |r| == |s|
    ensures forall k :: 0 <= k < |s| ==> r[k].(completed := s[k].completed) == s[k]
    ensures forall k :: 0 <= k < |s| ==> (r[k].completed != s[k].completed <==> FindFirst(s, id) == Some(k))
  {
    match FindFirst(s, id)
    case None => s
    case Some(i) => s[i := s[i].(completed := !s[i].completed)]
  }

  /** Toggling the same id twice restores the list. */
  lemma ToggledTwice(s: seq<Task>, id: int)
    ensures Toggled(Toggled(s, id), id) == s
  {
  }

  /** With unique ids, the first record with the id is the only one, so toggle flips
      exactly the records that carry it. */
  lemma ToggledFlipsExactlyTheId(s: seq<Task>, id: int)
    requires UniqueIds(s)
    ensures forall k :: 0 <= k < |s| ==> (Toggled(s, id)[k].completed != s[k].completed <==> s[k].id == id)
  {
  }

  /** saveEdit's effect on a non-blank text: the first record with the id gets that text. */
  function Retexted(s: seq<Task>, id: int, text: string): (r: seq<Task>)
    ensures |r| == |s|
    ensures forall k :: 0 <= k < |s| ==> r[k].(text := s[k].text) == s[k]
    ensures forall k :: 0 <= k < |s| ==> r[k].text == if FindFirst(s, id) == Some(k) then text else s[k].text
  {
    match FindFirst(s, id)
    case None => s
    case Some(i) => s[i := s[i].(text := text)]
  }

  /** The record appended by addTask. */
  function NewTask(s: seq<Task>, id: int, text: string): Task
  {
    Task(id, text, false, |s|)
  }

  /** When every order is below the length (a dense list, say), the sort that follows the
      push leaves the new record last and everything before it untouched. */
  lemma {:induction false} AppendNewKeepsItLast(s: seq<Task>, id: int, text: string)
    requires Sorted(s)
    requires forall k :: 0 <= k < |s| ==> s[k].order < |s|
    ensures SortByOrder(s + [NewTask(s, id, text)]) == s + [NewTask(s, id, text)]
  {
    SortSortedIsIdentity(s + [NewTask(s, id, text)]);
  }

  /** Adding keeps a dense list dense. */
  lemma AppendNewKeepsDense(s: seq<Task>, id: int, text: string)
    requires Dense(s)
    ensures Dense(s + [NewTask(s, id, text)])
  {
  }

  /** `tasks.filter(task => task.completed).length`. */
  function CountCompleted(s: seq<Task>): (n: nat)
    ensures n <= |s|
  {
    if s == [] then 0 else (if s[0].completed then 1 else 0) + CountCompleted(s[1..])
  }

  /** The `completed` column of a list. */
  function Flags(s: seq<Task>): seq<bool>
  {
    seq(|s|, k requires 0 <= k < |s| => s[k].completed)
  }

  /** The completed count is the number of records whose `completed` is true. */
  lemma {:induction false} CountCompletedCountsTrue(s: seq<Task>)
    ensures CountCompleted(s) == multiset(Flags(s))[true]
  {
    if s != [] {
      CountCompletedCountsTrue(s[1..]);
      assert Flags(s) == [s[0].completed] + Flags(s[1..]);
    }
  }

  /** Replacing one record changes the count by what the two records contribute. */
  lemma {:induction false} CountCompletedUpdate(s: seq<Task>, i: nat, t: Task)
    requires i < |s|
    ensures CountCompleted(s[i := t]) ==
      CountCompleted(s) - (if s[i].completed then 1 else 0) + (if t.completed then 1 else 0)
  {
    if i > 0 {
      CountCompletedUpdate(s[1..], i - 1, t);
      assert s[i := t][1..] == s[1..][i - 1 := t];
    } else {
      assert s[i := t][1..] == s[1..];
    }
  }

  /** A toggle moves the completed count by one in the direction of the flip, or not at all
      when no record has the id. */
  lemma {:induction false} ToggledCount(s: seq<Task>, id: int)
    ensures CountCompleted(Toggled(s, id)) == CountCompleted(s) +
      match FindFirst(s, id)
      case None => 0
      case Some(i) => if s[i].completed then -1 else 1
  {
    match FindFirst(s, id)
    case None =>
    case Some(i) => CountCompletedUpdate(s, i, s[i].(completed := !s[i].completed));
  }

  /** The global `tasks` array. Between events it is always in display order, because every
      path that changes it ends in `renderTasks()`. */
  class TaskList {
    var tasks: seq<Task>

    ghost predicate Valid()
      reads this
    {
      Sorted(tasks)
    }

    /** `init`: `loadTasks()` (the stored array, or the empty one) followed by `renderTasks()`. */
    constructor Load(stored: seq<Task>)
      ensures Valid()
      ensures tasks == SortByOrder(stored)
    {
      tasks := SortByOrder(stored);
    }

    /** The sort at the top of `renderTasks`. */
    method Render()
      modifies this
      ensures Valid()
      ensures tasks == SortByOrder(old(tasks))
    {
      tasks := SortByOrder(tasks);
    }

    /** `addTask` with the text of the input box and the id that `Date.now()` produced. */
    method AddTask(input: string, id: int) returns (added: bool)
      requires Valid()
      modifies this
      ensures Valid()
      ensures added <==> Strings.Trim(input) != []
      ensures !added ==> tasks == old(tasks)
      ensures added ==> tasks == SortByOrder(old(tasks) + [NewTask(old(tasks), id, Strings.Trim(input))])
      ensures added && (forall k :: 0 <= k < |old(tasks)| ==> old(tasks)[k].order < |old(tasks)|) ==>
        tasks == old(tasks) + [NewTask(old(tasks), id, Strings.Trim(input))]
    {
      var text := Strings.Trim(input);
      if text == [] {
        return false;
      }
      ghost var before := tasks;
      tasks := tasks + [Task(id, text, false, |tasks|)];
      Render();
      if forall k :: 0 <= k < |before| ==> before[k].order < |before| {
        AppendNewKeepsItLast(before, id, text);
      }
      added := true;
    }

    /** `deleteTask`: filter out the id, then renumber `order` by position. */
    method DeleteTask(id: int)
      requires Valid()
      modifies this
      ensures Valid()
      ensures tasks == Deleted(old(tasks), id)
    {
      tasks := WithoutId(tasks, id);
      ghost var kept := tasks;
      var i := 0;
      while i < |tasks|
        invariant 0 <= i <= |tasks| == |kept|
        invariant forall k :: 0 <= k < i ==> tasks[k] == kept[k].(order := k)
        invariant forall k :: i <= k < |tasks| ==> tasks[k] == kept[k]
      {
        tasks := tasks[i := tasks[i].(order := i)];
        i := i + 1;
      }
      assert tasks == Renumbered(kept);
      SortSortedIsIdentity(tasks);
      Render();
    }

    /** `toggleComplete`: flip the first record with the id; nothing happens without one. */
    method ToggleComplete(id: int)
      requires Valid()
      modifies this
      ensures Valid()
      ensures tasks == Toggled(old(tasks), id)
    {
      var found := FindFirst(tasks, id);
      if found.Some? {
        var i := found.value;
        tasks := tasks[i := tasks[i].(completed := !tasks[i].completed)];
        SortSortedIsIdentity(tasks);
        Render();
      }
    }

    /** The `saveEdit` closure of `editTask`: a blank edit deletes the task, any other
        replaces its text with the trimmed input. */
    method SaveEdit(id: int, input: string)
      requires Valid()
      modifies this
      ensures Valid()
      ensures Strings.Trim(input) == [] ==> tasks == Deleted(old(tasks), id)
      ensures Strings.Trim(input) != [] ==> tasks == Retexted(old(tasks), id, Strings.Trim(input))
    {
      var newText := Strings.Trim(input);
      if newText == [] {
        DeleteTask(id);
        return;
      }
      var found := FindFirst(tasks, id);
      if found.Some? {
        var i := found.value;
        tasks := tasks[i := tasks[i].(text := newText)];
      }
      SortSortedIsIdentity(tasks);
      Render();
    }

    /** The two numbers `updateTaskCount` shows: completed tasks and all tasks. */
    method UpdateTaskCount() returns (completed: nat, total: nat)
      ensures total == |tasks|
      ensures completed == multiset(Flags(tasks))[true]
      ensures completed <= total
    {
      total := |tasks|;
      completed := CountCompleted(tasks);
      CountCompletedCountsTrue(tasks);
    }
  }
}
