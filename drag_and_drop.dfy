/** The drag-and-drop module of Components/DnDScripts/DnDScripts.js: the module-level
    `draggedElement`, the `dragging` and `drag-over` class markers on the list items, and the
    swap of two `order` values that a drop commits to the shared `tasks` array. */
module DragAndDrop {
  import opened Tasks
  import TaskStore

  /** A rendered `.task-item` element: its identity in the document and the task id that its
      `data-id` attribute carries (already parsed to an integer). */
  datatype Item = Item(key: nat, taskId: int)

  /** What one call of `handleDrop` did. */
  datatype DropOutcome =
    | Committed      // the two orders were swapped, then saveTasks() and renderTasks() ran
    | SelfDrop       // dropped onto the dragged item itself: nothing saved or rendered
    | MissingTask    // one of the two ids has no record: nothing saved or rendered
    | NoDraggedItem  // `draggedElement` is still null: reading its dataset throws

  /** The swap of the `order` fields of the records at positions i and j, through a temporary. */
  function SwapOrders(s: seq<Task>, i: nat, j: nat): (r: seq<Task>)
    requires i < |s| && j < |s|
    ensures |r| == |s|
    ensures r[i].order == s[j].order && r[j].order == s[i].order
    ensures forall k :: 0 <= k < |s| ==> r[k].(order := s[k].order) == s[k]
    ensures forall k :: 0 <= k < |s| && k != i && k != j ==> r[k] == s[k]
  {
    var tempOrder := s[i].order;
    var s1 := s[i := s[i].(order := s[j].order)];
    s1[j := s1[j].(order := tempOrder)]
  }

  /** The data effect of a drop of the item carrying `draggedId` onto the one carrying
      `dropId`: None when either id has no record, otherwise the list with the orders of the
      two first matches swapped. */
  function Swapped(s: seq<Task>, draggedId: int, dropId: int): (r: Option<seq<Task>>)
    ensures r.None? <==> FindFirst(s, draggedId).None? || FindFirst(s, dropId).None?
    ensures r.Some? ==> |r.value| == |s|
    ensures r.Some? ==>
      var i, j := FindFirst(s, draggedId).value, FindFirst(s, dropId).value;
      r.value[i].order == s[j].order && r.value[j].order == s[i].order &&
      (forall k :: 0 <= k < |s| ==> r.value[k].(order := s[k].order) == s[k]) &&
      (forall k :: 0 <= k < |s| && k != i && k != j ==> r.value[k] == s[k])
  {
    match (FindFirst(s, draggedId), FindFirst(s, dropId))
    case (Some(i), Some(j)) => Some(SwapOrders(s, i, j))
    case _ => None
  }

  /** A drop moves order values between records and never invents or loses one. */
  lemma SwapOrdersKeepsOrderMultiset(s: seq<Task>, i: nat, j: nat)
    requires i < |s| && j < |s|
    ensures multiset(Orders(SwapOrders(s, i, j))) == multiset(Orders(s))
  {
    var o := Orders(s);
    assert Orders(SwapOrders(s, i, j)) == o[i := o[j]][j := o[i]];
  }

  /** A drop keeps a dense list dense. */
  lemma SwapOrdersKeepsDense(s: seq<Task>, i: nat, j: nat)
    requires i < |s| && j < |s|
    requires Dense(s)
    ensures Dense(SwapOrders(s, i, j))
  {
  }

  /** Swapping the same two positions twice restores the list. */
  lemma SwapOrdersTwice(s: seq<Task>, i: nat, j: nat)
    requires i < |s| && j < |s|
    ensures SwapOrders(SwapOrders(s, i, j), i, j) == s
  {
  }

  /** Dropping the same pair twice restores every order: the swap finds the same two
      records again, because it changes no id. */
  lemma SwappedTwice(s: seq<Task>, draggedId: int, dropId: int)
    requires Swapped(s, draggedId, dropId).Some?
    ensures Swapped(Swapped(s, draggedId, dropId).value, draggedId, dropId) == Some(s)
  {
    var i, j := FindFirst(s, draggedId).value, FindFirst(s, dropId).value;
    var r := SwapOrders(s, i, j);
    FindFirstSeesOnlyIds(s, r, draggedId);
    FindFirstSeesOnlyIds(s, r, dropId);
    SwapOrdersTwice(s, i, j);
  }

  /** A value that occurs at least twice sits at two different positions. */
  lemma {:induction false} TwoPositions(x: seq<Task>, v: Task)
    requires multiset(x)[v] >= 2
    ensures exists p, q :: 0 <= p < q < |x| && x[p] == v && x[q] == v
  {
    assert x == [x[0]] + x[1..];
    if x[0] == v {
      assert v in multiset(x[1..]);
      var q :| 0 <= q < |x[1..]| && x[1..][q] == v;
      assert x[0] == v && x[q + 1] == v;
    } else {
      TwoPositions(x[1..], v);
      var p, q :| 0 <= p < q < |x[1..]| && x[1..][p] == v && x[1..][q] == v;
      assert x[p + 1] == v && x[q + 1] == v;
    }
  }

  /** Density depends only on which records there are, not where they stand, so the sort
      in `renderTasks` keeps it. */
  lemma DenseUnderPermutation(x: seq<Task>, y: seq<Task>)
    requires multiset(x) == multiset(y)
    requires Dense(x)
    ensures Dense(y)
  {
    assert |x| == |multiset(x)| == |y|;
    forall i | 0 <= i < |y| ensures 0 <= y[i].order < |y| {
      assert y[i] in multiset(x);
    }
    forall i, j | 0 <= i < j < |y| ensures y[i].order != y[j].order {
      // both records occur in x; if they are one record, it occurs in x twice
      assert y[i] in multiset(x) && y[j] in multiset(x);
      if y[i] == y[j] {
        assert y == y[..j] + y[j..];
        assert y[i] in multiset(y[..j]) && y[j] in multiset(y[j..]);
        TwoPositions(x, y[i]);
      }
    }
  }

  /** The property a committed drop is for: on a dense list, the swap followed by the
      re-render's sort leaves orders that are again 0..n-1, each record's order equal to its
      position. */
  lemma DropOnDenseListOrderIsPosition(s: seq<Task>, draggedId: int, dropId: int, r: seq<Task>)
    requires Dense(s)
    requires Swapped(s, draggedId, dropId) == Some(r)
    ensures Dense(SortByOrder(r))
    ensures forall k :: 0 <= k < |s| ==> SortByOrder(r)[k].order == k
  {
    var i, j := FindFirst(s, draggedId).value, FindFirst(s, dropId).value;
    SwapOrdersKeepsDense(s, i, j);
    DenseUnderPermutation(r, SortByOrder(r));
    SortedDenseOrderIsPosition(SortByOrder(r));
  }

  /** A committed drop followed by the re-render's sort leaves the same order values as
      before the drop, only on other records and positions. */
  lemma DropKeepsOrderMultiset(s: seq<Task>, draggedId: int, dropId: int, r: seq<Task>)
    requires Swapped(s, draggedId, dropId) == Some(r)
    ensures multiset(Orders(SortByOrder(r))) == multiset(Orders(s))
  {
    var i, j := FindFirst(s, draggedId).value, FindFirst(s, dropId).value;
    SwapOrdersKeepsOrderMultiset(s, i, j);
    OrdersUnderPermutation(SortByOrder(r), r);
  }

  /** The drag state of the module: `draggedElement` and the class markers on the items. */
  class DragSession {
    /** The `.task-item` elements in the document, each bound to the handlers. */
    var items: seq<Item>
    /** `draggedElement`: null until the first drag starts, and never reset afterwards. */
    var dragged: Option<Item>
    /** The items carrying the `dragging` class. */
    var dragging: set<Item>
    /** The items carrying the `drag-over` class. */
    var dragOver: set<Item>

    /** Markers only ever sit on bound items. */
    ghost predicate Valid()
      reads this
    {
      (forall e :: e in dragging ==> e in items) &&
      (forall e :: e in dragOver ==> e in items)
    }

    /** The module as first loaded, with `setupDragAndDrop` having bound `items`. */
    constructor Setup(items: seq<Item>)
      ensures Valid()
      ensures this.items == items && dragged == None && dragging == {} && dragOver == {}
    {
      this.items := items;
      dragged := None;
      dragging := {};
      dragOver := {};
    }

    /** `handleDragStart`: remember the element and mark it `dragging`. */
    method HandleDragStart(element: Item)
      requires Valid() && element in items
      modifies this
      ensures Valid()
      ensures dragged == Some(element)
      ensures dragging == old(dragging) + {element}
      ensures items == old(items) && dragOver == old(dragOver)
    {
      dragged := Some(element);
      dragging := dragging + {element};
    }

    /** `handleDragEnter`: mark the element `drag-over` unless it is the dragged one. */
    method HandleDragEnter(element: Item)
      requires Valid() && element in items
      modifies this
      ensures Valid()
      ensures old(dragged) == Some(element) ==> dragOver == old(dragOver)
      ensures old(dragged) != Some(element) ==> dragOver == old(dragOver) + {element}
      ensures items == old(items) && dragged == old(dragged) && dragging == old(dragging)
    {
      if dragged != Some(element) {
        dragOver := dragOver + {element};
      }
    }

    /** `handleDragLeave`: unmark the element it fired on. */
    method HandleDragLeave(element: Item)
      requires Valid() && element in items
      modifies this
      ensures Valid()
      ensures dragOver == old(dragOver) - {element}
      ensures items == old(items) && dragged == old(dragged) && dragging == old(dragging)
    {
      dragOver := dragOver - {element};
    }

    /** `handleDragEnd`: unmark the ended element's `dragging` and clear `drag-over` on every
        item of the document. `draggedElement` keeps its value. */
    method HandleDragEnd(element: Item)
      requires Valid() && element in items
      modifies this
      ensures Valid()
      ensures dragging == old(dragging) - {element}
      ensures dragOver == {}
      ensures items == old(items) && dragged == old(dragged)
    {
      dragging := dragging - {element};
      var i := 0;
      while i < |items|
        invariant 0 <= i <= |items|
        invariant Valid()
        invariant forall e :: e in dragOver ==> e !in items[..i]
        invariant items == old(items) && dragged == old(dragged)
        invariant dragging == old(dragging) - {element}
      {
        dragOver := dragOver - {items[i]};
        i := i + 1;
      }
      assert items[..|items|] == items;
    }

    /** `handleDrop` on `element`, with `store` holding the `tasks` array the handlers were
        bound with; `renderTasks` is the store's sort. */
    method HandleDrop(element: Item, store: TaskStore.TaskList) returns (outcome: DropOutcome)
      requires Valid() && element in items
      requires store.Valid()
      modifies this, store
      ensures Valid() && store.Valid()
      ensures outcome == NoDraggedItem <==> old(dragged).None?
      ensures outcome == SelfDrop <==> old(dragged) == Some(element)
      ensures outcome == MissingTask <==>
        old(dragged).Some? && old(dragged) != Some(element) &&
        Swapped(old(store.tasks), old(dragged).value.taskId, element.taskId).None?
      ensures outcome == Committed ==>
        store.tasks == SortByOrder(Swapped(old(store.tasks), old(dragged).value.taskId, element.taskId).value)
      ensures outcome != Committed ==> store.tasks == old(store.tasks)
      ensures outcome == NoDraggedItem ==> dragOver == old(dragOver)
      ensures outcome != NoDraggedItem ==> dragOver == old(dragOver) - {element}
      ensures items == old(items) && dragged == old(dragged) && dragging == old(dragging)
    {
      if dragged.None? {
        return NoDraggedItem;
      }
      if dragged.value != element {
        var draggedTask := FindFirst(store.tasks, dragged.value.taskId);
        var dropTask := FindFirst(store.tasks, element.taskId);
        if draggedTask.Some? && dropTask.Some? {
          var i, j := draggedTask.value, dropTask.value;
          var tempOrder := store.tasks[i].order;
          store.tasks := store.tasks[i := store.tasks[i].(order := store.tasks[j].order)];
          store.tasks := store.tasks[j := store.tasks[j].(order := tempOrder)];
          store.Render();
          outcome := Committed;
        } else {
          outcome := MissingTask;
        }
      } else {
        outcome := SelfDrop;
      }
      dragOver := dragOver - {element};
    }
  }
}
