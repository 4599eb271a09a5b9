# To-do list: task store and drag-and-drop swap, modelled in Dafny

This project models the in-memory logic of a browser to-do list. The list is one array of
task records `{id, text, completed, order}`, shared by two pieces of code:

- the task store of `js/script.js`: adding a task from the input box, deleting one,
  toggling its completion, committing an edit, sorting the array by `order` when the list
  is rendered, and counting completed tasks;
- the drag-and-drop module of `Components/DnDScripts/DnDScripts.js`: the module-level
  `draggedElement`, the `dragging` and `drag-over` class markers on the list items, and the
  drop handler, which swaps the `order` values of the dragged task and the target task.

Files and modules:

- `strings.dfy` (`Strings`): JavaScript's `String.prototype.trim`, with white space as
  ECMAScript defines it, and the blank check built on it.
- `tasks.dfy` (`Tasks`): the task record, `find` by id, the predicates `Sorted` (display
  order) and `Dense` (orders are 0..n-1 without duplicates), and the stable sort by `order`.
- `task_store.dfy` (`TaskStore`): the effects of the mutators as functions, their lemmas,
  and the class `TaskList` holding the `tasks` array as a `seq` that its methods reassign.
- `drag_and_drop.dfy` (`DragAndDrop`): the order swap as a function, its lemmas, and the
  class `DragSession` holding `draggedElement` and the two marker sets.

Every mutator in `js/script.js` ends with `renderTasks()`. The only data effect of that call
is `tasks.sort((a, b) => a.order - b.order)`, a stable sort. The model performs that sort
after every mutation, as the source does. `TaskList.Valid()` says the array is in display
order. Under that invariant the trailing sort changes nothing, so each method's contract
states the plain effect. The exception is `addTask`, whose new record is sorted into place.
It stays last whenever every earlier order is below the old length, as on a dense list.

The drop handler swaps the `order` values of the dragged task and the target task; it
neither inserts above or below the target nor renumbers the other orders.

The model keeps the following behaviours of the code:

- `handleDragEnd` does not reset `draggedElement`. A later drop that no drag start preceded
  still swaps the previously dragged task with the target.
- Before the first drag start, `draggedElement` is `null`. A drop then reads
  `draggedElement.dataset` and throws. The model reports this as the outcome `NoDraggedItem`,
  with nothing changed. The `drag-over` marker on the target is not removed.
- `deleteTask` renumbers every remaining record even when no record has the id.
- A blank edit deletes the task; `saveEdit` calls `deleteTask`.

## Model

| member | source | states |
|---|---|---|
| `Strings.Trim` | js/script.js:49 | the trimmed text is the slice of the input after its leading white space; what is cut off on both sides is white space; the result neither starts nor ends with white space |
| `Strings.TrimEmptyIffBlank` | js/script.js:49-54 | the trimmed text is empty exactly when every character of the input is white space (the blank check of addTask and saveEdit) |
| `Strings.TrimIdempotent` | js/script.js:113 | trimming an already trimmed text changes nothing |
| `Tasks.FindFirst` | js/script.js:83 | `tasks.find` by id: the result is a position holding the id with no earlier position holding it, and it is absent exactly when no record has the id |
| `Tasks.FindFirstSeesOnlyIds` | Components/DnDScripts/DnDScripts.js:63-64 | two lists with the same ids position by position give the same first match, so changing orders, texts or flags never changes which record a lookup finds |
| `Tasks.SortByOrder` | js/script.js:136 | the sort in renderTasks returns a permutation of its input (same length, same multiset) in ascending `order` |
| `Tasks.SortByOrderStable` | js/script.js:136 | the sort is stable: the records with any one order value appear in the same relative order before and after |
| `Tasks.SortSortedIsIdentity` | js/script.js:136 | sorting a list that is already in ascending order returns it unchanged |
| `Tasks.SortedDenseOrderIsPosition` | js/script.js:134-136 | in a list that is sorted and dense, every record's order equals its position |
| `TaskStore.WithoutId` | js/script.js:72 | no record of the filtered list has the deleted id, and it is no longer than the input |
| `TaskStore.WithoutIdKeepsOthers` | js/script.js:72 | every record with another id survives the filter exactly as many times as it occurred |
| `TaskStore.WithoutIdAppend` | js/script.js:72 | filtering a concatenation concatenates the filtered parts, so survivors keep their relative order |
| `TaskStore.Deleted` | js/script.js:71-76 | after deleteTask no record has the id, every record's order equals its position, and apart from `order` the records are those of the filtered list, in its order |
| `TaskStore.DeletedIsDenseAndSorted` | js/script.js:74-76 | after a delete the orders are 0..n-1 without duplicates and in ascending order |
| `TaskStore.DeleteAbsentOnDenseIsIdentity` | js/script.js:71-76 | deleting an id no record has leaves a dense, sorted list unchanged |
| `TaskStore.Toggled` | js/script.js:82-88 | toggleComplete keeps the length and every field but `completed`, and `completed` changes exactly on the first record with the id (nowhere when there is none) |
| `TaskStore.ToggledTwice` | js/script.js:85 | toggling the same id twice restores the list |
| `TaskStore.ToggledFlipsExactlyTheId` | js/script.js:83-85 | with unique ids, toggle flips `completed` exactly on the records with that id |
| `TaskStore.ToggledCount` | js/script.js:82-88 | a toggle moves the completed count down by one when the record was completed, up by one when it was not, and not at all when no record has the id |
| `TaskStore.Retexted` | js/script.js:119 | a non-blank edit keeps the length and every field but `text`; the first record with the id gets the new text and every other record keeps its own |
| `TaskStore.AppendNewKeepsItLast` | js/script.js:56-65 | on a sorted list whose orders are all below its length, the sort after the push leaves the new record last and every earlier record where it was |
| `TaskStore.AppendNewKeepsDense` | js/script.js:56-63 | appending a record whose order is the old length keeps a dense list dense |
| `TaskStore.CountCompleted` | js/script.js:43 | the completed count is at most the number of tasks |
| `TaskStore.CountCompletedCountsTrue` | js/script.js:42-43 | the completed count is the number of records whose `completed` is true |
| `TaskStore.TaskList.Load` | js/script.js:9-11 | after loading and the first render, `tasks` is the stored list sorted by order |
| `TaskStore.TaskList.Render` | js/script.js:134-136 | renderTasks replaces `tasks` with its sort by order |
| `TaskStore.TaskList.AddTask` | js/script.js:48-68 | a blank input is rejected and leaves `tasks` unchanged; otherwise one record with the trimmed text, `completed` false and order equal to the old length is added and the list re-sorted, and on a list whose orders are below its length it is simply appended |
| `TaskStore.TaskList.DeleteTask` | js/script.js:71-79 | `tasks` becomes the records without the id, renumbered by position (the filter loop followed by the renumbering loop) |
| `TaskStore.TaskList.ToggleComplete` | js/script.js:82-89 | `tasks` becomes the list with the first matching record's `completed` flipped, and stays unchanged without a match |
| `TaskStore.TaskList.SaveEdit` | js/script.js:112-122 | a blank edit has exactly deleteTask's effect; any other edit gives the first record with the id the trimmed text and changes nothing else |
| `TaskStore.TaskList.UpdateTaskCount` | js/script.js:41-45 | the shown numbers are the count of completed records and the length, the first at most the second |
| `DragAndDrop.SwapOrders` | Components/DnDScripts/DnDScripts.js:68-70 | the first record gets the second's old order and the second the first's; no other field of these two and no other record changes |
| `DragAndDrop.Swapped` | Components/DnDScripts/DnDScripts.js:59-70 | a drop changes nothing when either id has no record; otherwise the two first matches exchange their orders and everything else stays |
| `DragAndDrop.SwapOrdersKeepsOrderMultiset` | Components/DnDScripts/DnDScripts.js:68-70 | the swap preserves the multiset of order values |
| `DragAndDrop.SwapOrdersKeepsDense` | Components/DnDScripts/DnDScripts.js:68-70 | the swap keeps a dense list dense |
| `DragAndDrop.SwapOrdersTwice` | Components/DnDScripts/DnDScripts.js:68-70 | swapping the same two positions twice restores the list |
| `DragAndDrop.SwappedTwice` | Components/DnDScripts/DnDScripts.js:63-70 | dropping the same pair twice restores the list, because the swap changes no id and both lookups find the same records again |
| `DragAndDrop.DenseUnderPermutation` | js/script.js:136 | density depends only on which records there are, so any permutation of a dense list, the re-render's sort among them, is dense |
| `DragAndDrop.DropOnDenseListOrderIsPosition` | Components/DnDScripts/DnDScripts.js:66-74 | on a dense list, a committed drop followed by the re-render's sort leaves the orders dense again, each record's order equal to its position |
| `DragAndDrop.DropKeepsOrderMultiset` | Components/DnDScripts/DnDScripts.js:66-74 | a committed drop followed by the re-render's sort leaves exactly the order values the list had before, as a multiset |
| `Tasks.OrdersUnderPermutation` | js/script.js:136 | rearranging the records, as the re-render's sort does, keeps the multiset of their order values |
| `DragAndDrop.DragSession.Setup` | Components/DnDScripts/DnDScripts.js:1-16 | initially `draggedElement` is null and no item carries a marker |
| `DragAndDrop.DragSession.HandleDragStart` | Components/DnDScripts/DnDScripts.js:19-24 | `draggedElement` becomes the item, which is marked `dragging`; nothing else changes |
| `DragAndDrop.DragSession.HandleDragEnter` | Components/DnDScripts/DnDScripts.js:43-47 | `drag-over` is added to the item unless it is `draggedElement`, in which case nothing changes |
| `DragAndDrop.DragSession.HandleDragLeave` | Components/DnDScripts/DnDScripts.js:49-51 | `drag-over` is removed from the item and nothing else changes |
| `DragAndDrop.DragSession.HandleDragEnd` | Components/DnDScripts/DnDScripts.js:26-33 | the ended item loses `dragging`, no item carries `drag-over` afterwards, and `draggedElement` keeps its value |
| `DragAndDrop.DragSession.HandleDrop` | Components/DnDScripts/DnDScripts.js:53-80 | a self-drop or a drop with a missing task changes no order and neither saves nor renders; otherwise the tasks become the swapped list sorted by order; the target loses `drag-over` unless `draggedElement` is null, which throws first |

## Left out

- Persistence: `loadTasks` and `saveTasks` read and write `localStorage` through `JSON.parse`
  and `JSON.stringify`. This is I/O, so the stored list is a parameter of
  `TaskList.Load` and saving is not modelled. A stored value that does not parse makes
  `JSON.parse` throw; nothing in the source handles it, and the model does not cover it.
- `updateTaskCount` writes its two numbers into the page as text; only the numbers are modelled.
- DOM construction and wiring: `createTaskElement`, the `innerHTML` rendering, input focus and
  selection, the listeners of `setupEventListeners` and of `editTask`, and the
  `querySelectorAll`/`addEventListener` binding in `setupDragAndDrop` are browser calls.
- Re-rendering after a committed drop replaces the list items and binds the handlers again.
  The model keeps one fixed set of items per `DragSession`, so it does not capture the fresh
  elements or the stale `draggedElement` that then refers to a removed element.
- `dataTransfer`, `preventDefault`, `stopPropagation`, `dropEffect` and `handleDragOver` are
  browser drag-and-drop API calls with no logic of their own.
- Id generation: `Date.now()` is a clock, so the new id is a parameter of `AddTask`.
  `parseInt(element.dataset.id)` is abstracted: an item carries its task id as an integer.
- Object identity of records: the source mutates the record objects that `find` returns. The
  model updates the list by position, which has the same effect on `tasks`. `saveEdit` holds
  the record found when editing began, while `TaskList.SaveEdit` looks the id up again at
  commit time. The two pick the same record unless ids are duplicated.
- The exception thrown by a drop while `draggedElement` is null is modelled as the outcome
  `NoDraggedItem` of `DragSession.HandleDrop`; its propagation is not modelled.
- JavaScript numbers are doubles and `a.order - b.order` is a floating-point comparison; the
  model uses unbounded integers for ids and orders.
