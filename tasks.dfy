/** The task record shared by the task store (js/script.js) and the drag-and-drop handlers
    (Components/DnDScripts/DnDScripts.js), with the lookups and the ordering both of them use. */
module Tasks {

  datatype Option<T> = None | Some(value: T)

  /** One entry of the `tasks` array: `{id, text, completed, order}`. */
  datatype Task = Task(id: int, text: string, completed: bool, order: int)

  /** `tasks.find(t => t.id === id)`, as the position of the first record with that id. */
  function FindFirst(s: seq<Task>, id: int): (r: Option<nat>)
    ensures r.Some? ==> r.value < |s| && s[r.value].id == id
    ensures r.Some? ==> forall k :: 0 <= k < r.value ==> s[k].id != id
    ensures r.None? <==> forall k :: 0 <= k < |s| ==> s[k].id != id
  {
    if s == [] then None
    else if s[0].id == id then Some(0)
    else match FindFirst(s[1..], id)
      case None => None
      case Some(k) => Some(k + 1)
  }

  /** The search only looks at ids: two lists with the same ids, position by position,
      have the same first match for every id. */
  lemma FindFirstSeesOnlyIds(s: seq<Task>, t: seq<Task>, id: int)
    requires |s| == |t|
    requires forall k :: 0 <= k < |s| ==> s[k].id == t[k].id
    ensures FindFirst(s, id) == FindFirst(t, id)
  {
  }

  /** No two records share an id. The source never checks this. */
  predicate UniqueIds(s: seq<Task>)
  {
    forall i, j :: 0 <= i < j < |s| ==> s[i].id != s[j].id
  }

  /** Display order: `order` ascending along the array. */
  predicate Sorted(s: seq<Task>)
  {
    forall i, j :: 0 <= i < j < |s| ==> s[i].order <= s[j].order
  }

  /** The `order` values are 0..n-1 without duplicates. */
  predicate Dense(s: seq<Task>)
  {
    (forall i :: 0 <= i < |s| ==> 0 <= s[i].order < |s|) &&
    (forall i, j :: 0 <= i < j < |s| ==> s[i].order != s[j].order)
  }

  /** The `order` column of a list. */
  function Orders(s: seq<Task>): seq<int>
  {
    seq(|s|, k requires 0 <= k < |s| => s[k].order)
  }

  lemma OrdersAppend(a: seq<Task>, b: seq<Task>)
    ensures Orders(a + b) == Orders(a) + Orders(b)
  {
  }

  /** Rearranging the records rearranges their order values: a permutation of a list has
      the same multiset of orders. */
  lemma {:induction false} OrdersUnderPermutation(x: seq<Task>, y: seq<Task>)
    requires multiset(x) == multiset(y)
    ensures multiset(Orders(x)) == multiset(Orders(y))
    decreases |x|
  {
    if x == [] {
      assert |y| == |multiset(y)| == 0;
    } else {
      assert x[0] in multiset(y);
      var p :| 0 <= p < |y| && y[p] == x[0];
      var rest := y[..p] + y[p + 1..];
      assert y == y[..p] + [y[p]] + y[p + 1..];
      assert x == [x[0]] + x[1..];
      assert multiset(y) == multiset(y[..p]) + multiset{y[p]} + multiset(y[p + 1..]);
      assert multiset(x) == multiset{x[0]} + multiset(x[1..]);
      assert multiset(rest) == multiset(y[..p]) + multiset(y[p + 1..]);
      assert multiset(rest) == multiset(y) - multiset{x[0]};
      assert multiset(x[1..]) == multiset(x) - multiset{x[0]};
      OrdersUnderPermutation(x[1..], rest);
      OrdersAppend(y[..p], y[p + 1..]);
      OrdersAppend(y[..p] + [y[p]], y[p + 1..]);
      OrdersAppend(y[..p], [y[p]]);
      OrdersAppend([x[0]], x[1..]);
    }
  }

  /** Places `t` in front of the first record of `s` whose order is not smaller than its own. */
  function InsertByOrder(t: Task, s: seq<Task>): (r: seq<Task>)
    ensures multiset(r) == multiset(s) + multiset{t}
  {
    if s == [] then [t]
    else if t.order <= s[0].order then [t] + s
    else
      assert s == [s[0]] + s[1..];
      [s[0]] + InsertByOrder(t, s[1..])
  }

  lemma {:induction false} InsertByOrderSorted(t: Task, s: seq<Task>)
    requires Sorted(s)
    ensures Sorted(InsertByOrder(t, s))
  {
    if s != [] && t.order > s[0].order {
      var rest := InsertByOrder(t, s[1..]);
      InsertByOrderSorted(t, s[1..]);
      forall k | 0 <= k < |rest| ensures s[0].order <= rest[k].order {
        assert rest[k] in multiset(rest);
        if rest[k] != t {
          assert rest[k] in s[1..];
        }
      }
    }
  }

  /** `tasks.sort((a, b) => a.order - b.order)`: a stable sort by `order` (ECMAScript
      requires `Array.prototype.sort` to be stable). The result is a permutation of the
      input arranged by ascending `order`. */
  function SortByOrder(s: seq<Task>): (r: seq<Task>)
    ensures |r| == |s|
    ensures multiset(r) == multiset(s)
    ensures Sorted(r)
  {
    if s == [] then []
    else
      var r := InsertByOrder(s[0], SortByOrder(s[1..]));
      InsertByOrderSorted(s[0], SortByOrder(s[1..]));
      assert s == [s[0]] + s[1..];
      assert |r| == |multiset(r)|;
      r
  }

  /** The records whose order is `k`, in array order. */
  function WithOrder(s: seq<Task>, k: int): seq<Task>
  {
    if s == [] then [] else (if s[0].order == k then [s[0]] else []) + WithOrder(s[1..], k)
  }

  lemma WithOrderCons(x: Task, s: seq<Task>, k: int)
    ensures WithOrder([x] + s, k) == (if x.order == k then [x] else []) + WithOrder(s, k)
  {
  }

  lemma {:induction false} InsertByOrderStable(t: Task, s: seq<Task>, k: int)
    ensures WithOrder(InsertByOrder(t, s), k) == (if t.order == k then [t] else []) + WithOrder(s, k)
  {
    if s == [] {
      WithOrderCons(t, [], k);
    } else if t.order <= s[0].order {
      WithOrderCons(t, s, k);
    } else {
      var rest := InsertByOrder(t, s[1..]);
      WithOrderCons(s[0], rest, k);
      InsertByOrderStable(t, s[1..], k);
      WithOrderCons(s[0], s[1..], k);
      assert [s[0]] + s[1..] == s;
      // t lands after s[0]; the two cannot both have order k
      if t.order == k {
        assert s[0].order != k;
      }
    }
  }

  /** The sort is stable: records with equal `order` keep their relative positions. */
  lemma {:induction false} SortByOrderStable(s: seq<Task>, k: int)
    ensures WithOrder(SortByOrder(s), k) == WithOrder(s, k)
  {
    if s != [] {
      SortByOrderStable(s[1..], k);
      InsertByOrderStable(s[0], SortByOrder(s[1..]), k);
    }
  }

  /** Sorting a list that is already in display order leaves it as it is. */
  lemma {:induction false} SortSortedIsIdentity(s: seq<Task>)
    requires Sorted(s)
    ensures SortByOrder(s) == s
  {
    if s != [] {
      var rest := s[1..];
      assert Sorted(rest) by {
        forall i, j | 0 <= i < j < |rest| ensures rest[i].order <= rest[j].order {
          assert rest[i] == s[i + 1] && rest[j] == s[j + 1];
        }
      }
      SortSortedIsIdentity(rest);
      assert SortByOrder(s) == InsertByOrder(s[0], rest);
      if rest != [] {
        assert s[0].order <= rest[0].order by { assert rest[0] == s[1]; }
      }
      assert InsertByOrder(s[0], rest) == [s[0]] + rest;
      assert [s[0]] + rest == s;
    }
  }

  /** In a list that is both in display order and dense, every record's order is its position. */
  lemma SortedDenseOrderIsPosition(s: seq<Task>)
    requires Sorted(s) && Dense(s)
    ensures forall k :: 0 <= k < |s| ==> s[k].order == k
  {
    // strictly increasing: at least k from the front, at most k from the back
    forall k | 0 <= k < |s| ensures k <= s[k].order {
      LowerBound(s, k);
    }
    forall k | 0 <= k < |s| ensures s[k].order <= k {
      UpperBound(s, k);
    }
  }

  lemma {:induction false} LowerBound(s: seq<Task>, k: nat)
    requires Sorted(s) && Dense(s) && k < |s|
    ensures k <= s[k].order
  {
    if k > 0 {
      LowerBound(s, k - 1);
      assert s[k - 1].order != s[k].order;
    }
  }

  lemma {:induction false} UpperBound(s: seq<Task>, k: nat)
    requires Sorted(s) && Dense(s) && k < |s|
    ensures s[k].order <= k
    decreases |s| - k
  {
    if k < |s| - 1 {
      UpperBound(s, k + 1);
      assert s[k].order != s[k + 1].order;
    }
  }
}
