/** The order of the task list view: the comparator handed to
    `Array.prototype.sort` (status rank first, then priority, highest first),
    the stable insertion sort it is modelled by, and that sort run in place
    on an array. */
module Ordering {
  import opened Tasks
  import opened TaskList

  /** `statusOrder`: todo 0, in progress 1, done 2; any other value has no
      rank (the lookup yields `undefined`). */
  function StatusRank(s: Status): (r: Option<int>)
    ensures r.Some? <==> s.IsColumn()
    ensures r.Some? ==> 0 <= r.value <= 2
  {
    match s
    case Todo => Some(0)
    case InProgress => Some(1)
    case Done => Some(2)
    case OtherStatus(_) => None
  }

  /** `priorityOrder`: high 3, medium 2, low 1; any other value has no rank. */
  function PriorityRank(p: Priority): (r: Option<int>)
    ensures r.Some? <==> !p.OtherPriority?
    ensures r.Some? ==> 1 <= r.value <= 3
  {
    match p
    case High => Some(3)
    case Medium => Some(2)
    case Low => Some(1)
    case OtherPriority(_) => None
  }

  /** A JavaScript subtraction of two looked-up ranks; `None` is `NaN`. */
  function Difference(x: Option<int>, y: Option<int>): Option<int> {
    if x.Some? && y.Some? then Some(x.value - y.value) else None
  }

  /** The comparator: by status rank when the statuses differ, otherwise by
      priority rank with the higher priority first. */
  function Compare(a: Task, b: Task): (r: Option<int>)
    ensures r.None? <==> if a.status != b.status then !(a.status.IsColumn() && b.status.IsColumn())
                         else a.priority.OtherPriority? || b.priority.OtherPriority?
    ensures r.Some? && a.status != b.status ==>
              (r.value < 0 <==> StatusRank(a.status).value < StatusRank(b.status).value)
    ensures r.Some? && a.status == b.status ==>
              (r.value < 0 <==> PriorityRank(a.priority).value > PriorityRank(b.priority).value)
    ensures r == Some(0) <==> Tied(a, b) && !a.priority.OtherPriority?
  {
    if a.status != b.status then Difference(StatusRank(a.status), StatusRank(b.status))
    else Difference(PriorityRank(b.priority), PriorityRank(a.priority))
  }

  /** The comparator asks for `b` before `a` (a positive result; `NaN`
      counts as equal). */
  predicate OutOfOrder(a: Task, b: Task) {
    var c := Compare(a, b);
    c.Some? && c.value > 0
  }

  /** The ranks follow the board's columns, todo, in progress, done, and
      priorities from low to high; distinct recognised values never share a
      rank. */
  lemma RanksFollowColumns(s: Status, u: Status, p: Priority, q: Priority)
    ensures StatusRank(Todo).value < StatusRank(InProgress).value < StatusRank(Done).value
    ensures PriorityRank(Low).value < PriorityRank(Medium).value < PriorityRank(High).value
    ensures s.IsColumn() && u.IsColumn() && StatusRank(s) == StatusRank(u) ==> s == u
    ensures !p.OtherPriority? && !q.OtherPriority? && PriorityRank(p) == PriorityRank(q) ==> p == q
  {
  }

  /** The comparator never asks for both orders of one pair. */
  lemma OutOfOrderAsymmetric(a: Task, b: Task)
    ensures OutOfOrder(a, b) ==> !OutOfOrder(b, a)
  {
  }

  /** Tasks with the same status and the same priority: the comparator
      treats them as equal. */
  predicate Tied(a: Task, b: Task) {
    a.status == b.status && a.priority == b.priority
  }

  /** The tasks tied with `x`, as a filter. */
  function TiedWith(x: Task): Task -> bool {
    (t: Task) => Tied(t, x)
  }

  /** A done task and two todo tasks of high and low priority, listed done
      first: the view puts the high one first and the done one last. */
  lemma SortExample(a: Task, b: Task, c: Task)
    requires a.status == Done
    requires b.status == Todo && b.priority == High
    requires c.status == Todo && c.priority == Low
    ensures Sort([a, b, c]) == [b, c, a]
  {
    assert [a, b, c][..2] == [a, b] && [a, b][..1] == [a] && [a][..0] == [];
    assert Sort([a]) == [a];
    assert OutOfOrder(a, b) && [a][..0] == [];
    assert Sort([a, b]) == Insert(b, [a]) == [b, a];
    assert OutOfOrder(a, c) && !OutOfOrder(b, c);
    assert [b, a][..1] == [b];
    assert Insert(c, [b, a]) == Insert(c, [b]) + [a] == [b, c, a];
  }

  /** Inserts `x` into `s` from the right: `x` passes every element the
      comparator puts after it and stops at the first one it does not. */
  function Insert(x: Task, s: seq<Task>): (r: seq<Task>)
    ensures |r| == |s| + 1
    decreases |s|
  {
    if s == [] then [x]
    else if OutOfOrder(s[|s| - 1], x) then Insert(x, s[..|s| - 1]) + [s[|s| - 1]]
    else s + [x]
  }

  /** The sorted view: a stable insertion sort by the comparator. */
  function Sort(s: seq<Task>): (r: seq<Task>)
    ensures |r| == |s|
  {
    if s == [] then [] else Insert(s[|s| - 1], Sort(s[..|s| - 1]))
  }

  /** The last element after an insertion is `x` or the old last element. */
  lemma InsertLast(x: Task, s: seq<Task>)
    ensures var r := Insert(x, s); r[|r| - 1] == x || (s != [] && r[|r| - 1] == s[|s| - 1])
  {
  }

  /** Inserting adds exactly `x`. */
  lemma {:induction false} InsertPermutes(x: Task, s: seq<Task>)
    ensures multiset(Insert(x, s)) == multiset(s) + multiset{x}
    decreases |s|
  {
    if s != [] && OutOfOrder(s[|s| - 1], x) {
      assert s == s[..|s| - 1] + [s[|s| - 1]];
      InsertPermutes(x, s[..|s| - 1]);
    }
  }

  /** The sorted view is a permutation of its input. */
  lemma {:induction false} SortPermutes(s: seq<Task>)
    ensures multiset(Sort(s)) == multiset(s)
  {
    if s != [] {
      assert s == s[..|s| - 1] + [s[|s| - 1]];
      SortPermutes(s[..|s| - 1]);
      InsertPermutes(s[|s| - 1], Sort(s[..|s| - 1]));
    }
  }

  /** No neighbour pair is one the comparator would swap. */
  predicate NeighboursInOrder(s: seq<Task>) {
    |s| < 2 || (!OutOfOrder(s[|s| - 2], s[|s| - 1]) && NeighboursInOrder(s[..|s| - 1]))
  }

  lemma {:induction false} InsertKeepsNeighboursInOrder(x: Task, s: seq<Task>)
    requires NeighboursInOrder(s)
    ensures NeighboursInOrder(Insert(x, s))
    decreases |s|
  {
    if s == [] {
    } else if OutOfOrder(s[|s| - 1], x) {
      var init := s[..|s| - 1];
      var last := s[|s| - 1];
      InsertKeepsNeighboursInOrder(x, init);
      var r := Insert(x, init) + [last];
      assert r[..|r| - 1] == Insert(x, init);
      InsertLast(x, init);
      OutOfOrderAsymmetric(last, x);
    } else {
      assert (s + [x])[..|s|] == s;
    }
  }

  /** Whatever the tasks hold, the comparator would swap no neighbours of
      the sorted view. */
  lemma {:induction false} SortNeighboursInOrder(s: seq<Task>)
    ensures NeighboursInOrder(Sort(s))
  {
    if s != [] {
      SortNeighboursInOrder(s[..|s| - 1]);
      InsertKeepsNeighboursInOrder(s[|s| - 1], Sort(s[..|s| - 1]));
    }
  }

  /** A list whose neighbours are in order is left as it is by the sort. */
  lemma {:induction false} SortKeepsOrderedList(s: seq<Task>)
    requires NeighboursInOrder(s)
    ensures Sort(s) == s
  {
    if s != [] {
      var init := s[..|s| - 1];
      SortKeepsOrderedList(init);
      assert init + [s[|s| - 1]] == s;
    }
  }

  /** Sorting the sorted view again changes nothing. */
  lemma SortIdempotent(s: seq<Task>)
    ensures Sort(Sort(s)) == Sort(s)
  {
    SortNeighboursInOrder(s);
    SortKeepsOrderedList(Sort(s));
  }

  /** Both ranks of the task are defined. */
  predicate Ranked(t: Task) {
    StatusRank(t.status).Some? && PriorityRank(t.priority).Some?
  }

  /** `a` may precede `b`: a lower status rank, or the same status and a
      priority at least as high. */
  predicate InOrder(a: Task, b: Task) {
    && Ranked(a) && Ranked(b)
    && var sa, sb := StatusRank(a.status).value, StatusRank(b.status).value;
       sa < sb || (sa == sb && PriorityRank(a.priority).value >= PriorityRank(b.priority).value)
  }

  /** Every earlier task may precede every later one. */
  predicate SortedByRank(s: seq<Task>) {
    forall i, j :: 0 <= i < j < |s| ==> InOrder(s[i], s[j])
  }

  /** For ranked tasks the comparator's verdict is the two-key order. */
  lemma OutOfOrderRanked(a: Task, b: Task)
    requires Ranked(a) && Ranked(b)
    ensures !OutOfOrder(a, b) <==> InOrder(a, b)
  {
  }

  lemma {:induction false} NeighboursToSorted(s: seq<Task>)
    requires forall t :: t in s ==> Ranked(t)
    requires NeighboursInOrder(s)
    ensures SortedByRank(s)
  {
    if |s| >= 2 {
      var init := s[..|s| - 1];
      assert forall t :: t in init ==> t in s;
      NeighboursToSorted(init);
      OutOfOrderRanked(s[|s| - 2], s[|s| - 1]);
      forall i, j | 0 <= i < j < |s| ensures InOrder(s[i], s[j]) {
        if j < |s| - 1 {
          assert s[i] == init[i] && s[j] == init[j];
        } else if i < |s| - 2 {
          assert InOrder(init[i], init[|s| - 2]);
        }
      }
    }
  }

  /** When every task has a recognised status and priority, the view is
      ordered by status rank and, within one status, by priority from high
      to low. */
  lemma SortedWhenRanked(s: seq<Task>)
    requires forall t :: t in s ==> Ranked(t)
    ensures SortedByRank(Sort(s))
  {
    var r := Sort(s);
    SortPermutes(s);
    assert forall t :: t in r ==> t in multiset(s);
    SortNeighboursInOrder(s);
    NeighboursToSorted(r);
  }

  /** A pair the comparator swaps is never tied, so filtering the pair by
      ties with `y` gives the same result in either order. */
  lemma SwappedPairCommutes(last: Task, x: Task, y: Task)
    requires OutOfOrder(last, x)
    ensures Keep([x], TiedWith(y)) + Keep([last], TiedWith(y))
         == Keep([last], TiedWith(y)) + Keep([x], TiedWith(y))
  {
    KeepOne(x, TiedWith(y));
    KeepOne(last, TiedWith(y));
    assert !(Tied(last, y) && Tied(x, y));
  }

  /** Inserting `x` keeps, among the tasks tied with `y`, the order in which
      they were, with `x` after them. */
  lemma {:induction false} InsertStable(x: Task, s: seq<Task>, y: Task)
    ensures Keep(Insert(x, s), TiedWith(y)) == Keep(s, TiedWith(y)) + Keep([x], TiedWith(y))
    decreases |s|
  {
    var p := TiedWith(y);
    if s == [] {
      assert [] + [x] == [x];
    } else if OutOfOrder(s[|s| - 1], x) {
      var init, last := s[..|s| - 1], s[|s| - 1];
      assert init + [last] == s;
      InsertStable(x, init, y);
      KeepConcat(Insert(x, init), [last], p);
      KeepConcat(init, [last], p);
      SwappedPairCommutes(last, x, y);
      calc {
        Keep(Insert(x, s), p);
        Keep(Insert(x, init) + [last], p);
        Keep(Insert(x, init), p) + Keep([last], p);
        Keep(init, p) + Keep([x], p) + Keep([last], p);
        Keep(init, p) + (Keep([x], p) + Keep([last], p));
        Keep(init, p) + (Keep([last], p) + Keep([x], p));
        Keep(init, p) + Keep([last], p) + Keep([x], p);
        Keep(s, p) + Keep([x], p);
      }
    } else {
      KeepConcat(s, [x], p);
    }
  }

  /** The sort is stable: the tasks the comparator ties keep their relative
      order. */
  lemma {:induction false} SortStable(s: seq<Task>, y: Task)
    ensures Keep(Sort(s), TiedWith(y)) == Keep(s, TiedWith(y))
  {
    if s != [] {
      var init, last := s[..|s| - 1], s[|s| - 1];
      SortStable(init, y);
      InsertStable(last, Sort(init), y);
      KeepConcat(init, [last], TiedWith(y));
      assert init + [last] == s;
    }
  }

  /** One shift of the inner loop: `x` passes `s[j - 1]`. */
  lemma InsertShift(x: Task, s: seq<Task>, j: nat)
    requires 0 < j <= |s| && OutOfOrder(s[j - 1], x)
    ensures Insert(x, s[..j]) + s[j..] == Insert(x, s[..j - 1]) + s[j - 1..]
  {
    assert s[..j][..j - 1] == s[..j - 1];
    assert s[j - 1..] == [s[j - 1]] + s[j..];
  }

  /** Where the inner loop stops, `x` goes. */
  lemma InsertStop(x: Task, s: seq<Task>, j: nat)
    requires j <= |s| && (j == 0 || !OutOfOrder(s[j - 1], x))
    ensures Insert(x, s[..j]) == s[..j] + [x]
  {
  }

  /** Sorting one more element inserts it into the sorted prefix. */
  lemma SortPrefix(s: seq<Task>, i: nat)
    requires i < |s|
    ensures Sort(s[..i + 1]) == Insert(s[i], Sort(s[..i]))
  {
    assert s[..i + 1][..i] == s[..i];
  }

  /** The array after the inner loop: the prefix below `j`, then `x`, then
      the shifted rest of the prefix. */
  lemma Placed(arr: seq<Task>, done: seq<Task>, x: Task, j: nat)
    requires j <= |done| < |arr|
    requires forall k :: 0 <= k < j ==> arr[k] == done[k]
    requires arr[j] == x
    requires forall k :: j < k <= |done| ==> arr[k] == done[k - 1]
    ensures arr[..|done| + 1] == done[..j] + [x] + done[j..]
  {
  }

  /** One pass of the insertion sort: `a[i]` is shifted left into the
      prefix `a[..i]`; the elements after `i` are not touched. */
  method InsertInPlace(a: array<Task>, i: nat)
    requires i < a.Length
    modifies a
    ensures a[..i + 1] == Insert(old(a[i]), old(a[..i]))
    ensures forall k :: i < k < a.Length ==> a[k] == old(a[k])
  {
    ghost var done := a[..i];
    var x := a[i];
    var j := i;
    assert done[..j] == done;
    while j > 0 && OutOfOrder(a[j - 1], x)
      invariant 0 <= j <= i
      invariant forall k :: 0 <= k < j ==> a[k] == done[k]
      invariant forall k :: j < k <= i ==> a[k] == done[k - 1]
      invariant forall k :: i < k < a.Length ==> a[k] == old(a[k])
      invariant Insert(x, done) == Insert(x, done[..j]) + done[j..]
    {
      InsertShift(x, done, j);
      a[j] := a[j - 1];
      j := j - 1;
    }
    InsertStop(x, done, j);
    a[j] := x;
    Placed(a[..], done, x, j);
  }

  /** `a.sort(compare)` in place: insertion sort, each element shifted left
      past the ones the comparator puts after it. */
  method SortInPlace(a: array<Task>)
    modifies a
    ensures a[..] == Sort(old(a[..]))
  {
    ghost var input := a[..];
    var i := 0;
    while i < a.Length
      invariant 0 <= i <= a.Length
      invariant a[..i] == Sort(input[..i])
      invariant forall k :: i <= k < a.Length ==> a[k] == input[k]
    {
      InsertInPlace(a, i);
      SortPrefix(input, i);
      i := i + 1;
    }
    assert input[..a.Length] == input;
  }
}
