/** The read side of the board: the filter selector, the search box, the
    sorted list view and the statistics dashboard. */
module Queries {
  import opened Text
  import opened Tasks
  import opened TaskList
  import opened Ordering

  /** The filter selector: every task, one of the four named filters, or one
      category. */
  datatype Filter = All | Completed | Pending | DueToday | Overdue | InCategory(category: Category)

  /** Status `done`. */
  predicate IsCompleted(t: Task) {
    t.status == Done
  }

  /** Status `todo` or `inprogress`. */
  predicate IsPending(t: Task) {
    t.status == Todo || t.status == InProgress
  }

  /** Has a due date strictly before `today` and is not done; a task without
      a due date is never overdue. */
  predicate IsOverdue(t: Task, today: Day)
    ensures IsOverdue(t, today) ==> t.dueDate.Some? && t.dueDate != Some(today) && !IsCompleted(t)
  {
    t.dueDate.Some? && t.dueDate.value < today && t.status != Done
  }

  /** The overdue test as a filter. */
  function OverdueOn(today: Day): Task -> bool {
    (t: Task) => IsOverdue(t, today)
  }

  /** The test the filter selector applies to one task. */
  predicate MatchesFilter(t: Task, f: Filter, today: Day)
    ensures f == All ==> MatchesFilter(t, f, today)
    ensures f == Completed ==> (MatchesFilter(t, f, today) <==> t.status == Done)
    ensures f == Pending ==> (MatchesFilter(t, f, today) <==> t.status.IsColumn() && t.status != Done)
    ensures f == DueToday ==> (MatchesFilter(t, f, today) <==> t.dueDate == Some(today))
    ensures f == Overdue ==> (MatchesFilter(t, f, today) <==> IsOverdue(t, today))
    ensures f == Overdue && MatchesFilter(t, f, today) ==> t.status != Done && t.dueDate != Some(today)
    ensures f.InCategory? ==> (MatchesFilter(t, f, today) <==> t.category == Some(f.category))
  {
    match f
    case All => true
    case Completed => IsCompleted(t)
    case Pending => IsPending(t)
    case DueToday => t.dueDate == Some(today)
    case Overdue => IsOverdue(t, today)
    case InCategory(c) => t.category == Some(c)
  }

  /** The filter selector as a filter. */
  function FilterFor(f: Filter, today: Day): Task -> bool {
    (t: Task) => MatchesFilter(t, f, today)
  }

  /** The search test: the lower-cased term occurs in the lower-cased title
      or the lower-cased description. */
  predicate MatchesSearch(t: Task, term: string)
    ensures term == [] ==> MatchesSearch(t, term)
    ensures MatchesSearch(t, term) ==> |term| <= |t.title| || |term| <= |t.description|
  {
    ContainsEmpty(ToLower(t.title));
    Contains(ToLower(t.title), ToLower(term)) || Contains(ToLower(t.description), ToLower(term))
  }

  /** The search test as a filter. */
  function SearchFor(term: string): Task -> bool {
    (t: Task) => MatchesSearch(t, term)
  }

  /** The tasks the selector and the search box let through, in list order:
      the selector is applied unless it is `All`, then the search unless the
      term is empty. */
  function Select(s: seq<Task>, f: Filter, term: string, today: Day): (r: seq<Task>)
    ensures |r| <= |s|
    ensures forall x :: x in r <==> x in s && MatchesFilter(x, f, today) && MatchesSearch(x, term)
  {
    var byFilter := if f == All then s else Keep(s, FilterFor(f, today));
    KeepMembers(s, FilterFor(f, today));
    KeepMembers(byFilter, SearchFor(term));
    assert forall x :: MatchesSearch(x, "") by {
      forall x ensures MatchesSearch(x, "") {
        ContainsEmpty(ToLower(x.title));
      }
    }
    if term == "" then byFilter else Keep(byFilter, SearchFor(term))
  }

  /** The list view: the selected tasks sorted by status, then priority.
      It holds exactly the selected tasks, each as often as the selection
      holds it. */
  function View(s: seq<Task>, f: Filter, term: string, today: Day): (r: seq<Task>)
    ensures multiset(r) == multiset(Select(s, f, term, today))
    ensures forall x :: x in r <==> x in s && MatchesFilter(x, f, today) && MatchesSearch(x, term)
  {
    var selected := Select(s, f, term, today);
    SortPermutes(selected);
    assert forall x :: x in Sort(selected) <==> x in multiset(selected);
    Sort(selected)
  }

  /** With every status and priority recognised, the view is ordered by
      status rank, then by priority from high to low. */
  lemma ViewSorted(s: seq<Task>, f: Filter, term: string, today: Day)
    requires forall t :: t in s ==> Ranked(t)
    ensures SortedByRank(View(s, f, term, today))
  {
    SortedWhenRanked(Select(s, f, term, today));
  }

  /** Tasks that the comparator ties appear in the view in list order. */
  lemma ViewStable(s: seq<Task>, f: Filter, term: string, today: Day, y: Task)
    ensures Keep(View(s, f, term, today), TiedWith(y)) == Keep(Select(s, f, term, today), TiedWith(y))
  {
    SortStable(Select(s, f, term, today), y);
  }

  /** Without a filter or a search term every task is selected, in list order. */
  lemma SelectAllEmpty(s: seq<Task>, today: Day)
    ensures Select(s, All, "", today) == s
  {
  }

  /** The aliased case: once the view without filter or search has been
      written back over the list, computing it again yields the same view. */
  lemma ViewAgain(s: seq<Task>, today: Day)
    ensures View(View(s, All, "", today), All, "", today) == View(s, All, "", today)
  {
    SortIdempotent(s);
  }

  /** For a task with a column status, `completed` and `pending` are
      complementary. */
  lemma CompletedPendingComplement(t: Task, today: Day)
    requires t.status.IsColumn()
    ensures MatchesFilter(t, Completed, today) <==> !MatchesFilter(t, Pending, today)
  {
  }

  /** The four numbers of the dashboard. */
  datatype TaskStats = TaskStats(total: nat, completed: nat, pending: nat, overdue: nat)

  /** `getTaskStats`: the task count and the counts of done, pending and
      overdue tasks. Completed and pending tasks are disjoint, and overdue
      tasks are never completed; with every status a column status the
      completed and pending tasks make up the whole list and every overdue
      task is pending. */
  function Stats(s: seq<Task>, today: Day): (r: TaskStats)
    ensures r.total == |s|
    ensures r.completed + r.pending <= r.total
    ensures r.completed + r.overdue <= r.total
    ensures (forall t :: t in s ==> t.status.IsColumn()) ==>
              r.completed + r.pending == r.total && r.overdue <= r.pending
  {
    var completed := Keep(s, IsCompleted);
    var pending := Keep(s, IsPending);
    var overdue := Keep(s, OverdueOn(today));
    KeepDisjoint(s, IsCompleted, IsPending);
    KeepDisjoint(s, IsCompleted, OverdueOn(today));
    assert (forall t :: t in s ==> t.status.IsColumn()) ==> |overdue| <= |pending| by {
      if forall t :: t in s ==> t.status.IsColumn() {
        KeepMonotone(s, OverdueOn(today), IsPending);
      }
    }
    TaskStats(|s|, |completed|, |pending|, |overdue|)
  }

  /** The `completed`, `pending` and `overdue` views without a search term
      hold exactly as many tasks as the dashboard counts. */
  lemma ViewCountsMatchStats(s: seq<Task>, today: Day)
    ensures |View(s, Completed, "", today)| == Stats(s, today).completed
    ensures |View(s, Pending, "", today)| == Stats(s, today).pending
    ensures |View(s, Overdue, "", today)| == Stats(s, today).overdue
  {
    KeepAgree(s, FilterFor(Completed, today), IsCompleted);
    KeepAgree(s, FilterFor(Pending, today), IsPending);
    KeepAgree(s, FilterFor(Overdue, today), OverdueOn(today));
  }

  /** Filtered counts depend only on which tasks the list holds, not on
      their order: inserting adds `x`'s share. */
  lemma {:induction false} InsertCount(x: Task, s: seq<Task>, p: Task -> bool)
    ensures |Keep(Insert(x, s), p)| == |Keep(s, p)| + |Keep([x], p)|
    decreases |s|
  {
    if s == [] {
    } else if OutOfOrder(s[|s| - 1], x) {
      var init, last := s[..|s| - 1], s[|s| - 1];
      InsertCount(x, init, p);
      KeepConcat(Insert(x, init), [last], p);
      KeepConcat(init, [last], p);
      assert init + [last] == s;
    } else {
      KeepConcat(s, [x], p);
    }
  }

  /** Filtered counts are the same before and after sorting. */
  lemma {:induction false} SortCount(s: seq<Task>, p: Task -> bool)
    ensures |Keep(Sort(s), p)| == |Keep(s, p)|
  {
    if s != [] {
      var init, last := s[..|s| - 1], s[|s| - 1];
      SortCount(init, p);
      InsertCount(last, Sort(init), p);
      KeepConcat(init, [last], p);
      assert init + [last] == s;
    }
  }

  /** Sorting the list in place, as the unfiltered view does, leaves the
      dashboard unchanged. */
  lemma StatsIgnoreOrder(s: seq<Task>, today: Day)
    ensures Stats(Sort(s), today) == Stats(s, today)
  {
    SortCount(s, IsCompleted);
    SortCount(s, IsPending);
    SortCount(s, OverdueOn(today));
  }

  /** A newly created task counts once more in the total and the pending
      count; completed and overdue stay as they were (it is `todo`). */
  lemma CreateStats(s: seq<Task>, id: string, d: Draft, today: Day)
    ensures var before, after := Stats(s, today), Stats([NewTask(id, d)] + s, today);
            && after.total == before.total + 1
            && after.pending == before.pending + 1
            && after.completed == before.completed
            && after.overdue == before.overdue + (if IsOverdue(NewTask(id, d), today) then 1 else 0)
  {
    var t := NewTask(id, d);
    KeepConcat([t], s, IsCompleted);
    KeepConcat([t], s, IsPending);
    KeepConcat([t], s, OverdueOn(today));
  }

  /** The demo tasks: two tasks, one done and one pending, none overdue. */
  lemma SampleStats(today: Day, now: Instant)
    ensures Stats(SampleTasks(today, now), today) == TaskStats(2, 1, 1, 0)
    ensures UniqueIds(SampleTasks(today, now))
  {
    var s := SampleTasks(today, now);
    assert s == [s[0]] + [s[1]];
    KeepConcat([s[0]], [s[1]], IsCompleted);
    KeepConcat([s[0]], [s[1]], IsPending);
    KeepConcat([s[0]], [s[1]], OverdueOn(today));
  }

  /** A term found in neither the title nor the description of any task
      yields an empty view. */
  lemma SearchMissEmpty(s: seq<Task>, f: Filter, term: string, today: Day)
    requires forall t :: t in s ==> !MatchesSearch(t, term)
    ensures View(s, f, term, today) == []
  {
    var byFilter := if f == All then s else Keep(s, FilterFor(f, today));
    KeepMembers(s, FilterFor(f, today));
    KeepNone(byFilter, SearchFor(term));
    if term == "" {
      forall t ensures MatchesSearch(t, "") {
        ContainsEmpty(ToLower(t.title));
      }
      KeepAll(byFilter, SearchFor(term));
    }
  }

  /** The search ignores case: a term and its lower-cased form select alike. */
  lemma SearchIgnoresCase(t: Task, term: string)
    ensures MatchesSearch(t, ToLower(term)) == MatchesSearch(t, term)
  {
    ToLowerIdempotent(term);
  }
}
