/** The list operations the handlers apply to the task array: `filter`,
    `map` over the tasks with a given id, and `find`. */
module TaskList {
  import opened Tasks

  /** `s.filter(p)`: the elements of `s` that satisfy `p`, in their order. */
  function Keep(s: seq<Task>, p: Task -> bool): (r: seq<Task>)
    ensures |r| <= |s|
  {
    if s == [] then []
    else if p(s[0]) then [s[0]] + Keep(s[1..], p)
    else Keep(s[1..], p)
  }

  /** The filtered list holds exactly the elements of `s` that satisfy `p`. */
  lemma {:induction false} KeepMembers(s: seq<Task>, p: Task -> bool)
    ensures forall x :: x in Keep(s, p) <==> x in s && p(x)
  {
    if s != [] {
      assert s == [s[0]] + s[1..];
      KeepMembers(s[1..], p);
    }
  }

  /** Filtering keeps every element that satisfies `p` as often as it occurs. */
  lemma {:induction false} KeepMultiset(s: seq<Task>, p: Task -> bool, x: Task)
    ensures multiset(Keep(s, p))[x] == if p(x) then multiset(s)[x] else 0
  {
    if s != [] {
      assert s == [s[0]] + s[1..];
      KeepMultiset(s[1..], p, x);
    }
  }

  /** Filtering a concatenation filters each part: the order is kept. */
  lemma {:induction false} KeepConcat(a: seq<Task>, b: seq<Task>, p: Task -> bool)
    ensures Keep(a + b, p) == Keep(a, p) + Keep(b, p)
  {
    if a == [] {
      assert a + b == b;
    } else {
      var ab := a + b;
      assert ab[0] == a[0] && ab[1..] == a[1..] + b;
      KeepConcat(a[1..], b, p);
      if p(a[0]) {
        calc {
          Keep(ab, p);
          [a[0]] + Keep(a[1..] + b, p);
          [a[0]] + (Keep(a[1..], p) + Keep(b, p));
          ([a[0]] + Keep(a[1..], p)) + Keep(b, p);
        }
      }
    }
  }

  /** Filtering with a predicate that every element satisfies changes nothing. */
  lemma {:induction false} KeepAll(s: seq<Task>, p: Task -> bool)
    requires forall x :: x in s ==> p(x)
    ensures Keep(s, p) == s
  {
    if s != [] {
      KeepAll(s[1..], p);
    }
  }

  /** Filtering with a predicate no element satisfies leaves nothing. */
  lemma {:induction false} KeepNone(s: seq<Task>, p: Task -> bool)
    requires forall x :: x in s ==> !p(x)
    ensures Keep(s, p) == []
  {
    if s != [] {
      assert s[0] in s;
      KeepNone(s[1..], p);
    }
  }

  /** Filtering one element. */
  lemma KeepOne(x: Task, p: Task -> bool)
    ensures Keep([x], p) == if p(x) then [x] else []
  {
    assert [x][1..] == [];
  }

  /** Two predicates that agree on every element filter alike. */
  lemma {:induction false} KeepAgree(s: seq<Task>, p: Task -> bool, q: Task -> bool)
    requires forall x :: x in s ==> p(x) == q(x)
    ensures Keep(s, p) == Keep(s, q)
  {
    if s != [] {
      KeepAgree(s[1..], p, q);
    }
  }

  /** A predicate implied by another keeps at least as many elements. */
  lemma {:induction false} KeepMonotone(s: seq<Task>, p: Task -> bool, q: Task -> bool)
    requires forall x :: x in s && p(x) ==> q(x)
    ensures |Keep(s, p)| <= |Keep(s, q)|
  {
    if s != [] {
      KeepMonotone(s[1..], p, q);
    }
  }

  /** Two predicates no element satisfies together keep at most `|s|`
      elements between them, and exactly `|s|` when every element satisfies
      one of them. */
  lemma {:induction false} KeepDisjoint(s: seq<Task>, p: Task -> bool, q: Task -> bool)
    requires forall x :: x in s ==> !(p(x) && q(x))
    ensures |Keep(s, p)| + |Keep(s, q)| <= |s|
    ensures (forall x :: x in s ==> p(x) || q(x)) ==> |Keep(s, p)| + |Keep(s, q)| == |s|
  {
    if s != [] {
      KeepDisjoint(s[1..], p, q);
    }
  }

  /** Some task in `s` has id `id`. */
  predicate HasId(s: seq<Task>, id: string) {
    exists i :: 0 <= i < |s| && s[i].id == id
  }

  /** No two tasks of `s` share an id. */
  predicate UniqueIds(s: seq<Task>) {
    forall i, j :: 0 <= i < j < |s| ==> s[i].id != s[j].id
  }

  /** `s.find(t => t.id === id)`: the first task with that id, if any. */
  function FindById(s: seq<Task>, id: string): (r: Option<Task>)
    ensures r.None? <==> !HasId(s, id)
    ensures r.Some? ==> exists i :: 0 <= i < |s| && s[i] == r.value && r.value.id == id
                                    && forall j :: 0 <= j < i ==> s[j].id != id
  {
    if s == [] then None
    else if s[0].id == id then Some(s[0])
    else
      var r := FindById(s[1..], id);
      assert HasId(s, id) ==> HasId(s[1..], id) by {
        if HasId(s, id) {
          var i :| 0 <= i < |s| && s[i].id == id;
          assert s[1..][i - 1].id == id;
        }
      }
      if r.Some? then
        var i :| 0 <= i < |s[1..]| && s[1..][i] == r.value && r.value.id == id
                 && forall j :: 0 <= j < i ==> s[1..][j].id != id;
        assert s[i + 1] == r.value && forall j :: 0 <= j < i + 1 ==> s[j].id != id;
        r
      else r
  }

  /** `s.map(t => t.id === id ? f(t) : t)`: every task with id `id` is
      replaced by `f` of it, every other task stays where it was. */
  function ApplyWhere(s: seq<Task>, id: string, f: Task -> Task): (r: seq<Task>)
    ensures |r| == |s|
    ensures forall i :: 0 <= i < |s| ==> r[i] == if s[i].id == id then f(s[i]) else s[i]
  {
    seq(|s|, i requires 0 <= i < |s| => if s[i].id == id then f(s[i]) else s[i])
  }

  /** A `map` over an id no task has leaves the list as it was. */
  lemma ApplyWhereAbsent(s: seq<Task>, id: string, f: Task -> Task)
    requires !HasId(s, id)
    ensures ApplyWhere(s, id, f) == s
  {
  }

  /** A `map` whose replacement keeps ids keeps every position's id, so the
      ids stay unique when they were. */
  lemma ApplyWhereKeepsIds(s: seq<Task>, id: string, f: Task -> Task)
    requires forall t :: f(t).id == t.id
    ensures forall i :: 0 <= i < |s| ==> ApplyWhere(s, id, f)[i].id == s[i].id
    ensures UniqueIds(s) ==> UniqueIds(ApplyWhere(s, id, f))
  {
  }

  /** The filter `handleDelete` applies: the tasks whose id is not `id`. */
  function WithoutId(id: string): Task -> bool {
    (t: Task) => t.id != id
  }

  /** The tasks whose id is `id`. */
  function WithId(id: string): Task -> bool {
    (t: Task) => t.id == id
  }

  /** `s.filter(t => t.id !== id)`: every task with id `id` is gone, every
      other task is kept, as often as it was and in its order. */
  function RemoveId(s: seq<Task>, id: string): (r: seq<Task>)
    ensures !HasId(r, id)
    ensures forall x: Task :: x.id != id ==> multiset(r)[x] == multiset(s)[x]
  {
    var r := Keep(s, WithoutId(id));
    KeepMembers(s, WithoutId(id));
    forall x: Task | x.id != id ensures multiset(r)[x] == multiset(s)[x] {
      KeepMultiset(s, WithoutId(id), x);
    }
    assert forall i :: 0 <= i < |r| ==> r[i].id != id by {
      forall i | 0 <= i < |r| ensures r[i].id != id {
        assert r[i] in r;
      }
    }
    r
  }

  /** Deleting from a concatenation deletes from each part: the survivors
      keep their relative order. */
  lemma RemoveConcat(a: seq<Task>, b: seq<Task>, id: string)
    ensures RemoveId(a + b, id) == RemoveId(a, id) + RemoveId(b, id)
  {
    KeepConcat(a, b, WithoutId(id));
  }

  /** Deleting an id no task has is a no-op. */
  lemma RemoveAbsent(s: seq<Task>, id: string)
    requires !HasId(s, id)
    ensures RemoveId(s, id) == s
  {
    assert forall x :: x in s ==> WithoutId(id)(x) by {
      forall x | x in s ensures x.id != id {
        var i :| 0 <= i < |s| && s[i] == x;
      }
    }
    KeepAll(s, WithoutId(id));
  }

  /** Deleting twice is deleting once. */
  lemma RemoveIdempotent(s: seq<Task>, id: string)
    ensures RemoveId(RemoveId(s, id), id) == RemoveId(s, id)
  {
    RemoveAbsent(RemoveId(s, id), id);
  }

  /** Deleting an id removes exactly the tasks carrying it. */
  lemma {:induction false} RemoveCount(s: seq<Task>, id: string)
    ensures |RemoveId(s, id)| + |Keep(s, WithId(id))| == |s|
  {
    KeepDisjoint(s, WithoutId(id), WithId(id));
  }

  /** Keeping part of a list with unique ids keeps the ids unique. */
  lemma {:induction false} KeepUnique(s: seq<Task>, p: Task -> bool)
    requires UniqueIds(s)
    ensures UniqueIds(Keep(s, p))
  {
    if s != [] {
      KeepUnique(s[1..], p);
      var rest := Keep(s[1..], p);
      KeepMembers(s[1..], p);
      forall x | x in rest ensures x.id != s[0].id {
        var i :| 0 <= i < |s[1..]| && s[1..][i] == x;
        assert s[i + 1] == x;
      }
      if p(s[0]) {
        var r := [s[0]] + rest;
        forall i, j | 0 <= i < j < |r| ensures r[i].id != r[j].id {
          if i == 0 {
            assert r[j] in rest;
          } else {
            assert r[i] == rest[i - 1] && r[j] == rest[j - 1];
          }
        }
      }
    }
  }

  /** After a delete, editing or moving the deleted id finds nothing to change. */
  lemma ApplyAfterRemove(s: seq<Task>, id: string, f: Task -> Task)
    ensures ApplyWhere(RemoveId(s, id), id, f) == RemoveId(s, id)
  {
    ApplyWhereAbsent(RemoveId(s, id), id, f);
  }
}
