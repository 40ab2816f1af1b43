/**
  The task list itself: the `Todo` record, toggle and delete by id, and the
  counts the summary line shows. Every operation is a pure function of the
  old list. Toggle is a `map` and delete is a `filter`, so both act on every
  entry whose id matches. "Exactly one entry" holds only when the ids are
  pairwise distinct.
 */
module Todos {

  /** One task. Ids are numbers taken from the clock when the task is added. */
  datatype Todo = Todo(id: int, text: string, completed: bool)

  /** Some entry of the list carries `id`. */
  predicate HasId(todos: seq<Todo>, id: int) {
    exists i :: 0 <= i < |todos| && todos[i].id == id
  }

  /** No two entries share an id. */
  predicate DistinctIds(todos: seq<Todo>) {
    forall i, j :: 0 <= i < j < |todos| ==> todos[i].id != todos[j].id
  }

  /** `a` is `b` with some entries removed and the rest kept in order. */
  predicate IsSubsequence<T(==)>(a: seq<T>, b: seq<T>)
    decreases |b|
  {
    if a == [] then true
    else if b == [] then false
    else if a[0] == b[0] then IsSubsequence(a[1..], b[1..])
    else IsSubsequence(a, b[1..])
  }

  /** How many entries carry `id`. */
  function CountId(todos: seq<Todo>, id: int): nat {
    if todos == [] then 0
    else (if todos[0].id == id then 1 else 0) + CountId(todos[1..], id)
  }

  /** The checkbox handler: every entry with a matching id has its
      `completed` flag flipped; every field of every other entry, and the
      id and text of the matching ones, are kept. */
  function Toggle(todos: seq<Todo>, id: int): (r: seq<Todo>)
    ensures |r| == |todos|
    ensures forall i :: 0 <= i < |todos| ==>
      && r[i].id == todos[i].id
      && r[i].text == todos[i].text
      && r[i].completed == (if todos[i].id == id then !todos[i].completed else todos[i].completed)
  {
    if todos == [] then []
    else
      var t := todos[0];
      [if t.id == id then t.(completed := !t.completed) else t] + Toggle(todos[1..], id)
  }

  /** An id that no entry carries leaves the list identical. */
  lemma ToggleAbsent(todos: seq<Todo>, id: int)
    requires !HasId(todos, id)
    ensures Toggle(todos, id) == todos
  {
    var r := Toggle(todos, id);
    forall i | 0 <= i < |todos| ensures r[i] == todos[i] {
      assert todos[i].id != id;
    }
  }

  /** Toggling the same id twice restores the list. */
  lemma ToggleInvolution(todos: seq<Todo>, id: int)
    ensures Toggle(Toggle(todos, id), id) == todos
  {
    var r := Toggle(Toggle(todos, id), id);
    forall i | 0 <= i < |todos| ensures r[i] == todos[i] {
    }
  }

  /** With distinct ids, toggling the id of entry `k` changes entry `k` only. */
  lemma ToggleChangesOnlyOne(todos: seq<Todo>, k: int)
    requires DistinctIds(todos)
    requires 0 <= k < |todos|
    ensures Toggle(todos, todos[k].id)[k] == todos[k].(completed := !todos[k].completed)
    ensures forall i :: 0 <= i < |todos| && i != k ==> Toggle(todos, todos[k].id)[i] == todos[i]
  {
    var r := Toggle(todos, todos[k].id);
    forall i | 0 <= i < |todos| && i != k ensures r[i] == todos[i] {
      assert todos[i].id != todos[k].id;
    }
  }

  /** Toggle keeps the ids, so it keeps them distinct. */
  lemma ToggleKeepsDistinctIds(todos: seq<Todo>, id: int)
    requires DistinctIds(todos)
    ensures DistinctIds(Toggle(todos, id))
  {
  }

  /** Every element of a subsequence is an element of the whole. */
  lemma {:induction false} SubsequenceMembers<T>(a: seq<T>, b: seq<T>)
    requires IsSubsequence(a, b)
    ensures forall i :: 0 <= i < |a| ==> a[i] in b
    decreases |b|
  {
    if a != [] {
      if a[0] == b[0] {
        SubsequenceMembers(a[1..], b[1..]);
        forall i | 0 <= i < |a| ensures a[i] in b {
          if i > 0 {
            assert a[i] == a[1..][i - 1];
            assert a[i] in b[1..];
          }
        }
      } else {
        SubsequenceMembers(a, b[1..]);
      }
    }
  }

  /** The delete button's handler: keeps, in order, exactly the entries whose
      id differs from `id`. The result is a subsequence that misses only the
      matching entries (its length is that of the list less their number)
      and holds none of them, which pins it down as the filter. */
  function Delete(todos: seq<Todo>, id: int): (r: seq<Todo>)
    ensures IsSubsequence(r, todos)
    ensures |r| == |todos| - CountId(todos, id)
    ensures !HasId(r, id)
    ensures !HasId(todos, id) ==> r == todos
  {
    if todos == [] then []
    else
      var rest := Delete(todos[1..], id);
      assert !HasId(todos[1..], id) ==> !HasId(todos, id) || todos[0].id == id;
      if todos[0].id == id then
        rest
      else
        assert ([todos[0]] + rest)[1..] == rest;
        [todos[0]] + rest
  }

  /** Deleting distributes over concatenation. */
  lemma {:induction false} DeleteConcat(a: seq<Todo>, b: seq<Todo>, id: int)
    ensures Delete(a + b, id) == Delete(a, id) + Delete(b, id)
    decreases |a|
  {
    if a == [] {
      assert a + b == b;
    } else {
      assert (a + b)[0] == a[0];
      assert (a + b)[1..] == a[1..] + b;
      DeleteConcat(a[1..], b, id);
    }
  }

  /** The tail of a list with distinct ids has distinct ids, none equal to
      the head's. */
  lemma DistinctIdsTail(todos: seq<Todo>)
    requires DistinctIds(todos)
    requires todos != []
    ensures DistinctIds(todos[1..])
    ensures !HasId(todos[1..], todos[0].id)
  {
    forall i | 0 <= i < |todos| - 1 ensures todos[1..][i].id != todos[0].id {
      assert todos[1..][i] == todos[i + 1];
    }
  }

  /** With distinct ids, deleting the id of entry `k` removes entry `k` and
      nothing else, keeping the order of the rest. */
  lemma {:induction false} DeleteAt(todos: seq<Todo>, k: int)
    requires DistinctIds(todos)
    requires 0 <= k < |todos|
    ensures Delete(todos, todos[k].id) == todos[..k] + todos[k + 1..]
  {
    var id := todos[k].id;
    var tail := todos[1..];
    DistinctIdsTail(todos);
    if k == 0 {
      assert Delete(todos, id) == Delete(tail, id);
      assert todos[..0] + todos[1..] == tail;
    } else {
      assert Delete(todos, id) == [todos[0]] + Delete(tail, id);
      assert tail[k - 1] == todos[k];
      DeleteAt(tail, k - 1);
      assert todos[..k] == [todos[0]] + tail[..k - 1];
      assert todos[k + 1..] == tail[k..];
    }
  }

  /** Under distinct ids an id that is present is removed exactly once. */
  lemma DeleteRemovesOne(todos: seq<Todo>, id: int)
    requires DistinctIds(todos)
    requires HasId(todos, id)
    ensures |Delete(todos, id)| == |todos| - 1
  {
    var k :| 0 <= k < |todos| && todos[k].id == id;
    DeleteAt(todos, k);
  }

  /** A subsequence of a list with distinct ids has distinct ids. */
  lemma {:induction false} SubsequenceKeepsDistinctIds(a: seq<Todo>, b: seq<Todo>)
    requires IsSubsequence(a, b)
    requires DistinctIds(b)
    ensures DistinctIds(a)
    ensures forall i :: 0 <= i < |a| ==> HasId(b, a[i].id)
    decreases |b|
  {
    if a == [] {
    } else if a[0] == b[0] {
      SubsequenceKeepsDistinctIds(a[1..], b[1..]);
      forall i | 0 <= i < |a| ensures HasId(b, a[i].id) {
        if i > 0 {
          var j :| 0 <= j < |b| - 1 && b[1..][j].id == a[1..][i - 1].id;
          assert b[j + 1].id == a[i].id;
        } else {
          assert b[0].id == a[0].id;
        }
      }
      forall i, j | 0 <= i < j < |a| ensures a[i].id != a[j].id {
        if i == 0 {
          var m :| 0 <= m < |b| - 1 && b[1..][m].id == a[1..][j - 1].id;
          assert b[m + 1].id == a[j].id;
        } else {
          assert a[1..][i - 1] == a[i] && a[1..][j - 1] == a[j];
        }
      }
    } else {
      SubsequenceKeepsDistinctIds(a, b[1..]);
      forall i | 0 <= i < |a| ensures HasId(b, a[i].id) {
        var j :| 0 <= j < |b| - 1 && b[1..][j].id == a[i].id;
        assert b[j + 1].id == a[i].id;
      }
    }
  }

  /** Delete keeps the ids distinct. */
  lemma DeleteKeepsDistinctIds(todos: seq<Todo>, id: int)
    requires DistinctIds(todos)
    ensures DistinctIds(Delete(todos, id))
  {
    SubsequenceKeepsDistinctIds(Delete(todos, id), todos);
  }

  /** `todos.filter((t) => t.completed).length` */
  function CountCompleted(todos: seq<Todo>): nat {
    if todos == [] then 0
    else (if todos[0].completed then 1 else 0) + CountCompleted(todos[1..])
  }

  /** `todos.filter((t) => !t.completed).length` */
  function CountIncomplete(todos: seq<Todo>): nat {
    if todos == [] then 0
    else (if todos[0].completed then 0 else 1) + CountIncomplete(todos[1..])
  }

  /** The three numbers of the summary line. */
  datatype Summary = Summary(total: nat, completed: nat, incomplete: nat)

  /** Every entry is counted as completed or as incomplete, never both. */
  lemma {:induction false} CountsPartition(todos: seq<Todo>)
    ensures CountCompleted(todos) + CountIncomplete(todos) == |todos|
  {
    if todos != [] {
      CountsPartition(todos[1..]);
    }
  }

  /** The summary line's numbers, computed afresh from the list. */
  function Summarize(todos: seq<Todo>): (s: Summary)
    ensures s.total == |todos|
    ensures s.completed + s.incomplete == s.total
  {
    CountsPartition(todos);
    Summary(|todos|, CountCompleted(todos), CountIncomplete(todos))
  }

  /** A list with no completed task counts every task as incomplete. */
  lemma {:induction false} NoneCompletedCounts(todos: seq<Todo>)
    requires forall i :: 0 <= i < |todos| ==> !todos[i].completed
    ensures Summarize(todos) == Summary(|todos|, 0, |todos|)
  {
    if todos != [] {
      NoneCompletedCounts(todos[1..]);
    }
  }

  /** Counting distributes over concatenation. */
  lemma {:induction false} CountsConcat(a: seq<Todo>, b: seq<Todo>)
    ensures CountCompleted(a + b) == CountCompleted(a) + CountCompleted(b)
    ensures CountIncomplete(a + b) == CountIncomplete(a) + CountIncomplete(b)
    decreases |a|
  {
    if a == [] {
      assert a + b == b;
    } else {
      assert (a + b)[1..] == a[1..] + b;
      CountsConcat(a[1..], b);
    }
  }

  /** With distinct ids, toggling entry `k` moves it from one count to the
      other and leaves the total alone. */
  lemma {:induction false} ToggleCounts(todos: seq<Todo>, k: int)
    requires DistinctIds(todos)
    requires 0 <= k < |todos|
    ensures |Toggle(todos, todos[k].id)| == |todos|
    ensures todos[k].completed ==> CountCompleted(Toggle(todos, todos[k].id)) == CountCompleted(todos) - 1
    ensures !todos[k].completed ==> CountCompleted(Toggle(todos, todos[k].id)) == CountCompleted(todos) + 1
  {
    var id := todos[k].id;
    var r := Toggle(todos, id);
    DistinctIdsTail(todos);
    var tail := todos[1..];
    assert r[1..] == Toggle(tail, id);
    if k == 0 {
      ToggleAbsent(tail, id);
    } else {
      assert tail[k - 1] == todos[k];
      ToggleCounts(tail, k - 1);
    }
  }
}
