/**
  The state of the TodoList component and the handlers that change it. The
  two `useState` hooks become one immutable `State`. Each handler becomes a
  pure function from the old state to the new one. The clock reading that
  `Date.now()` supplies is a parameter.
 */
module Store {
  import opened Text
  import opened Todos

  /** The list of tasks and the text field's current value. */
  datatype State = State(todos: seq<Todo>, input: string)

  /** The state when the component mounts: no tasks, an empty field. */
  function Init(): State {
    State([], "")
  }

  /** The text field's change handler: the field takes the new text verbatim. */
  function SetInput(st: State, text: string): State {
    st.(input := text)
  }

  /** The add handler. Blank input (empty, or only whitespace) is ignored and
      nothing changes. Otherwise a task is appended whose id is `newId`, whose
      text is the input exactly as typed (not trimmed) and which is not
      completed; the earlier tasks are kept in order and the field is
      cleared. */
  function Add(st: State, newId: int): (r: State)
    ensures AllWhitespace(st.input) ==> r == st
    ensures !AllWhitespace(st.input) ==>
      && |r.todos| == |st.todos| + 1
      && r.todos[..|st.todos|] == st.todos
      && r.todos[|st.todos|] == Todo(newId, st.input, false)
      && r.input == ""
  {
    TrimEmptyIffAllWhitespace(st.input);
    if Trim(st.input) == "" then st
    else State(st.todos + [Todo(newId, st.input, false)], "")
  }

  /** A successful add is an append followed by clearing the field. */
  lemma AddAppends(st: State, newId: int)
    requires !AllWhitespace(st.input)
    ensures Add(st, newId) == State(st.todos + [Todo(newId, st.input, false)], "")
  {
  }

  /** Adding a task under an id not yet in use keeps the ids distinct. */
  lemma AddKeepsDistinctIds(st: State, newId: int)
    requires DistinctIds(st.todos)
    requires !HasId(st.todos, newId)
    ensures DistinctIds(Add(st, newId).todos)
  {
    var r := Add(st, newId).todos;
    if !AllWhitespace(st.input) {
      forall i, j | 0 <= i < j < |r| ensures r[i].id != r[j].id {
        if j == |st.todos| {
          assert r[i] == st.todos[i];
        } else {
          assert r[i] == st.todos[i] && r[j] == st.todos[j];
        }
      }
    }
  }

  /** Deleting the id just added, when it was fresh, gives back the list as
      it was before the add, whether or not the add took effect. */
  lemma AddThenDelete(st: State, newId: int)
    requires !HasId(st.todos, newId)
    ensures Delete(Add(st, newId).todos, newId) == st.todos
  {
    var t := Todo(newId, st.input, false);
    if !AllWhitespace(st.input) {
      assert Add(st, newId).todos == st.todos + [t];
      DeleteConcat(st.todos, [t], newId);
      assert [t][1..] == [];
    }
  }

  /** A successful add adds one to the total and to the incomplete count and
      leaves the completed count alone. */
  lemma AddCounts(st: State, newId: int)
    requires !AllWhitespace(st.input)
    ensures Summarize(Add(st, newId).todos).total == |st.todos| + 1
    ensures CountCompleted(Add(st, newId).todos) == CountCompleted(st.todos)
    ensures CountIncomplete(Add(st, newId).todos) == CountIncomplete(st.todos) + 1
  {
    var t := Todo(newId, st.input, false);
    assert Add(st, newId).todos == st.todos + [t];
    CountsConcat(st.todos, [t]);
    assert [t][1..] == [];
  }

  /** The key handler of the text field: Enter adds exactly as the button
      does; every other key leaves the state alone. */
  function KeyPress(st: State, key: string, newId: int): (r: State)
    ensures key != "Enter" || AllWhitespace(st.input) ==> r == st
    ensures key == "Enter" && !AllWhitespace(st.input) ==>
      && r.input == ""
      && r.todos == st.todos + [Todo(newId, st.input, false)]
  {
    if key == "Enter" then
      var r := Add(st, newId);
      assert !AllWhitespace(st.input) ==> r.todos == r.todos[..|st.todos|] + [r.todos[|st.todos|]];
      r
    else st
  }

  /** What the summary area shows: nothing, or the three counts. */
  datatype SummaryLine = Hidden | Shown(counts: Summary)

  /** The parts of the rendered component that depend on the state: the
      task rows in list order, whether the empty-list message is shown, and
      the summary line. */
  datatype View = View(rows: seq<Todo>, emptyMessage: bool, summary: SummaryLine)

  /** Rendering. The empty-list message appears exactly when there are no
      tasks and the summary exactly when there are some, so exactly one of
      the two is on screen; the summary's counts add up to the number of
      rows. */
  function Render(st: State): (v: View)
    ensures v.rows == st.todos
    ensures v.emptyMessage <==> |st.todos| == 0
    ensures v.summary.Shown? <==> |st.todos| > 0
    ensures v.emptyMessage <==> !v.summary.Shown?
    ensures v.summary.Shown? ==>
      && v.summary.counts.total == |v.rows|
      && v.summary.counts.completed + v.summary.counts.incomplete == |v.rows|
  {
    View(st.todos, |st.todos| == 0, if |st.todos| > 0 then Shown(Summarize(st.todos)) else Hidden)
  }

  /** One user interaction. The add button and key presses carry the clock
      reading `Date.now()` would return at that moment; only the button and
      the Enter key reach the add handler that reads it. */
  datatype Event =
    | InputChanged(text: string)
    | AddClicked(now: int)
    | KeyPressed(key: string, now: int)
    | CheckboxClicked(id: int)
    | DeleteClicked(id: int)
  {
    /** The interaction reaches the add handler, which reads the clock to
        make an id unless the input is blank. */
    predicate ReadsClock() {
      AddClicked? || (KeyPressed? && key == "Enter")
    }
  }

  /** The state after one interaction. */
  function Step(st: State, e: Event): State {
    match e
    case InputChanged(text) => SetInput(st, text)
    case AddClicked(now) => Add(st, now)
    case KeyPressed(key, now) => KeyPress(st, key, now)
    case CheckboxClicked(id) => st.(todos := Toggle(st.todos, id))
    case DeleteClicked(id) => st.(todos := Delete(st.todos, id))
  }

  /** The state after a sequence of interactions, handled one at a time. */
  function Run(st: State, events: seq<Event>): State
    decreases |events|
  {
    if events == [] then st else Run(Step(st, events[0]), events[1..])
  }

  /** Ids increase strictly along the list. */
  predicate IdsAscending(todos: seq<Todo>) {
    forall i, j :: 0 <= i < j < |todos| ==> todos[i].id < todos[j].id
  }

  /** Every id is smaller than `b`. */
  predicate IdsBelow(todos: seq<Todo>, b: int) {
    forall i :: 0 <= i < |todos| ==> todos[i].id < b
  }

  /** The clock readings of a run strictly increase. */
  predicate ClockAscending(events: seq<Event>) {
    forall i, j :: 0 <= i < j < |events| && events[i].ReadsClock() && events[j].ReadsClock() ==>
      events[i].now < events[j].now
  }

  /** Every clock reading of a run is later than every id in `todos`. */
  predicate ClockAfter(todos: seq<Todo>, events: seq<Event>) {
    forall i :: 0 <= i < |events| && events[i].ReadsClock() ==> IdsBelow(todos, events[i].now)
  }

  /** Every entry that survives a delete was in the list before. */
  lemma DeleteKeepsIdsBelow(todos: seq<Todo>, id: int, b: int)
    requires IdsBelow(todos, b)
    ensures IdsBelow(Delete(todos, id), b)
  {
    var r := Delete(todos, id);
    SubsequenceMembers(r, todos);
    forall i | 0 <= i < |r| ensures r[i].id < b {
      var j :| 0 <= j < |todos| && todos[j] == r[i];
    }
  }

  /** A subsequence of a list with ascending ids has ascending ids. */
  lemma {:induction false} SubsequenceKeepsIdsAscending(a: seq<Todo>, b: seq<Todo>)
    requires IsSubsequence(a, b)
    requires IdsAscending(b)
    ensures IdsAscending(a)
    decreases |b|
  {
    if a == [] {
    } else if a[0] == b[0] {
      SubsequenceKeepsIdsAscending(a[1..], b[1..]);
      SubsequenceMembers(a[1..], b[1..]);
      forall i, j | 0 <= i < j < |a| ensures a[i].id < a[j].id {
        assert a[j] == a[1..][j - 1];
        if i > 0 {
          assert a[i] == a[1..][i - 1];
        } else {
          var m :| 0 <= m < |b| - 1 && b[1..][m] == a[j];
          assert b[m + 1] == a[j];
        }
      }
    } else {
      SubsequenceKeepsIdsAscending(a, b[1..]);
    }
  }

  /** Delete keeps ids ascending, since it keeps the surviving entries in order. */
  lemma DeleteKeepsIdsAscending(todos: seq<Todo>, id: int)
    requires IdsAscending(todos)
    ensures IdsAscending(Delete(todos, id))
  {
    SubsequenceKeepsIdsAscending(Delete(todos, id), todos);
  }

  /** One interaction keeps the ids ascending when its clock reading, if it
      takes one, is later than every id already in the list. */
  lemma StepKeepsIdsAscending(st: State, e: Event)
    requires IdsAscending(st.todos)
    requires e.ReadsClock() ==> IdsBelow(st.todos, e.now)
    ensures IdsAscending(Step(st, e).todos)
  {
    if e.DeleteClicked? {
      DeleteKeepsIdsAscending(st.todos, e.id);
    }
  }

  /** An add under an id below `b` keeps every id below `b`. */
  lemma AddKeepsIdsBelow(st: State, newId: int, b: int)
    requires IdsBelow(st.todos, b)
    requires newId < b
    ensures IdsBelow(Add(st, newId).todos, b)
  {
    var r := Add(st, newId).todos;
    if !AllWhitespace(st.input) {
      forall i | 0 <= i < |r| ensures r[i].id < b {
        if i < |st.todos| {
          assert r[i] == st.todos[i];
        }
      }
    }
  }

  /** One interaction keeps every id below a bound that is later than its
      own clock reading. */
  lemma StepKeepsIdsBelow(st: State, e: Event, b: int)
    requires IdsBelow(st.todos, b)
    requires e.ReadsClock() ==> e.now < b
    ensures IdsBelow(Step(st, e).todos, b)
  {
    match e
    case InputChanged(_) =>
    case AddClicked(now) =>
      AddKeepsIdsBelow(st, now, b);
    case KeyPressed(key, now) =>
      if key == "Enter" {
        AddKeepsIdsBelow(st, now, b);
      }
    case CheckboxClicked(id) =>
    case DeleteClicked(id) =>
      DeleteKeepsIdsBelow(st.todos, id, b);
  }

  /** Ids taken from a clock whose readings strictly increase stay
      ascending, and hence distinct, through any run of interactions. */
  lemma {:induction false} RunKeepsIdsAscending(st: State, events: seq<Event>)
    requires IdsAscending(st.todos)
    requires ClockAscending(events)
    requires ClockAfter(st.todos, events)
    ensures IdsAscending(Run(st, events).todos)
    ensures DistinctIds(Run(st, events).todos)
    decreases |events|
  {
    if events != [] {
      var e := events[0];
      var next := Step(st, e);
      var later := events[1..];
      forall i | 0 <= i < |later| && later[i].ReadsClock() ensures IdsBelow(next.todos, later[i].now) {
        assert events[i + 1] == later[i];
        StepKeepsIdsBelow(st, e, later[i].now);
      }
      StepKeepsIdsAscending(st, e);
      assert ClockAscending(later) by {
        forall i, j | 0 <= i < j < |later| && later[i].ReadsClock() && later[j].ReadsClock()
          ensures later[i].now < later[j].now
        {
          assert events[i + 1] == later[i] && events[j + 1] == later[j];
        }
      }
      RunKeepsIdsAscending(next, later);
    }
  }

  /** Typing a non-blank text into the cleared field and adding it appends
      one task with that text. */
  lemma TypeThenAdd(todos: seq<Todo>, text: string, newId: int)
    requires !AllWhitespace(text)
    ensures Add(SetInput(State(todos, ""), text), newId) == State(todos + [Todo(newId, text, false)], "")
  {
    AddAppends(State(todos, text), newId);
  }

  /** Adding two non-blank texts with the button gives the two tasks in
      order, none completed, with the field cleared. */
  lemma TwoAddsScenario(a: string, b: string, i1: int, i2: int)
    requires !AllWhitespace(a) && !AllWhitespace(b)
    ensures Add(SetInput(Add(SetInput(Init(), a), i1), b), i2)
      == State([Todo(i1, a, false), Todo(i2, b, false)], "")
  {
    var t1, t2 := Todo(i1, a, false), Todo(i2, b, false);
    TypeThenAdd([], a, i1);
    assert [] + [t1] == [t1];
    TypeThenAdd([t1], b, i2);
    assert [t1] + [t2] == [t1, t2];
  }

  /** Adding three non-blank texts with the button, as the multiple-add and
      statistics tests do, gives the three tasks in order, none completed,
      with the field cleared. */
  lemma ThreeAddsScenario(a: string, b: string, c: string, i1: int, i2: int, i3: int)
    requires !AllWhitespace(a) && !AllWhitespace(b) && !AllWhitespace(c)
    ensures Add(SetInput(Add(SetInput(Add(SetInput(Init(), a), i1), b), i2), c), i3)
      == State([Todo(i1, a, false), Todo(i2, b, false), Todo(i3, c, false)], "")
  {
    var t1, t2, t3 := Todo(i1, a, false), Todo(i2, b, false), Todo(i3, c, false);
    TwoAddsScenario(a, b, i1, i2);
    TypeThenAdd([t1, t2], c, i3);
    assert [t1, t2] + [t3] == [t1, t2, t3];
  }

  /** Three tasks none of which is completed count 3/0/3. */
  lemma ListCounts3(l: seq<Todo>)
    requires |l| == 3
    requires !l[0].completed && !l[1].completed && !l[2].completed
    ensures Summarize(l) == Summary(3, 0, 3)
  {
    NoneCompletedCounts(l);
  }

  /** Three adds of non-blank texts show the counts 3/0/3. */
  lemma ThreeAddsCounts(a: string, b: string, c: string, i1: int, i2: int, i3: int)
    requires !AllWhitespace(a) && !AllWhitespace(b) && !AllWhitespace(c)
    ensures Summarize(Add(SetInput(Add(SetInput(Add(SetInput(Init(), a), i1), b), i2), c), i3).todos)
      == Summary(3, 0, 3)
  {
    ThreeAddsScenario(a, b, c, i1, i2, i3);
    ListCounts3([Todo(i1, a, false), Todo(i2, b, false), Todo(i3, c, false)]);
  }

  /** The texts the statistics tests type are not blank. */
  lemma ScenarioTextsNotBlank()
    ensures !AllWhitespace("タスク1") && !AllWhitespace("タスク2") && !AllWhitespace("タスク3")
  {
    assert !IsWhitespace("タスク1"[0]);
    assert !IsWhitespace("タスク2"[0]);
    assert !IsWhitespace("タスク3"[0]);
  }

  /** The first statistics test: adding "タスク1", "タスク2" and "タスク3",
      whatever clock readings the three adds take, shows 3/0/3. */
  lemma StatisticsScenario(i1: int, i2: int, i3: int)
    ensures Summarize(Add(SetInput(Add(SetInput(Add(SetInput(Init(),
      "タスク1"), i1), "タスク2"), i2), "タスク3"), i3).todos) == Summary(3, 0, 3)
  {
    ScenarioTextsNotBlank();
    ThreeAddsCounts("タスク1", "タスク2", "タスク3", i1, i2, i3);
  }

  /** Two tasks with distinct ids, neither completed: checking the first
      counts 2/1/1. */
  lemma CheckFirstOfTwo(l: seq<Todo>)
    requires |l| == 2
    requires l[0].id != l[1].id
    requires !l[0].completed && !l[1].completed
    ensures Summarize(Toggle(l, l[0].id)) == Summary(2, 1, 1)
  {
    NoneCompletedCounts(l);
    ToggleCounts(l, 0);
    CountsPartition(Toggle(l, l[0].id));
  }

  /** The second statistics test: two adds under different clock readings,
      then a click on the first checkbox, show 2/1/1. */
  lemma AddTwoCheckFirstScenario(a: string, b: string, i1: int, i2: int)
    requires !AllWhitespace(a) && !AllWhitespace(b)
    requires i1 != i2
    ensures Summarize(Toggle(Add(SetInput(Add(SetInput(Init(), a), i1), b), i2).todos, i1))
      == Summary(2, 1, 1)
  {
    TwoAddsScenario(a, b, i1, i2);
    CheckFirstOfTwo([Todo(i1, a, false), Todo(i2, b, false)]);
  }

  /** Three tasks with different ids: deleting the second's id leaves the
      first and the third, in order. */
  lemma DeleteSecondOfThree(l: seq<Todo>)
    requires |l| == 3
    requires l[0].id != l[1].id && l[1].id != l[2].id && l[0].id != l[2].id
    ensures Delete(l, l[1].id) == [l[0], l[2]]
  {
    DeleteAt(l, 1);
    assert l[..1] + l[2..] == [l[0], l[2]];
  }

  /** The delete test: after three adds under different clock readings,
      deleting the second task leaves the first and the third, in order. */
  lemma DeleteSecondOfThreeScenario(a: string, b: string, c: string, i1: int, i2: int, i3: int)
    requires !AllWhitespace(a) && !AllWhitespace(b) && !AllWhitespace(c)
    requires i1 != i2 && i2 != i3 && i1 != i3
    ensures Delete(Add(SetInput(Add(SetInput(Add(SetInput(Init(), a), i1), b), i2), c), i3).todos, i2)
      == [Todo(i1, a, false), Todo(i3, c, false)]
  {
    ThreeAddsScenario(a, b, c, i1, i2, i3);
    DeleteSecondOfThree([Todo(i1, a, false), Todo(i2, b, false), Todo(i3, c, false)]);
  }

  /** Adding with the button while the field is empty or holds only spaces
      changes nothing: the list stays empty and the empty-list message stays
      on screen. */
  lemma BlankAddScenario()
    ensures Render(Add(Init(), 1)) == View([], true, Hidden)
    ensures Add(SetInput(Init(), "   "), 1) == State([], "   ")
  {
  }

  /** The text is stored as typed: surrounding spaces survive the add. */
  lemma UntrimmedTextScenario()
    ensures Add(SetInput(Init(), " a "), 7).todos == [Todo(7, " a ", false)]
  {
    assert !AllWhitespace(" a ") by { assert !IsWhitespace(" a "[1]); }
  }

  /** Two adds that read the same clock value give two tasks one id; a
      click on either checkbox then flips both, and either delete button
      removes both. */
  lemma SameTickCollision()
    ensures var st := Run(Init(), [InputChanged("a"), AddClicked(5), InputChanged("b"), AddClicked(5)]);
      && st.todos == [Todo(5, "a", false), Todo(5, "b", false)]
      && !DistinctIds(st.todos)
      && Toggle(st.todos, 5) == [Todo(5, "a", true), Todo(5, "b", true)]
      && Delete(st.todos, 5) == []
  {
    assert !AllWhitespace("a") by { assert !IsWhitespace("a"[0]); }
    assert !AllWhitespace("b") by { assert !IsWhitespace("b"[0]); }
    var st := Run(Init(), [InputChanged("a"), AddClicked(5), InputChanged("b"), AddClicked(5)]);
    assert st.todos == [Todo(5, "a", false), Todo(5, "b", false)];
    assert st.todos[0].id == st.todos[1].id;
  }
}
