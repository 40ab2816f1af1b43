# TodoList task-list state, modelled in Dafny

This project models the state logic of the `TodoList` React component of
todo-nextjs. The component keeps an ordered list of tasks and the text of its
input field. A user can add a task from the field, check or uncheck a task,
and delete a task. The component also shows either an empty-list message or a
summary line with the total, completed and incomplete counts.

The component's two `useState` hooks become one immutable `State` record, and
each event handler becomes a pure function from the old state to the new one:

- `text.dfy` (module `Text`) holds whitespace trimming. The add handler uses
  it only to decide whether the input is blank.
- `todos.dfy` (module `Todos`) holds the `Todo` record, toggle by id
  (`Array.prototype.map`), delete by id (`Array.prototype.filter`), the
  distinct-ids invariant and the summary counts.
- `store.dfy` (module `Store`) holds the component state, the add handler, the
  Enter-key dispatch, what the render shows, and runs of user interactions.
  Each add in a run carries the clock reading that `Date.now()` would return.

The model follows the code in three places where an idealised reading of
the component would expect something else:

- The stored text is the input as typed. The trim only decides blankness
  (app/components/TodoList.tsx:16 and :20), so leading and trailing spaces
  are kept. `Store.UntrimmedTextScenario` shows this.
- Toggle and delete act on every entry whose id matches, not on "the" entry.
  The model states this generally. Exactly one entry is affected only when
  the ids are pairwise distinct (`Todos.ToggleChangesOnlyOne`, `Todos.DeleteAt`).
- Ids are clock readings, so they are not unique by construction. The new id
  is a parameter, and every distinctness result requires it to be fresh.
  `Store.RunKeepsIdsAscending` shows that ids stay strictly ascending when the
  clock readings strictly increase. `Store.SameTickCollision` shows two adds
  in the same millisecond giving one id to two tasks; one checkbox click or
  delete then affects both.

`Store.Init` (the mount state, :12-13), `Store.SetInput` (the field's change
handler, :56), `Store.Step` and `Store.Run` are plumbing without contracts of
their own. The lemmas below use them.

## Model

| member | source | states |
|---|---|---|
| `Text.Trim` | app/components/TodoList.tsx:16 | the trimmed input is no longer than the input and has no whitespace at either end |
| `Text.TrimEmptyIffAllWhitespace` | app/components/TodoList.tsx:16 | the blank test `inputValue.trim() === ''` holds exactly when every character of the input is whitespace, so the empty string counts as blank |
| `Text.TrimIdempotent` | app/components/TodoList.tsx:16 | trimming a trimmed string changes nothing |
| `Todos.Toggle` | app/components/TodoList.tsx:28-34 | toggle keeps the length, order, ids and texts; it flips `completed` on exactly the entries whose id matches and keeps every other entry's flag |
| `Todos.ToggleAbsent` | app/components/TodoList.tsx:28-34 | toggling an id that no entry carries leaves the list identical |
| `Todos.ToggleInvolution` | app/components/TodoList.tsx:30-32 | toggling the same id twice restores the original list |
| `Todos.ToggleChangesOnlyOne` | app/components/TodoList.tsx:30-32 | with distinct ids, toggling entry k's id flips entry k and leaves every other entry equal |
| `Todos.ToggleKeepsDistinctIds` | app/components/TodoList.tsx:31 | toggle preserves pairwise-distinct ids |
| `Todos.ToggleCounts` | app/components/TodoList.tsx:109-110 | with distinct ids, checking an unchecked task raises the completed count by one, and unchecking a checked one lowers it by one; the total stays the same |
| `Todos.Delete` | app/components/TodoList.tsx:36-38 | delete returns an order-preserving subsequence of the list that holds no entry with the id and is shorter by exactly the number of matching entries, so it keeps every other entry; an absent id leaves the list unchanged |
| `Todos.DeleteConcat` | app/components/TodoList.tsx:37 | deleting from a concatenation deletes from each part |
| `Todos.DeleteAt` | app/components/TodoList.tsx:36-38 | with distinct ids, deleting entry k's id removes entry k alone and keeps the others in order |
| `Todos.DeleteRemovesOne` | app/components/TodoList.tsx:37 | with distinct ids, deleting an id that is present shortens the list by exactly one |
| `Todos.SubsequenceKeepsDistinctIds` | app/components/TodoList.tsx:37 | a subsequence of a list with distinct ids has distinct ids, all taken from the list |
| `Todos.DeleteKeepsDistinctIds` | app/components/TodoList.tsx:37 | delete preserves pairwise-distinct ids |
| `Todos.CountsPartition` | app/components/TodoList.tsx:109-110 | the completed and incomplete counts add up to the list length |
| `Todos.Summarize` | app/components/TodoList.tsx:109-110 | the summary total is the list length and equals completed plus incomplete |
| `Todos.NoneCompletedCounts` | app/components/TodoList.test.tsx:163-181 | a list with no completed task has counts total/0/total, e.g. 3/0/3 after three adds |
| `Todos.CountsConcat` | app/components/TodoList.tsx:109-110 | both counts add up over concatenated lists |
| `Store.Add` | app/components/TodoList.tsx:15-26 | blank input leaves the list and the input unchanged; otherwise exactly one task is appended with the given id, the input text verbatim and `completed` false, the earlier tasks are kept in order, and the input is cleared |
| `Store.TypeThenAdd` | app/components/TodoList.test.tsx:56-65 | typing a non-blank text into the cleared field and adding appends that one task and leaves the field empty again |
| `Store.AddKeepsDistinctIds` | app/components/TodoList.tsx:18-24 | adding under an id not yet in the list preserves pairwise-distinct ids |
| `Store.AddThenDelete` | app/components/TodoList.tsx:18-24 | deleting a fresh id just added restores the previous list, whether or not the add took effect |
| `Store.AddCounts` | app/components/TodoList.tsx:15-26 | a successful add raises the total and the incomplete count by one and keeps the completed count |
| `Store.KeyPress` | app/components/TodoList.tsx:40-44 | Enter with non-blank input appends the task and clears the input, as the button does; any other key, or blank input, leaves the state unchanged |
| `Store.Render` | app/components/TodoList.tsx:69-113 | rows are shown in list order; the empty-list message is shown exactly when the list is empty and the summary exactly when it is not, so exactly one of the two is on screen; the summary's counts add up to the number of rows |
| `Store.DeleteKeepsIdsBelow` | app/components/TodoList.tsx:37 | every id that survives a delete was already below any bound on the old ids |
| `Store.DeleteKeepsIdsAscending` | app/components/TodoList.tsx:37 | delete keeps strictly ascending ids ascending |
| `Store.AddKeepsIdsBelow` | app/components/TodoList.tsx:18-24 | an add under an id below a bound keeps every id below it |
| `Store.StepKeepsIdsAscending` | app/components/TodoList.tsx:15-38 | any single interaction keeps ids ascending when its clock reading is later than every existing id |
| `Store.StepKeepsIdsBelow` | app/components/TodoList.tsx:15-38 | any single interaction keeps every id below a bound that is later than its own clock reading |
| `Store.RunKeepsIdsAscending` | app/components/TodoList.tsx:19 | ids stay strictly ascending, and hence distinct, through any run in which the clock readings of the add clicks and Enter presses strictly increase and follow the existing ids; other key presses impose nothing |
| `Store.TwoAddsScenario` | app/components/TodoList.test.tsx:183-192 | two button adds of non-blank texts give the two tasks in order, none completed, with the field cleared |
| `Store.ThreeAddsScenario` | app/components/TodoList.test.tsx:67-84 | three button adds of non-blank texts give the three tasks in order, none completed, with the field cleared |
| `Store.ListCounts3` | app/components/TodoList.tsx:109-110 | three tasks none of which is completed count 3/0/3 |
| `Store.ThreeAddsCounts` | app/components/TodoList.test.tsx:163-181 | three button adds of any non-blank texts show the counts 3/0/3 |
| `Store.ScenarioTextsNotBlank` | app/components/TodoList.test.tsx:169-176 | the texts typed in the statistics tests are not blank |
| `Store.StatisticsScenario` | app/components/TodoList.test.tsx:163-181 | adding "タスク1", "タスク2" and "タスク3" under any clock readings shows 3/0/3 |
| `Store.CheckFirstOfTwo` | app/components/TodoList.test.tsx:194-199 | checking the first of two uncompleted tasks with different ids shows 2/1/1 |
| `Store.AddTwoCheckFirstScenario` | app/components/TodoList.test.tsx:183-200 | two adds under different clock readings followed by a click on the first checkbox show 2/1/1 |
| `Store.DeleteSecondOfThree` | app/components/TodoList.test.tsx:154-159 | with three different ids, deleting the second task's id leaves the first and third tasks in order |
| `Store.DeleteSecondOfThreeScenario` | app/components/TodoList.test.tsx:140-160 | three adds under different clock readings followed by deleting the second task leave the first and the third, in order |
| `Store.BlankAddScenario` | app/components/TodoList.test.tsx:47-54 | adding from an empty or all-space field changes nothing, and the empty-list message stays |
| `Store.UntrimmedTextScenario` | app/components/TodoList.tsx:20 | the input " a " is stored as " a ", with its spaces |
| `Store.SameTickCollision` | app/components/TodoList.tsx:19 | two adds with the same clock reading give two tasks the same id; toggle then flips both and delete removes both |

## Left out

- Store.RunKeepsIdsAscending: its clock hypothesis also covers add clicks and Enter presses made while the input is blank. Those never call `Date.now()` (:16), so a run whose blank adds carry out-of-order readings falls outside the lemma, even though its ids would still be ascending.
- Text.Trim: states only the bounds and the ends of the result, not that it is the contiguous middle of the input. The blank test is the only use of the trimmed value, and `Text.TrimEmptyIffAllWhitespace` states that test exactly.
- JSX markup, CSS class strings and the `line-through` style of completed tasks (:47-115). These are presentation. `Store.Render` keeps only what depends on the state.
- React `useState`, closures and re-render scheduling. The model threads an explicit `State` through pure functions instead.
- `Date.now()` (:19) is a clock read. It becomes the `newId` parameter of `Store.Add` and the `now` field of the add events. Ids are unbounded integers; JavaScript number precision does not matter for millisecond timestamps.
- DOM keyboard events (:40-44, :57). The key is modelled as its `key` string.
- JavaScript's whitespace table. `Text.IsWhitespace` lists the ECMAScript WhiteSpace and LineTerminator characters, with the Unicode space separators fixed to the Unicode 15 list. A later Unicode version could add to that list.
- next.config.ts is static build configuration with no logic.
- The vitest and testing-library harness of app/components/TodoList.test.tsx. Its assertions appear as the scenario lemmas.
