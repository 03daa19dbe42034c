# To-do list: task collection, mutators, view and input gates

A model of the typed to-do list page (`src/script.ts`, and `dist/script.js`,
its compiled JavaScript, which has the same logic line for line). The page
keeps an in-memory collection of tasks `{id, text, done, createdAt}`, newest
first, and a current filter. Five mutators replace the whole collection and
write it through to browser storage. A view function selects what the list
shows. A counter reports pending and total tasks. The event handlers decide
when the mutators run: submit adds trimmed, non-blank input, and the inline
editor commits trimmed, non-blank, changed text.

Three modules:

- `Text` (`text.dfy`): `String.prototype.trim` over ECMAScript's whitespace
  and line-terminator code points, with its slice and idempotence lemmas.
- `Tasks` (`tasks.dfy`): the `Task` datatype and the collection as a value.
  `MapTasks` and `Keep` are `Array.prototype.map` and `filter`. `Toggled`,
  `Renamed` and `Without` are the collections `toggleTask`, `updateTaskText`
  and `deleteTask` compute. `Visible` is `getVisibleTasks` and `Count` is the
  counter. The lemmas cover involution, idempotence, no-ops on absent ids,
  id uniqueness, order preservation and the done/pending partition.
- `TodoApp` (`app.dfy`): the class `TodoList` with the module-level state as
  fields. `tasks` is the collection, `saved` is the storage slot under the
  key "tasks" and `filter` is the current filter. It has the mutators as
  methods and the submit, filter-change and edit handlers' decisions. Each
  mutator ends with `saved == tasks`. Every mutator and handler keeps
  `Valid()` (ids unique) whenever it held before. `CleanTexts()` (every
  text non-empty and already trimmed) is kept by `Submit`, `CommitEdit`,
  `EditKeyDown`, `ToggleTask`, `DeleteTask` and `ClearAll`. `AddTask` and
  `UpdateTaskText` take any text, so they do not promise it. `Session` is a
  client that drives the class through its contracts only.

Three behaviours of the code that a reader might not expect, and that the
model follows:

- The filter is a string, not a three-valued enumeration. The select's value
  is cast unchecked (src/script.ts:178), and every value other than
  "completadas" and "pendientes" shows the whole collection.
- `addTask` itself accepts any text. The blank-input check lives in the
  submit handler (`Submit`), not in the mutator.
- The edit commit compares the trimmed input with the text the row was
  rendered with (the captured `t.text`). It does not re-read the current
  collection. `CommitEdit` takes that rendered task as a parameter.

## Model

| member | source | states |
|---|---|---|
| Text.TrimStart | src/script.ts:168 | the result is the suffix of the input starting at its first non-whitespace character; everything dropped is whitespace |
| Text.TrimEnd | dist/script.js:140 | the result is the prefix of the input ending at its last non-whitespace character; everything dropped is whitespace |
| Text.Trim | src/script.ts:168-169 | the trimmed input is empty exactly when the input is all whitespace, and otherwise starts and ends with non-whitespace |
| Text.TrimIsSlice | src/script.ts:128 | the trimmed text is a contiguous slice of the input with only whitespace outside it |
| Text.TrimIdempotent | dist/script.js:104 | trimming a trimmed text changes nothing |
| Tasks.MapTasks | src/script.ts:63 | `map` keeps the length and puts `f(ts[i])` at every position i |
| Tasks.Keep | src/script.ts:73 | `filter` returns exactly the elements passing the test, each as many times as the input holds it, and drops every copy of the others; never more elements than the input |
| Tasks.KeepIsSubsequence | src/script.ts:86-88 | `filter` keeps the surviving tasks in their original relative order |
| Tasks.KeepUnique | dist/script.js:56 | filtering a collection with unique ids leaves the ids unique |
| Tasks.DonePendingPartition | src/script.ts:86-88 | the done and not-done filters split the collection: their lengths add up to its length and their multisets add up to its multiset |
| Tasks.Toggled | src/script.ts:62-65 | same length and order; `done` flipped exactly on tasks whose id matches; id, text, createdAt and every non-matching task unchanged |
| Tasks.ToggledTwice | dist/script.js:47-50 | toggling the same id twice gives back the original collection |
| Tasks.ToggledAbsent | src/script.ts:63 | toggling an id no task has leaves the collection unchanged |
| Tasks.Renamed | src/script.ts:67-70 | same length and order; `text` replaced exactly on matching tasks; id, done, createdAt and every non-matching task unchanged |
| Tasks.RenamedTwice | src/script.ts:135-139 | committing the same new text twice (Enter, then the blur that follows) has the effect of one commit |
| Tasks.RenamedSameText | dist/script.js:51-54 | renaming to the text the matching tasks already have, or renaming an absent id, changes nothing |
| Tasks.Without | src/script.ts:72-75 | no task with the id remains; every task whose id differs remains as many times as it was there; the rest keep their relative order |
| Tasks.WithoutAbsent | dist/script.js:55-58 | deleting an id no task has changes nothing |
| Tasks.WithoutTwice | src/script.ts:73 | deleting the same id twice is the same as deleting it once |
| Tasks.WithoutRemovesOne | dist/script.js:56 | with unique ids, deleting a present id removes exactly one task and keeps ids unique; an absent id removes none |
| Tasks.Visible | src/script.ts:83-92 | "completadas" shows exactly the done tasks, "pendientes" exactly the not-done ones, each as many times as the collection holds it and in collection order; any other filter value shows the collection unchanged |
| Tasks.VisiblePartition | dist/script.js:64-73 | the "completadas" and "pendientes" views together hold every task of the collection exactly as often as it does |
| Tasks.Count | src/script.ts:159-163 | total is the collection's length; pending never exceeds total; pending plus the number of done tasks is total |
| TodoApp.TodoList.constructor | src/script.ts:46-47 | the collection starts as what storage held, and the filter starts as "todas" |
| TodoApp.TodoList.AddTask | src/script.ts:50-60 | the returned task has the given id, text and timestamp and is not done; it goes first and the old tasks follow unchanged and in order; storage equals the collection; unique ids stay unique given a fresh id |
| TodoApp.TodoList.ToggleTask | dist/script.js:47-50 | the collection becomes `Toggled` of the old one; storage equals the collection; unique ids stay unique and clean texts stay clean; the filter is untouched |
| TodoApp.TodoList.UpdateTaskText | dist/script.js:51-54 | the collection becomes `Renamed` of the old one; storage equals the collection; unique ids stay unique |
| TodoApp.TodoList.DeleteTask | dist/script.js:55-58 | the collection becomes `Without` of the old one; storage equals the collection; unique ids stay unique and clean texts stay clean |
| TodoApp.TodoList.ClearAll | src/script.ts:77-80 | the collection and storage are both empty, so ids are unique and texts clean |
| TodoApp.TodoList.GetVisibleTasks | dist/script.js:64-73 | the view holds exactly the tasks of the collection that the current filter shows, each as many times as the collection holds it, in collection order; any filter value other than "completadas" and "pendientes" shows the collection itself |
| TodoApp.TodoList.RenderCounter | dist/script.js:132-136 | total is the collection's length; pending is the size of the "pendientes" view and never exceeds total |
| TodoApp.TodoList.SetFilter | src/script.ts:175-180 | the filter becomes the select's value, whatever string it is; tasks and storage are untouched |
| TodoApp.TodoList.Submit | src/script.ts:166-173 | nothing is added when the input trims to empty; otherwise a pending task with the trimmed text is put first and stored; ids stay unique and texts stay non-empty and trimmed |
| TodoApp.TodoList.CommitEdit | src/script.ts:127-133 | the text is replaced, on the row's id, by the trimmed input exactly when that is non-empty and differs from the rendered text; otherwise tasks and storage are unchanged; ids stay unique and texts stay clean |
| TodoApp.TodoList.EditKeyDown | dist/script.js:110-115 | Enter commits as `CommitEdit` does; Escape and every other key commit nothing and change neither tasks nor storage; unique ids and clean texts are kept |

## Left out

- Storage: `loadTasks` and `saveTasks` (src/script.ts:28-43) go through `localStorage` and JSON. The slot is the field `saved`, and the constructor takes the collection that was loaded. Parsing, the recovery from malformed or non-array data, and the round trip `load(save(C)) == C` are not modelled.
- Storage writes are taken to succeed. In the source each mutator changes the in-memory collection before it calls `saveTasks` (src/script.ts:57-58, 63-64, 68-69, 73-74, 78-79). `localStorage.setItem` can throw, for instance when the quota is exceeded (`saveTasks`, src/script.ts:40-42). The collection is then already changed, storage keeps the old value, and the exception leaves the handler before the list is re-rendered. The model's `saved == tasks` after every mutator does not cover that failure.
- TodoApp.TodoList.constructor: `saved` starts equal to the loaded collection. When the slot held malformed data, the page actually starts with an empty collection while the slot keeps that data until the first mutation.
- `crypto.randomUUID()` and `Date.now()` are parameters of `AddTask` and `Submit`. The precondition that no task already has the new id stands in for the UUID's uniqueness.
- Id uniqueness is not a class invariant. `loadTasks` does not check it, so the mutators promise only to preserve it (`old(Valid()) ==> Valid()`).
- Everything that touches the DOM is left out. That covers element lookup, `renderList`/`renderItem` building and clearing the list, `replaceChild`, focus, the selection range, and resetting the input box after a submit. Only the decisions the handlers make are modelled.
- The browser may fire `blur` when `renderList` removes the focused edit field, after Enter or after Escape. Whether it does depends on the browser, so the model does not say. Enter and blur are each modelled as one `CommitEdit`; `Tasks.RenamedTwice` shows that a second commit of the same text changes nothing.
- The `confirm()` prompt around bulk delete (src/script.ts:183) is left out: `ClearAll` is the action taken once the prompt is accepted.
- The counter's text "{pending} tareas pendientes / {total} en total" (src/script.ts:162): the counts are modelled, not the number formatting.
- Strings are sequences of Unicode scalar values, while JavaScript strings are UTF-16 code units. Every whitespace code point is in the Basic Multilingual Plane, so trimming is unaffected.
- The untyped `script.js` at the repository root is not part of this model. It keeps its state in the DOM and reads it back, and it also carries a theme toggle.
