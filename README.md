# To-do list controller, modelled in Dafny

This project models the `TodoApp` controller of a browser to-do list widget
(`js/app.js`). The controller holds two pieces of state:

- `todos`: the ordered list of records `{id, text, completed, createdAt}`;
- `editingIndex`: `-1`, or the index of the one row shown in edit mode.

Its handlers change that state:

- submit the form to add a task;
- tick or untick a checkbox;
- open, save or cancel the inline editor;
- delete a row.

Two views are derived from the state. One is the counters panel, with total,
active and completed counts and an empty-state placeholder. The other is the
choice, row by row, between the display template and the edit template.

Files and modules:

- `text.dfy`, module `TextRules`. JavaScript's `String.prototype.trim` over the
  ECMAScript whitespace and line-terminator characters, and the rule shared by
  adding and editing: after trimming, the text must hold 1 to 100 characters,
  and an empty text is refused before an over-long one. `IsStoredText` is the
  shape every stored text has: 1 to 100 characters, no whitespace at either end.
- `todos.dfy`, module `Todos`. The `Todo` record, the `filter`-based counters of
  `updateStats` (`StatsOf`), and the template choice of
  `createTodoItem`/`updateTodoList` (`RowFor`, `Render`). Lemmas say how each
  handler moves the counters, that at most one row is ever in edit mode, and
  what a stale edit cursor does after a deletion.
- `app.dfy`, module `App`. The class `TodoApp`, with fields `todos: seq<Todo>`
  and `editingIndex: int`. Each handler is a method with `modifies this` that
  states the whole new state and the notice banner it raises. Every method
  preserves the object invariant `Valid()`: every stored text is trimmed and
  1 to 100 characters long. The module also holds `ToggleTheme`.

Two behaviours of the code shape the model:

- `deleteTodo` never resets `editingIndex`, so a cursor at or past the deleted
  row goes stale. The model leaves the cursor unchanged.
  `Todos.EditRowAfterRemove` shows the effect: the edit template moves on to
  the record that followed the edited one, or it disappears when the edited
  row was the last one.
- The handlers do not check the index they are given. The render loop only
  hands out valid ones, so the methods require `0 <= index < |todos|`.

## Model

| member | source | states |
|---|---|---|
| `TextRules.TrimStart` | js/app.js:46 | the result is a suffix of the input; every dropped character is whitespace; the result is empty or starts with a non-whitespace character |
| `TextRules.TrimEnd` | js/app.js:46 | the result is a prefix of the input; every dropped character is whitespace; the result is empty or ends with a non-whitespace character |
| `TextRules.Trim` | js/app.js:219 | the trimmed text is no longer than the input; it has no whitespace at either end; it is empty exactly when the input is all whitespace |
| `TextRules.Validate` | js/app.js:44-57 | empty is refused iff the input is all whitespace; too long is refused iff the trimmed text exceeds 100 characters; an accepted text is the trimmed input and is a valid stored text |
| `TextRules.TrimFixedPoint` | js/app.js:219 | trimming an already trimmed text changes nothing |
| `TextRules.StoredTextRevalidates` | js/app.js:218-229 | a text of the stored shape trims to itself and is accepted by the length rule as itself |
| `TextRules.PaddingIsIgnored` | js/app.js:46 | whitespace added around a text is stripped again, so padded input is stored as the bare text |
| `Todos.WithCompleted` | js/app.js:171 | the checkbox write sets `completed` and keeps id, text and creation time |
| `Todos.RemoveAt` | js/app.js:241 | `splice(index, 1)`: one record shorter; records before the index stay in place; records after it move down by one |
| `Todos.CompletedOnes` | js/app.js:82 | the filter keeps only completed records, each taken from the list, and never more records than the list has |
| `Todos.CompletedCountIsPositionCount` | js/app.js:82 | the filter's length equals the number of positions holding a completed record |
| `Todos.StatsOf` | js/app.js:80-97 | total is the list length; completed is the number of completed positions; active + completed == total; the empty state is shown iff the list is empty |
| `Todos.StatsAfterAdd` | js/app.js:71-73 | appending an unchecked record raises total and active by one, leaves completed alone and hides the empty state |
| `Todos.StatsAfterSetCompleted` | js/app.js:170-172 | setting one checkbox leaves total alone and changes completed by that record's old and new flags only |
| `Todos.StatsAfterRemove` | js/app.js:240-243 | deleting a record lowers total by one and completed by one iff that record was completed; the empty state shows iff it was the only record |
| `Todos.RowFor` | js/app.js:112-118 | a row carries its record and index, and uses the edit template iff its index equals the cursor |
| `Todos.Render` | js/app.js:100-106 | one row per record, in list order; row j is in edit mode iff j == editingIndex |
| `Todos.AtMostOneEditRow` | js/app.js:102-118 | exactly one row is in edit mode when the cursor is a valid index; otherwise none is |
| `Todos.EditRowAfterRemove` | js/app.js:240-242 | after deleting a row before the edited one, the cursor's row shows the next record in edit mode, or no row is in edit mode if the edited row was last |
| `App.TodoApp.constructor` | js/app.js:2-6 | the page starts with an empty list and no row in edit mode; the invariant holds |
| `App.TodoApp.HandleSubmit` | js/app.js:44-60 | empty or over-long input warns and leaves the list and cursor unchanged; valid input appends one unchecked record with the trimmed text, the clock's id and timestamp; earlier records and the cursor are unchanged |
| `App.TodoApp.AddTodo` | js/app.js:62-78 | appends exactly one record holding the trimmed input, unchecked, and raises the success notice; the invariant is kept |
| `App.TodoApp.SetCompleted` | js/app.js:170-177 | only `todos[index].completed` changes, to the checkbox state; other records, all texts and the cursor are unchanged; the notice depends on the new state |
| `App.TodoApp.StartEdit` | js/app.js:213-216 | the cursor becomes the index; the list is unchanged; the invariant is kept |
| `App.TodoApp.SaveEdit` | js/app.js:218-233 | refused text warns and leaves list and cursor unchanged, so the row stays in edit mode; accepted text replaces only that record's text, keeps its id, flag and timestamp, and clears the cursor |
| `App.TodoApp.CancelEdit` | js/app.js:235-238 | the cursor becomes -1; the list is unchanged; the invariant is kept |
| `App.TodoApp.DeleteTodo` | js/app.js:240-245 | the list becomes the old list with that record spliced out; the cursor is unchanged; the invariant is kept |
| `App.ToggleTheme` | js/app.js:249-254 | the new theme is "light" iff the current one is "dark", and is always "light" or "dark" |
| `App.ToggleThemeTwice` | js/app.js:249-254 | toggling a set theme twice restores it |

## Left out

- The DOM is left out: HTML templates, `innerHTML` and `createElement`, `querySelector` lookups, listener wiring, focus and caret placement, and the `DOMContentLoaded` bootstrap (js/app.js:8-17, 100-211, 257-259). Only which template each row gets (`Render`) and the counters (`StatsOf`) are modelled, as functions of the state. The re-render after each handler is not modelled as a step.
- `showAlert` (js/app.js:19-42) is modelled only as the `Notice` a handler returns: its message and type. Its timed fade and removal are left out.
- `Date.now()` and `new Date().toISOString()` (js/app.js:65, 68) read the clock. They are the `now` and `isoTime` parameters of `HandleSubmit` and `AddTodo`. Ids are not claimed unique, because two adds in the same millisecond share one.
- Text length: JavaScript counts UTF-16 code units, and the model counts characters (Unicode scalar values). The two differ for characters outside the Basic Multilingual Plane.
- The whitespace set of `trim` is fixed as the ECMAScript WhiteSpace and LineTerminator characters of current Unicode (space separators included). Later Unicode changes are not tracked.
- The source's behaviour on an out-of-range index (a TypeError in the checkbox and save handlers, a no-op or count-from-the-end `splice`) is not modelled. The methods require a valid index, because the render loop only hands out valid ones.
- App.TodoApp.AddTodo: requires input that passes the length rule. In the source it re-reads and re-trims the input field without checking, and only `handleSubmit`, after validating, calls it.
- App.TodoApp.SaveEdit: requires a valid index even on the refused path, where the source does not read the list.
- The invariant "`editingIndex` is -1 or a valid index" is not claimed. `deleteTodo` does not preserve it.
- `toggleTheme` reads and writes the `data-theme` attribute of `document.body`; only the string mapping is modelled. A missing attribute (`null`) behaves like any value other than "dark" and becomes "dark".
- Persistence to local storage, export/import and clear-all are not part of `js/app.js`, so they are not modelled.
- The edit field is pre-filled through the HTML attribute `value="${todo.text}"` without escaping (js/app.js:154), and `saveEdit` receives what the field then holds (js/app.js:198, 205). That value equals the stored text only when the text contains no `"` and no `&` character reference; a text such as `say "hi"` comes back cut at the quote. The model takes the text `SaveEdit` receives as given and does not model this pre-fill.
