# To-do list controller, modelled in Dafny

The application is a single-page to-do list. Its whole behaviour sits in the
`App` component (`src/App.tsx`), which holds three pieces of state:

- `todos`: a list of `{id, text, completed}` records;
- `inputValue`: the text in the input bar;
- `editingTodo`: the record being edited, or `null`.

Four handlers step that state. `addTodo` either adds a record or commits an
edit. `toggleTodo` flips completion. `deleteTodo` filters records out.
`startEditing` puts a record into the input bar.

The model has three modules:

- `JsString` (`js_string.dfy`) models JavaScript's `String.prototype.trim`.
  The controller uses it only to reject blank input. The lemma
  `TrimEmptyIffAllWhitespace` proves that `s.trim() === ''` holds exactly
  when every character of `s` is ECMAScript whitespace or a line terminator.
  `Trim` finds the first and the last non-whitespace index and returns the
  slice between them.
- `TodoList` (`todo_list.dfy`) holds the `Todo` datatype and the three list
  transformations as pure functions on `seq<Todo>`:
  - `SetText`, the `map` that commits an edit;
  - `Toggle`, the `map` in `toggleTodo`;
  - `Remove`, the `filter` in `deleteTodo`.
  The contracts of `SetText` and `Toggle` describe their results record by
  record. The contract of `Remove` gives the surviving records and the length
  bound. Their positions and order come from the lemmas `RemoveAppend` and
  `RemoveAt`. Other lemmas cover no-op cases, involution, exact single-record
  effects under unique ids, and preservation of id uniqueness.
- `App` (`app.dfy`) holds the class `TodoApp` with the three state variables
  as mutable fields (`todos`, `input`, `editing: Option<Todo>`). Its methods
  mirror the handlers and the input bar's change handler. Each method's
  `ensures` gives the new state outright. For `AddTodo`, `ToggleTodo` and
  `DeleteTodo` that state is given in terms of the old state and the list
  functions. Every handler states that distinct ids stay distinct
  (`Valid()`). Two
  client methods, `EditRecord` and `DeleteThenCommit`, use only these
  contracts to derive the two edit scenarios: editing a listed record, and
  committing after the edit target was deleted.

Behaviour kept exactly as the code has it:

- The stored text is the raw input. Trimming decides only whether the
  submission is blank.
- An edit commit matches records by the id of the snapshot taken in
  `startEditing`. If that id was deleted in the meantime, the list does not
  change. The controller still returns to Idle with an empty input.
- `deleteTodo` does not clear the edit target, even when the target is the
  record it deleted.
- `startEditing` receives the record itself and does no lookup
  (src/App.tsx:59-62). So `StartEditing` takes a `Todo` and has no
  unknown-id case.
- The edit map and the toggle map touch every record carrying the id, and
  the filter drops every such record. "Exactly one record" holds only when
  ids are distinct. The lemmas `SetTextAt`, `ToggleAt` and `RemoveAt` state
  it under that hypothesis. A delete shrinks the list by exactly one only
  when the id occurs exactly once (src/App.tsx:56).

## Model

| member | source | states |
|---|---|---|
| JsString.Trim | src/App.tsx:27 | `trim()` returns a slice `s[lo..hi]` of its argument such that every character before `lo` and from `hi` on is whitespace, and the slice is empty or neither starts nor ends with whitespace |
| JsString.TrimEmptyIffAllWhitespace | src/App.tsx:27 | the guard `inputValue.trim() === ''` holds exactly when the input is empty or whitespace only |
| TodoList.SetText | src/App.tsx:30-34 | the edit map keeps length, order, ids and completion flags, and gives the new text to exactly the records with the target id |
| TodoList.Toggle | src/App.tsx:48-52 | the toggle map keeps length, order, ids and texts, and flips `completed` exactly on the records with the given id |
| TodoList.Remove | src/App.tsx:56 | the filter keeps exactly the records whose id differs, never lengthens the list, and leaves no record with that id |
| TodoList.AppendFreshKeepsUniqueIds | src/App.tsx:36-42 | appending a record with a fresh id, the raw text and `completed = false` grows the list by one, keeps the earlier records as they were and keeps ids distinct |
| TodoList.SetTextAbsent | src/App.tsx:29-35 | an edit commit for an id not in the list leaves the list unchanged |
| TodoList.SetTextAt | src/App.tsx:29-35 | with distinct ids, an edit commit changes only the text of the one record carrying the target id |
| TodoList.SetTextKeepsUniqueIds | src/App.tsx:30-34 | an edit commit keeps ids distinct |
| TodoList.ToggleTwice | src/App.tsx:47-53 | toggling the same id twice restores the original list |
| TodoList.ToggleAbsent | src/App.tsx:47-53 | toggling an unknown id leaves the list unchanged |
| TodoList.ToggleAt | src/App.tsx:47-53 | with distinct ids, a toggle flips `completed` on the one matching record only |
| TodoList.ToggleKeepsUniqueIds | src/App.tsx:47-53 | a toggle keeps ids distinct |
| TodoList.RemoveAbsent | src/App.tsx:55-57 | deleting an unknown id leaves the list unchanged |
| TodoList.RemoveAppend | src/App.tsx:55-57 | the delete filter distributes over concatenation, so survivors keep their original order |
| TodoList.RemoveAt | src/App.tsx:55-57 | with distinct ids, deleting the id at position k yields the list without position k, one shorter |
| TodoList.RemoveKeepsUniqueIds | src/App.tsx:55-57 | a delete keeps ids distinct |
| TodoList.EditAfterRemove | src/App.tsx:29-35 | committing an edit whose target id was deleted leaves the list as the delete made it |
| App.TodoApp.constructor | src/App.tsx:11-13 | the controller starts with no records, an empty input and no edit target |
| App.TodoApp.SetInput | src/App.tsx:75 | the input bar's change handler replaces the input and nothing else; distinct ids stay distinct |
| App.TodoApp.AddTodo | src/App.tsx:26-45 | blank input changes nothing; otherwise an edit commit applies `SetText` with the raw input to the target's id, or an add appends `{freshId, raw input, false}`; both end Idle with an empty input; distinct ids stay distinct |
| App.TodoApp.ToggleTodo | src/App.tsx:47-53 | the list becomes `Toggle` of the old list; input and edit target are untouched; distinct ids stay distinct |
| App.TodoApp.DeleteTodo | src/App.tsx:55-57 | the list becomes `Remove` of the old list; the edit target is left as it was; distinct ids stay distinct |
| App.TodoApp.StartEditing | src/App.tsx:59-62 | the edit target becomes the given record and the input its text; the list is untouched, so distinct ids stay distinct |
| App.EditRecord | src/App.tsx:26-62 | with distinct ids, starting to edit the record at position k and committing a non-blank text changes only that record's text; the controller ends Idle with an empty input, so the next submission adds |
| App.DeleteThenCommit | src/App.tsx:26-57 | start editing, delete the target, commit: the list is what the delete left, and the controller is Idle with an empty input |

## Left out

- Loading the list from `localStorage` and parsing it with `JSON.parse` at startup (src/App.tsx:15-20): a browser storage call and a library parser whose behaviour is not visible here.
- Writing the list back with `JSON.stringify` after every change (src/App.tsx:22-24): the same reason. The persistence round trip is therefore not modelled.
- `Date.now()` (src/App.tsx:38) reads the clock. `AddTodo` takes the reading as `freshId` and requires it to be absent from the list when the append path is taken.
- App.TodoApp.AddTodo: its freshness requirement is stronger than the source, which takes whatever the clock returns; two adds within one millisecond could collide there.
- Rendering (src/App.tsx:64-136): JSX, CSS classes, icons and the empty-list message are presentation only.
- The Enter-key dispatch (src/App.tsx:76) is event wiring. Only its effect, a call of `AddTodo`, is modelled.
- React's `useState`/`useEffect` scheduling and batching: each handler is modelled as one atomic step that reads the state it was called in.
- Strings are sequences of Unicode scalar values, not UTF-16 code units. Every whitespace character `trim` removes is a single code unit, so the emptiness guard is unaffected.
