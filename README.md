# To-do list screen, modelled in Dafny

This project models the to-do list logic of the `Index` screen of a small
React Native app (`app/index.jsx`). The screen keeps two state cells. One is
`todos`, a list of `{id, title, completed}` records. The other is `text`, the
contents of the input field. Four things change them:

- **Load.** The first effect reads the key `"TodoApp"` from device storage. A
  non-empty stored list is sorted by descending id and shown. With no stored
  list, or an empty one, the built-in seed list is sorted in place and shown.
  If reading or parsing throws, the error is logged and `todos` keeps its
  initial `[]`.
- **`addTodo`.** Input that is blank after `trim()` is ignored. Otherwise the
  untrimmed text becomes a new open entry at the front. Its id is the head's
  id plus one, or 1 on an empty list. The input field is then cleared.
- **`toggleTodo(id)`.** This flips `completed` on every entry with that id.
- **`removeTodos(id)`.** This drops every entry with that id.

Files:

- `js_text.dfy` (module `JsText`): JavaScript's `String.prototype.trim` over
  the ECMAScript white-space and line-terminator characters.
- `todos.dfy` (module `Todos`): the `Todo` record and the orderings by id:
  non-increasing, strictly descending and distinct ids. It also holds `MaxId`,
  a reference maximum, and the fact that sorting a list with distinct ids
  gives a strictly descending list.
- `todo_ops.dfy` (module `TodoOps`): the list transforms as functions.
  `Added` is the spread-prepend, `Toggle` is the `map` and `Remove` is the
  `filter`. Lemmas state what each transform keeps.
- `sort_by_id.dfy` (module `SortById`): `array.sort((a, b) => b.id - a.id)`
  as an in-place insertion sort on an `array<Todo>`.
- `index_screen.dfy` (module `IndexScreen`): the component as a class
  `TodoScreen` with fields `todos` and `text`. Its methods update the fields
  through the functions above. It also holds a verified client scenario:
  "seed one task, add, toggle, remove".

The invariant every handler keeps is `Valid()`: ids never increase along the
list. The load sort establishes it and every handler preserves it. Strict
descent is stronger and means no id appears twice. The load gives strict
descent when the stored list, or the seed, has distinct ids. `AddTodo`,
`ToggleTodo` and `RemoveTodos` then preserve it.

### Behaviour a reader might not expect (the model follows the code)

- **Storage failures.** One might expect a failed read or parse to fall back
  to the seed list. It does not: the `catch` only logs, so `todos` stays `[]`
  (`app/index.jsx:15`, `app/index.jsx:35-38`). `Load` with `ReadFailed`
  leaves `todos` unchanged.
- **New ids.** One might expect a new id to be the largest id plus one and
  never to be reused. The code takes the head's id plus one
  (`app/index.jsx:61`). That equals the largest id plus one only while ids
  never increase along the list (`NextIdIsMaxPlusOne`). Once the newest entry
  is removed, its id is handed out again (`AddThenRemoveReusesId`).
- **Toggle scope.** One might expect a toggle to flip a single entry. The
  code's `map` flips every entry whose id matches.

## Model

| member | source | states |
|---|---|---|
| `JsText.LeadingWhiteSpace` | app/index.jsx:60 | the number of white-space characters the text starts with: all of them are white space, and the character after them, if any, is not |
| `JsText.TrailingWhiteSpace` | app/index.jsx:60 | the number of white-space characters the text ends with: all of them are white space, and the character before them, if any, is not |
| `JsText.Trim` | app/index.jsx:60 | `text.trim()` is the slice of the text that starts after the leading white space; everything before and after the slice is white space, and the slice neither starts nor ends with white space, so only the leading and trailing white space is removed |
| `JsText.HasContent` | app/index.jsx:60 | the guard `if (text.trim())` holds exactly when the text has a character that is not white space |
| `JsText.TrimEmptyIffBlank` | app/index.jsx:59-60 | `text.trim()` is empty (falsy) exactly when every character of the text is white space |
| `Todos.HeadIsMax` | app/index.jsx:61 | in a list whose ids never increase, the head's id is the maximum id |
| `Todos.PermutationKeepsDistinctIds` | app/index.jsx:28-33 | reordering a list whose ids are distinct keeps them distinct |
| `Todos.SortedPermutationIsStrict` | app/index.jsx:28-33 | a reordering sorted by non-increasing id of a list with distinct ids is strictly descending |
| `SortById.SortByIdDescending` | app/index.jsx:28-33 | `sort((a, b) => b.id - a.id)` leaves the array a permutation of its old contents, ordered by non-increasing id |
| `TodoOps.NextId` | app/index.jsx:61 | the new id exceeds every id present whenever ids never increase along the list |
| `TodoOps.Added` | app/index.jsx:62 | the list grows by one, the old list is its tail, the new head has the untrimmed text and is open, and its id is fresh while ids never increase |
| `TodoOps.NextIdIsMaxPlusOne` | app/index.jsx:61 | on a non-empty list whose ids never increase, the new id is the maximum id plus one |
| `TodoOps.AddedKeepsNonIncreasing` | app/index.jsx:61-62 | adding keeps ids non-increasing |
| `TodoOps.AddedKeepsStrictlyDescending` | app/index.jsx:61-62 | adding keeps ids strictly descending, hence distinct |
| `TodoOps.AddThenRemoveReusesId` | app/index.jsx:59-75 | removing a just-added entry restores the list, and the next add hands out the same id again |
| `TodoOps.Toggle` | app/index.jsx:67-71 | length, order, ids and titles are kept; `completed` changes on exactly the entries whose id matches |
| `TodoOps.ToggleTwice` | app/index.jsx:68-70 | toggling the same id twice gives back the original list |
| `TodoOps.ToggleAbsent` | app/index.jsx:68-70 | toggling an id that no entry carries changes nothing |
| `TodoOps.ToggleCommutes` | app/index.jsx:68-70 | toggling two ids in either order gives the same list |
| `TodoOps.ToggleKeepsOrder` | app/index.jsx:68-70 | toggling keeps ids non-increasing and keeps them strictly descending |
| `TodoOps.Remove` | app/index.jsx:73-75 | an entry is in the result exactly when it is in the list and its id differs; the result is no longer |
| `TodoOps.RemoveIsOrderedFilter` | app/index.jsx:74 | the result keeps the surviving entries in their relative order and drops exactly as many entries as match the id |
| `TodoOps.RemoveIsUnique` | app/index.jsx:74 | any ordered selection that avoids the id and drops only matching entries is the result of removal |
| `TodoOps.RemoveIdempotent` | app/index.jsx:74 | removing an id twice equals removing it once |
| `TodoOps.RemoveAbsent` | app/index.jsx:74 | removing an id that no entry carries changes nothing |
| `TodoOps.RemoveKeepsNonIncreasing` | app/index.jsx:74 | removing keeps ids non-increasing |
| `TodoOps.RemoveKeepsStrictlyDescending` | app/index.jsx:74 | removing keeps ids strictly descending |
| `IndexScreen.TodoScreen.constructor` | app/index.jsx:15-16 | the screen starts with an empty list and empty input text |
| `IndexScreen.TodoScreen.Load` | app/index.jsx:23-41 | a failed read or parse changes nothing; a non-empty stored list is shown as a permutation sorted by non-increasing id and the seed is untouched; the seed array is sorted in place and shown exactly when `UsesSeed(stored)` holds, the falsy test `storageTodos && storageTodos.length` at line 28 (no usable value, or an empty list; `Stored` is the outcome of `getItem` and `JSON.parse`); the result is strictly descending when the source list had distinct ids; the input text is untouched |
| `IndexScreen.TodoScreen.SetText` | app/index.jsx:104-105 | typing replaces the input text and leaves the list alone |
| `IndexScreen.TodoScreen.AddTodo` | app/index.jsx:59-65 | blank input changes neither list nor text; otherwise a fresh open entry with the untrimmed text and id head + 1 (or 1) goes in front of the unchanged old list and the text is cleared; order invariants are kept |
| `IndexScreen.TodoScreen.ToggleTodo` | app/index.jsx:67-71 | the list becomes its toggled version; text and order invariants are kept |
| `IndexScreen.TodoScreen.RemoveTodos` | app/index.jsx:73-75 | the list becomes its filtered version; text and order invariants are kept |

## Left out

- The write-through effect (`app/index.jsx:43-54`), which runs `JSON.stringify` and `AsyncStorage.setItem` on every change of `todos`. This is asynchronous device I/O. Its timing relative to the load effect is a race: the initial `[]` may be written before the load completes. The model has no persistence state, so a "load after save gives back the list" round trip is not stated.
- `AsyncStorage.getItem` and `JSON.parse` (`app/index.jsx:26-27`). Their outcome is the parameter `Stored`: `ReadFailed` (either one threw), `Absent` (no value, or a value that parses to `null`), or `Found(list)`. A parsed value that is not an array of `{id, title, completed}` records is not modelled.
- The seed module `data/todos` is not part of this model. The seed is an arbitrary `array<Todo>` parameter. `data.sort` sorts that shared array in place, and the model keeps this (`Load` modifies `seed`). The model does not track that React state then aliases the same array; no later handler mutates an array in place, so this is not observable.
- SortById.SortByIdDescending: does not state that the sort is stable. ECMAScript requires `Array.prototype.sort` to be stable, so entries with equal ids keep their stored or seed order. The screen itself never creates two entries with the same id, and with distinct ids the sorted result is unique, so stability changes nothing there. The insertion sort only swaps on a strict `<`, so it is stable too, but this is not proved.
- Ids are unbounded integers. JavaScript numbers are doubles, so `id + 1` stops being exact above 2^53. The comparator's subtraction `b.id - a.id` is modelled as an integer comparison. Ids of other JSON types are not modelled; for these, `===` in `toggleTodo` and `!=` in `removeTodos` would differ.
- Font loading and the early `return null` (`app/index.jsx:19-21`, `app/index.jsx:56-58`): library and UI behaviour.
- `handlePress` and router navigation (`app/index.jsx:77-79`): an external collaborator.
- `renderItem`, the JSX tree and the styles (`app/index.jsx:81-179`): presentation only.
- `console.error` logging on failures: output only, with no effect on state.
