# Todo board: a Dafny model of the `App` component

The application is a single-page todo list. One React component, `App`
(`todo_frontend/src/App.js`), owns five pieces of state:

- the ordered list of todos `{id, title, desc, completed}`;
- the two form drafts, `input` (title) and `desc`;
- `editingId`, where null means create mode and an id means edit mode;
- `filter`, which is `"all"` or `"completed"`.

Its event handlers are the whole of its logic:

- handleAddTodo: submit the form, adding or updating a todo;
- handleEditTodo: begin editing a todo;
- handleDeleteTodo;
- handleToggleCompleted;
- handleCancelEdit;
- handleFilterChange.

The list shown is the derived `filteredTodos`.

The model has three modules:

- `Seqs` (`seqs.dfy`) gives the generic `Map` and `Filter` that stand for
  JavaScript's `Array.prototype.map` and `Array.prototype.filter`. Each is
  specified pointwise. For `Filter` that means: order-preserving
  subsequence, only qualifying elements, and every qualifying element with
  its full multiplicity.
- `Todos` (`todos.dfy`) is the value level. It holds the `Todo` datatype and
  `String.prototype.trim`. It holds the list transforms the handlers apply:
  update in place, toggle in place, remove by id, and the filter
  projection. It also holds the lemmas relating them: toggle is an
  involution, delete is idempotent, each transform keeps ids unique, and
  deleting after an edit or a toggle equals deleting straight away. Further
  lemmas show what happens when two todos share an id.
- `TodoApp` (`app.dfy`) is the state level. It has a class `App` with the
  five state cells as fields and one method per handler. Each method states
  the whole new state in terms of the old one. It also has a few client
  methods that state what sequences of handler calls do.

`Date.now()`, the clock read that gives a new todo its id, becomes the
parameter `now` of `App.Submit`. The model does not assume the clock yields
fresh ids. `Submit` promises that ids stay unique only when `now` is not
already in use, and `AppendCollidingBreaksUnique` shows that a repeated
timestamp breaks uniqueness. When ids collide, the code deletes every todo
with the id and an edit renames every todo with the id. The model keeps
that behaviour: `RemoveId` and `UpdateWhere` act on every matching todo, as
the lemmas `DeleteRemovesEveryCollidingTodo` and
`EditRenamesEveryCollidingTodo` show. With colliding ids a delete removes
every todo with that id, not only one; with unique ids the two are the same.

A blank title is one whose `trim()` is empty. `Todos.IsWhitespace` lists the
code points ECMAScript's `trim` strips: the WhiteSpace and LineTerminator
productions, with the members of Unicode category Zs written out.

## Model

| member | source | states |
|---|---|---|
| `TodoApp.App.constructor` | todo_frontend/src/App.js:13-20 | starts with no todos, empty drafts, create mode (`editingId` null) and filter "all" |
| `TodoApp.App.SetInput` | todo_frontend/src/App.js:136 | the title field's change handler overwrites the title draft and nothing else |
| `TodoApp.App.SetDesc` | todo_frontend/src/App.js:146 | the description field's change handler overwrites the description draft and nothing else |
| `TodoApp.App.Submit` | todo_frontend/src/App.js:30-57 | blank title: the whole state is unchanged. Create mode: exactly one todo `(now, input, desc, completed=false)` is appended after the unchanged earlier todos. Edit mode: the list becomes `UpdateWhere` of the edited id and the mode returns to create. Both non-blank cases clear the drafts and keep the filter. Ids stay unique when `now` is fresh or the mode is edit |
| `TodoApp.App.BeginEdit` | todo_frontend/src/App.js:60-65 | copies the todo's title and desc into the drafts and sets `editingId` to its id, for any todo in either mode. The list and filter are unchanged |
| `TodoApp.App.Delete` | todo_frontend/src/App.js:68-75 | the list becomes `RemoveId` of the id. Create mode with empty drafts is forced exactly when the id is the one being edited; otherwise the session and drafts are untouched. The filter is unchanged and id uniqueness is kept |
| `TodoApp.App.Toggle` | todo_frontend/src/App.js:78-84 | the list becomes `ToggleWhere` of the id. Drafts, session and filter are unchanged and id uniqueness is kept |
| `TodoApp.App.CancelEdit` | todo_frontend/src/App.js:86-90 | create mode with both drafts empty. The list and filter are unchanged |
| `TodoApp.App.SetFilter` | todo_frontend/src/App.js:92-94 | only the filter changes, to the given mode |
| `TodoApp.EditThenCancel` | todo_frontend/src/App.js:60-90 | begin-edit then cancel leaves the list and filter as they were, in create mode with empty drafts |
| `TodoApp.EditThenDelete` | todo_frontend/src/App.js:60-75 | begin-edit of a todo and then deleting its id forces create mode with empty drafts, and no todo with that id remains |
| `TodoApp.DeleteTwice` | todo_frontend/src/App.js:68-75 | two deletes of one id leave the same list, session and drafts as one delete |
| `TodoApp.ToggleTwice` | todo_frontend/src/App.js:78-84 | two toggles of one id restore the list and change nothing else |
| `TodoApp.BuyMilkScenario` | todo_frontend/src/App.js:30-98 | from a fresh app: add "Buy milk"/"2%", toggle it, filter to completed, and it is the one todo shown (completed); after deleting it, nothing is shown |
| `Todos.TrimStart` | todo_frontend/src/App.js:32 | leading whitespace dropped: a suffix of the input that does not start with whitespace, and only whitespace was dropped |
| `Todos.TrimEnd` | todo_frontend/src/App.js:32 | trailing whitespace dropped: a prefix of the input that does not end with whitespace, and only whitespace was dropped |
| `Todos.Trim` | todo_frontend/src/App.js:32 | `trim()` has no whitespace at either end, and it is empty exactly when every character of the input is whitespace (both directions) |
| `Todos.TrimIsSlice` | todo_frontend/src/App.js:32 | `trim()` is the contiguous slice of the input after its leading whitespace, with only whitespace before and after it |
| `Todos.UpdateWhere` | todo_frontend/src/App.js:35-40 | the edit commit keeps length, order, ids and completion flags; todos with the id get the new title and desc, and every other todo is unchanged |
| `Todos.ToggleWhere` | todo_frontend/src/App.js:79-83 | keeps length, order, ids, titles and descs; flips `completed` on todos with the id, and every other todo is unchanged |
| `Todos.RemoveId` | todo_frontend/src/App.js:69 | an order-preserving subsequence without the id. A todo is kept iff its id differs, with its full multiplicity. An absent id leaves the list unchanged |
| `Todos.Project` | todo_frontend/src/App.js:97-98 | under "all" it is the list itself. Under "completed" it is an order-preserving subsequence of completed todos, containing every completed todo with full multiplicity |
| `Todos.ToggleInvolution` | todo_frontend/src/App.js:80-82 | toggling the same id twice restores the original list |
| `Todos.RemoveIdempotent` | todo_frontend/src/App.js:69 | deleting an id twice equals deleting it once |
| `Todos.AppendFreshKeepsUnique` | todo_frontend/src/App.js:45-53 | appending a todo whose id is unused keeps ids unique |
| `Todos.AppendCollidingBreaksUnique` | todo_frontend/src/App.js:48 | appending a todo whose timestamp id is already in use makes ids non-unique |
| `Todos.UpdateKeepsUnique` | todo_frontend/src/App.js:36-39 | an edit commit keeps an id-unique list id-unique |
| `Todos.ToggleKeepsUnique` | todo_frontend/src/App.js:80-82 | a toggle keeps an id-unique list id-unique |
| `Todos.RemoveKeepsUnique` | todo_frontend/src/App.js:69 | a delete keeps an id-unique list id-unique |
| `Todos.SubsequenceKeepsUnique` | todo_frontend/src/App.js:69 | any order-preserving subsequence of an id-unique list is id-unique |
| `Todos.RemoveAfterUpdate` | todo_frontend/src/App.js:35-75 | deleting an id after committing an edit to it equals deleting it straight away, so the edit leaves no trace |
| `Todos.RemoveAfterToggle` | todo_frontend/src/App.js:69-84 | deleting an id after toggling it equals deleting it straight away |
| `Todos.ProjectAppend` | todo_frontend/src/App.js:45-98 | the view after an append is the old view followed by the new todo when the filter admits it, so display order is insertion order |
| `Todos.DeleteRemovesEveryCollidingTodo` | todo_frontend/src/App.js:69 | in any list where two todos share an id, deleting that id removes both of them, and the list loses at least two todos |
| `Todos.RemoveIdLength` | todo_frontend/src/App.js:69 | a delete shortens the list by exactly the number of todos carrying the id |
| `Todos.EditRenamesEveryCollidingTodo` | todo_frontend/src/App.js:36-39 | in any list where two todos share an id, an edit commit to that id renames both of them in place, keeping ids and completion flags |
| `Seqs.Map` | todo_frontend/src/App.js:36-39 | `map` keeps the length and transforms each element in place |
| `Seqs.Filter` | todo_frontend/src/App.js:97-98 | `filter` returns an order-preserving subsequence of exactly the qualifying elements, each with its full multiplicity |
| `Seqs.FilterConcat` | todo_frontend/src/App.js:69 | filtering distributes over concatenation, so relative order is kept across any split of the list |
| `Seqs.FilterKeepsAll` | todo_frontend/src/App.js:69 | a filter that every element passes returns the list unchanged |
| `Seqs.FilterIdempotent` | todo_frontend/src/App.js:69 | filtering twice with the same predicate equals filtering once |
| `Seqs.SubsequenceMembers` | todo_frontend/src/App.js:69 | every element of a subsequence occurs in the original list |

## Left out

- JSX rendering, CSS classes and the SVG icons (App.js:100-364) are left out. They are presentational and hold no logic. The scenario reads the view through `Project`.
- Focus handling through `useRef`/`useEffect` (App.js:22-27, 64) and `e.preventDefault()` (App.js:31) are left out. They are DOM side effects.
- `Date.now()` (App.js:48) is a clock read. It is the parameter `now` of `Submit`.
- React's deferred `useState` updates, and the mix of functional updaters with the closed-over `todos`, are not modelled. Each handler is one atomic step, which is how a single event is processed.
- The `maxLength` limits of 50 and 120 (App.js:133, 143) and the `required` attribute are not modelled. The browser enforces them before the handlers run; `Submit` itself accepts drafts of any length.
- The disabled state of a todo's edit button (App.js:239) is not modelled. It is a UI guard; `BeginEdit` accepts any todo in either mode, as `handleEditTodo` does.
- The filter is a string in the source. The model uses `FilterMode` with two values because the app only ever passes "all" or "completed" (App.js:112, 120). The source would treat any other string like "completed".
- String equality and whitespace are over Unicode code points. UTF-16 surrogate pairs are not distinguished, and `Todos.IsWhitespace` follows the current Unicode category Zs.
- No lemma states, by induction over a whole run of handler calls, that N successful submits with fresh ids give N todos with unique ids. The same fact follows one step at a time from `Submit`: each successful create-mode submit adds exactly one todo, and ids stay unique when the id is fresh.
