# NextTodo task store in Dafny

This project models the task store of NextTodo's single page, the `Home`
component in `app/page.js`. The store has three state cells: the task list
`todos`, the draft title `newTask` and the `showDialog` flag. Three handlers
change the list:

- **add** (`handleAddTask`) rejects a draft that is blank after trimming;
  otherwise it appends `{id, title, completed: false}`, clears the draft and
  closes the dialog;
- **toggle** (`handleComplete`) negates `completed` on every record whose id
  matches;
- **delete** (`handleDelete`) keeps every record whose id does not match.

Layout:

- `text.dfy`, module `Text`: the characters JavaScript's `String.prototype.trim`
  strips (ECMAScript WhiteSpace and LineTerminator), the trim itself, and the
  blank test the add handler performs.
- `todo_list.dfy`, module `TodoList`: the `Todo` record and the list
  transformations `Add`, `Toggle` and `Delete` as pure functions over
  `seq<Todo>`, with the lemmas about them.
- `todo_store.dfy`, module `Home`: class `TodoStore` with the three state cells
  as fields and one method per handler. Each method assigns its fields the
  values the handler passes to the setters.

The model follows the code on three points a reader might get wrong:

- The stored title is the draft exactly as typed. Trim is used only to test
  for blankness, so `"  milk "` is stored with its spaces.
- Ids are not assumed unique. Toggle flips, and delete removes, every record
  with a matching id.
- The clock read `Date.now()` that supplies a new id is a parameter `id` of
  `Add` and `HandleAddTask`. Nothing is assumed about it, not even freshness.

## Model

| member | source | states |
|---|---|---|
| Text.TrimStart | app/page.js:24 | the result is the longest suffix of the input that does not start with whitespace; everything dropped is whitespace |
| Text.TrimEnd | app/page.js:24 | the result is the longest prefix of the input that does not end with whitespace; everything dropped is whitespace |
| Text.Trim | app/page.js:24 | the result is a contiguous slice of the input; everything dropped before and after it is whitespace, and unless empty it neither starts nor ends with whitespace |
| Text.TrimEmptyIffBlank | app/page.js:24 | `s.trim()` is the empty (falsy) string exactly when every character of `s` is whitespace |
| TodoList.Add | app/page.js:24-28 | a blank title leaves the list unchanged; otherwise the list grows by exactly one, the old list is a prefix, and the last record is the given id with the untrimmed title, not completed |
| TodoList.Toggle | app/page.js:35-37 | the length is kept; at every position id and title are kept, and `completed` is negated exactly where the id matches |
| TodoList.Delete | app/page.js:42 | no kept record has the id, and the list never grows |
| TodoList.DeleteLength | app/page.js:42 | the length drops by exactly the number of records carrying the id |
| TodoList.DeleteIsOrderedFilter | app/page.js:42 | the result is the original records at a strictly increasing list of positions, and a position is among them exactly when its record's id differs |
| TodoList.DeleteKeepsAllIffAbsent | app/page.js:42 | the delete keeps the list's length exactly when no record carries the id |
| TodoList.ToggleTwice | app/page.js:35-37 | toggling the same id twice restores the list |
| TodoList.ToggleAbsent | app/page.js:35-37 | toggling an id no record carries changes nothing |
| TodoList.DeleteAbsent | app/page.js:42 | deleting an id no record carries changes nothing |
| TodoList.DeleteIdempotent | app/page.js:42 | deleting an id twice equals deleting it once |
| TodoList.DeleteAfterToggle | app/page.js:33-43 | toggling an id and then deleting it equals deleting it |
| TodoList.ToggleDeleteCommute | app/page.js:33-43 | toggle and delete commute, for equal ids as well as different ones |
| TodoList.AddKeepsTitlesFilled | app/page.js:24-28 | if no title in the list is blank, none is after an add |
| TodoList.ToggleKeepsTitlesFilled | app/page.js:35-37 | if no title in the list is blank, none is after a toggle |
| TodoList.DeleteKeepsTitlesFilled | app/page.js:42 | if no title in the list is blank, none is after a delete |
| TodoList.AddToggleDeleteScenario | app/page.js:22-43 | for distinct ids a and b, from an empty list, add "A" and "B", toggle "A" and delete "B": what is left is "A", completed |
| TodoList.AddToggleDeleteSameIdScenario | app/page.js:22-43 | when both adds get the same id, the same walk-through leaves the list empty: toggle flips both records and delete removes both |
| Home.TodoStore.constructor | app/page.js:7-9 | the store starts with no tasks, an empty draft and the dialog closed |
| Home.TodoStore.OpenDialog | app/page.js:53 | the dialog is open; list and draft are unchanged; the invariant is kept |
| Home.TodoStore.EditDraft | app/page.js:106 | the draft is the typed text; list and dialog flag are unchanged; the invariant is kept |
| Home.TodoStore.HandleAddTask | app/page.js:22-31 | a blank draft changes no field; otherwise the list gains the untrimmed draft as a new open task at the end, the draft is cleared and the dialog closed; no blank title ever enters the list |
| Home.TodoStore.HandleComplete | app/page.js:33-39 | the list becomes its toggle by id; draft and dialog flag are unchanged |
| Home.TodoStore.HandleDelete | app/page.js:41-43 | the list becomes its delete by id; draft and dialog flag are unchanged |
| Home.TodoStore.HandleCancel | app/page.js:113-116 | the dialog is closed and the draft cleared; the list is unchanged; the invariant is kept |

## Left out

- Persistence: reading the list from `localStorage` on mount, writing it back
  on every change, and the `JSON.parse`/`JSON.stringify` round trip
  (app/page.js:11-20). This is browser I/O and library serialisation.
  Because loading is not modelled, the store's invariant that no title is
  blank holds only for lists built by the handlers. A stored list from
  elsewhere could break it.
- React's `useEffect` scheduling and re-rendering. Each handler is modelled
  as one atomic state transition.
- `Date.now()`. It is a clock read, so the id is a parameter.
- `e.preventDefault()` and all markup, styling, images and footer links.
  These are presentation. That includes the Submit button being disabled
  while the draft is blank (app/page.js:123). The add handler repeats that
  test, and the model keeps the handler's test.
- Unicode itself: `IsWhitespace` lists the ECMAScript WhiteSpace and
  LineTerminator code points explicitly. Dafny's `char` is a Unicode scalar
  value, not a UTF-16 code unit as in JavaScript; this makes no difference
  for trimming, since every whitespace code point is a single code unit.
