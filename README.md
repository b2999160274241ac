# To-do list task store, modelled in Dafny

The to-do page keeps one ordered list of task records `{id, text, completed,
edited}`, in the order they were added. Adding a task trims the input and
ignores it if it is blank; otherwise it appends a new record. Saving an
edit trims the new text. Blank text counts as a cancel. Otherwise the first
record with the id gets the new text and is flagged as edited. Deleting
filters out every record with the id. After each change the list is written
to local storage and the list area is rebuilt. The list area shows either the
empty-state placeholder or one row per task, with an "(edited)" badge on
edited tasks. A count label reads "1 task" or "N tasks".

The model has four modules:

- `JsText` (`js_text.dfy`): JavaScript's `String.prototype.trim` over the
  ECMAScript whitespace and line-terminator code points, and the decimal
  text of a non-negative integer.
- `Tasks` (`tasks.dfy`): the `Task` record, the `findIndex` lookup
  (`FindIndex`), the `filter` used by deletion (`Remove`), and the list
  invariant `Wellformed`: ids pairwise distinct and every text non-empty and
  trimmed.
- `TaskView` (`task_view.dfy`): the rows and placeholder a full rebuild
  draws (`ViewOf`), and the count label (`CountLabel`).
- `TaskStore` (`task_store.dfy`): the class `Store`. Its field `tasks` is the
  module-level list. Its field `stored` is what local storage holds under the
  store's key. `Load`, `Add`, `SaveEdit`, `Delete` and `Save` change these
  fields in place. `Cancel` changes nothing. `Render` rebuilds the list area
  with a loop. `Load`, `Add`, `SaveEdit`, `Cancel` and `Delete` each return a
  `Refresh`. It says whether the operation redrew the list area and the
  count, and what they show. Three small client methods
  (`ExampleAdd`, `ExampleRename`, `ExampleDelete`) go through a session in
  three steps: add "Buy milk", rename it to "Buy oat milk", delete it. Each
  step builds its own `Store`. `ExampleRename` and `ExampleDelete` start from
  storage that holds the list the previous step saved, and load it first.

The new task's id comes from `Date.now()` in the source. Here it is the
`freshId` parameter of `Add`. The list invariant survives `Add` when that id
is not already in the list. `Add` does not require this, because the source
does not check it.

Deletion filters out every task with the id, not just one task with it. It
removes exactly one task when exactly one task has the id; for a present id,
unique ids guarantee this (`Tasks.RemovePresent`).
Saving non-blank text for an id that is not in the list neither saves nor
redraws (script.js:98). Blank text redraws the list whatever the id, because
it is a cancel (script.js:92-94).

## Model

| member | source | states |
|---|---|---|
| JsText.IsWhitespace | script.js:23 | the characters trim strips: ECMAScript whitespace and line terminators, so space, tab, line feed and carriage return are stripped and letters and digits never are |
| JsText.LeadingWhitespace | script.js:23 | the count of leading characters that trim strips: all of them are whitespace, and the next character, if any, is not |
| JsText.TrailingWhitespace | script.js:23 | the count of trailing characters that trim strips: all of them are whitespace, and the one before them, if any, is not |
| JsText.Trim | script.js:23 | the trimmed text has no whitespace at either end |
| JsText.TrimSplit | script.js:23 | the input is the trimmed text with whitespace before and after it |
| JsText.TrimOfPadded | script.js:23 | trim is determined by that framing: any string with no whitespace at its ends, padded with any whitespace, trims to itself |
| JsText.TrimOfTrimmed | script.js:23 | a string with no whitespace at its ends is its own trim, so the clean text the list invariant requires is unchanged by trimming |
| JsText.TrimEmptyIff | script.js:92 | the blank test `trim() === ''` holds exactly when every character of the input is whitespace |
| JsText.TrimIdempotent | script.js:23 | trimming the trimmed text changes nothing, so every non-blank trimmed input is clean text as the list invariant requires |
| JsText.DecimalString | script.js:162 | the count's text is a non-empty string of decimal digits with no leading zero |
| JsText.DecimalRoundTrip | script.js:162 | reading the count's decimal text back gives the count |
| Tasks.FindIndex | script.js:97 | -1 exactly when no task has the id; otherwise the index of a task with the id, with no earlier task having it |
| Tasks.Edited | script.js:99-100 | a saved edit sets the text to the new value and the edited flag to true, and carries the id and the completed flag over |
| Tasks.Remove | script.js:113 | a task is kept exactly when it was in the list and its id differs; the list never grows |
| Tasks.RemoveConcat | script.js:113 | filtering works element by element, so the kept tasks stay in their original relative order |
| Tasks.RemoveAbsent | script.js:113 | deleting an id that no task has leaves the list unchanged |
| Tasks.RemovePresent | script.js:113 | with unique ids, deleting a present id shortens the list by exactly one |
| Tasks.AppendKeepsWellformed | script.js:30-37 | appending a task whose id is fresh and whose text is clean keeps ids distinct and texts clean |
| Tasks.EditKeepsWellformed | script.js:97-100 | replacing one task's text with clean text and setting its edited flag keeps the invariant |
| Tasks.RemoveKeepsWellformed | script.js:113 | filtering by id keeps the invariant |
| TaskView.Rows | script.js:130-146 | one row per task, in list order, each carrying that task's id, text and edited flag |
| TaskView.ViewOf | script.js:120-146 | the placeholder is shown and there are no rows exactly when the list is empty; otherwise there is one row per task in order, carrying its id and text, with a badge exactly when the task was edited |
| TaskView.CountLabel | script.js:160-162 | the label for one task is "1 task"; for any other count, zero included, it is the count in decimal followed by " tasks" |
| TaskView.CountLabelWording | script.js:162 | the label is "1 task" exactly when the count is 1; zero reads "0 tasks" and two reads "2 tasks" |
| TaskView.CountLabelInjective | script.js:160-162 | different counts never give the same label |
| TaskStore.Store.constructor | script.js:9 | the page starts with an empty list, whatever storage holds |
| TaskStore.Store.Load | script.js:12-19 | a stored list replaces the in-memory list and is drawn; the count is shown either way |
| TaskStore.Store.Save | script.js:166-168 | storage is overwritten with the whole current list, which is unchanged |
| TaskStore.Store.Render | script.js:120-157 | the loop draws exactly the view of the current list: the placeholder for an empty list, otherwise one row per task in order |
| TaskStore.Store.Add | script.js:22-45 | blank input changes, saves and redraws nothing; otherwise exactly one task with the trimmed text, not completed and not edited, is appended after the unchanged earlier tasks, and the list is saved, redrawn and counted; ids stay distinct and texts clean when the id is fresh |
| TaskStore.Store.SaveEdit | script.js:91-104 | blank text acts exactly like cancel; for a present id the first task with it gets the trimmed text and the edited flag, the length and every other task are unchanged, and the list is saved and redrawn; an absent id changes, saves and redraws nothing; the invariant is kept |
| TaskStore.Store.Cancel | script.js:107-109 | nothing changes and the current list is redrawn |
| TaskStore.Store.Delete | script.js:112-117 | the list becomes exactly the tasks with another id; it is saved, redrawn and counted; the invariant is kept |

## Left out

- Finding page elements, building the `innerHTML` markup, `classList`, `focus()`, showing or hiding the placeholder through `style`, and attaching event listeners (script.js:1-6, 131-155, 171-177): the row's markup is modelled only as its id, text and badge.
- `editTask` (script.js:48-88): it only swaps page nodes for an input field and buttons and never touches the list. The values it passes to `saveTaskEdit` and `cancelTaskEdit` are the parameters of `SaveEdit` and `Cancel`.
- Clearing the input field after a successful add (script.js:43-44): this is a page-element write.
- `JSON.stringify` and `JSON.parse` (script.js:15, 167): storage is modelled as the parsed list itself, so a save followed by a load returns the same list by construction. The fidelity of the JSON round trip belongs to the browser, not to this code.
- TaskStore.Store.Load: the stored list is taken as it is, so `Valid()` after loading depends on what an earlier session saved. A stored value that is an empty string, which the source treats as absent, cannot be written by this program and is not modelled. Nor is a stored value that `JSON.parse` rejects: the source throws there (script.js:15), and such a value cannot be represented at the level of parsed lists.
- TaskStore.Store.Save: storage reads and writes are modelled as never failing. In the source, `localStorage.setItem` (script.js:167) can throw, for example a QuotaExceededError when storage is full, and `localStorage.getItem` (script.js:13) can throw when storage is blocked; nothing catches either. When a write throws, the in-memory list has already changed (the push at script.js:37, the reassignment at script.js:113, the field writes at script.js:99-100), but storage keeps its old value and the list area and count are not redrawn. The contracts of `Add`, `SaveEdit` and `Delete` promise "saved, redrawn and counted" only on this never-failing storage, and `Load` does not model a read that throws.
- `Date.now()` (script.js:31): this is a clock call. It becomes the `freshId` parameter of `Add`.
- HTML escaping of the text in a row (script.js:137): the source does none, and the row carries the text unchanged.
- JsText.Trim: JavaScript strings are UTF-16 code units, and Dafny characters are Unicode scalar values. A lone surrogate cannot be represented here. It is not whitespace in either model.
- Object identity of task records: in the source, `saveTaskEdit` updates the fields of the record object in place (script.js:99-100). Here a task is a value, and the list element is replaced. The Edit and Delete listeners that `renderTasks` attaches (script.js:149-155) do hold the record and read `task.id` when clicked. But nothing ever assigns `id`; only `text` and `edited` are assigned (script.js:99-100). So a listener reads the same id the model's row carries, and the two agree.
