# To-do list: task-list model

A Dafny model of the state logic of a single-page to-do list (`app.js`).
The app keeps an ordered list of tasks `{id, text, category, completed}`
in a module-level variable, changes it from DOM event handlers (add form,
inline editor, completion checkbox, delete button), writes the whole list
to one `localStorage` slot after every change, and reloads it when another
tab changes the store.

Here each handler's effect on the list is a pure function over
`seq<Task>`, and the app is a state `App(tasks, storage)` stepped by events:

- `wrappers.dfy` — `Option`.
- `text.dfy` (`Text`) — `String.prototype.trim`. It uses the white-space and
  line-terminator set of ECMA-262, sections 12.2 and 12.3.
- `tasks.dfy` (`TaskList`) — `Task`. Add, submit (trim, then reject blanks),
  find, finish-edit, toggle and remove. Lemmas on order, "nothing else
  changes", idempotence and id uniqueness.
- `store.dfy` (`Store`) — the storage slot `todo-tasks-v2`, `getTasks` and
  `saveTasks`. `JSON.parse`/`JSON.stringify` are an abstract `Codec`.
- `controller.dfy` (`Controller`) — the event step, runs of events, and two
  invariants. Memory and storage stay in agreement, and ids stay unique
  under local events.

Toggle works by list position, not by id. The source's `change` handler
closes over the rendered task object, not an id, so the model addresses
that task by its row. Edit and remove work by id, as in the source:
`find` takes the first task with the id, and `filter` drops every task
with it.

## Model

| member | source | states |
|---|---|---|
| Text.Trim | app.js:157 | The trimmed text is a contiguous piece of the input with only white space cut off either side. It has no white space at either end, and it is empty exactly when the input is all white space. |
| Text.TrimOfPadded | app.js:157 | Trim is determined by its result: any white space around an already-trimmed string is removed, and nothing else. |
| Text.TrimOfTrimmed | app.js:157 | A string with no white space at either end is its own trim, so typed text such as "Buy milk" is stored as it is. |
| Text.TrimIdempotent | app.js:119-129 | Trimming an already-trimmed value changes nothing. So an editor opened on stored text and saved untouched keeps that text. |
| Text.TrimPaddedNew | app.js:128-129 | "  new  " trims to "new". |
| TaskList.AddTask | app.js:100-108 | Add grows the list by one. Every earlier task stays in place. The last task has the given id, text and category and is not completed. |
| TaskList.AddTaskKeepsIdsUnique | app.js:29-31 | Adding under an id that is not yet in the list keeps all ids distinct. |
| TaskList.RemoveUndoesAdd | app.js:100-108 | Removing the id of a freshly added task gives back the list from before the add. |
| TaskList.Submit | app.js:155-160 | The list is unchanged exactly when the typed text is blank or white space only. Otherwise one task is appended, holding the trimmed text, which is non-empty and has no white space at either end. |
| TaskList.SubmitAllLength | app.js:155-160 | After any run of submissions, the list has grown by exactly the number of non-blank ones. |
| TaskList.SubmitAllKeepsIdsUnique | app.js:155-160 | A run of submissions keeps ids unique when each gets an id that is new to the list and to the run. |
| TaskList.Find | app.js:112-113 | Find returns nothing exactly when no task has the id. Otherwise it returns the position of the first task with that id. |
| TaskList.FinishEdit | app.js:127-132 | Saving a value that is not blank sets the first matching task's text to the trimmed value. Cancelling, a blank value or a missing id leaves the list unchanged. No id, category or completion flag changes, and no other task changes. |
| TaskList.FinishEditTrimsValue | app.js:127-130 | Saving "  new  " stores "new". Saving "" keeps the old text. |
| TaskList.FinishEditKeepsIdsUnique | app.js:127-132 | An edit keeps unique ids unique. |
| TaskList.SetCompleted | app.js:70-72 | The row's task takes the checkbox state as its completion flag. Its other fields and every other task stay as they were. |
| TaskList.Toggle | app.js:62-72 | A checkbox click flips the completion flag of that row's task, because the box was rendered as `!!task.completed`. |
| TaskList.ToggleTwice | app.js:62-72 | Two clicks on the same checkbox restore the list. |
| TaskList.SetCompletedKeepsIdsUnique | app.js:70-72 | Toggling keeps unique ids unique. |
| TaskList.Remove | app.js:147 | Exactly the tasks without the id are kept, and no task with the id is left. The list never grows, and it is unchanged when the id is absent. |
| TaskList.RemoveConcat | app.js:147 | Removing from two joined lists is removing from each part. So the kept tasks stay in their relative order. |
| TaskList.RemoveIdempotent | app.js:147 | Removing the same id twice is the same as removing it once. |
| TaskList.RemoveAtUnique | app.js:147 | When ids are unique, removing a task's id cuts out just that task and keeps the rest in order. |
| TaskList.RemoveKeepsIdsUnique | app.js:147 | Removing keeps unique ids unique. |
| Store.GetTasksAsWritten | app.js:16-21 | `getTasks` as written. A parse error, a missing slot and a falsy value give the empty list. Any other value is returned unchanged, list or not. |
| Store.GetTasksAsWrittenReturnsObject | app.js:18 | A slot holding `{}` makes `getTasks` return an object, not a list. |
| Store.GetTasks | app.js:15-21 | `getTasks` as its comment intends. It returns the stored list when the slot parses to one, and the empty list in every other case. It agrees with the as-written version whenever that one returns a list. |
| Store.CorruptSlotLoadsEmpty | app.js:19-20 | Text that does not parse, such as "not json", loads as the empty list. |
| Store.SaveTasks | app.js:25-27 | Save overwrites the slot with the serialised list and leaves every other key alone. |
| Store.SaveThenLoad | app.js:16-27 | Loading right after saving gives back the saved list, under both versions of `getTasks`. |
| Controller.Start | app.js:166-167 | The page starts with the list loaded from the store, which it only reads. So memory and storage agree from the start, and a missing slot gives an empty list. |
| Controller.SaveAndRender | app.js:93-96 | The new list becomes the in-memory list. Its JSON text is written to the app's slot, and no other key changes. With a round-trip codec, loading gives the list back. |
| Controller.Step | app.js:62-176 | One event. A blank submit returns without saving. A non-blank submit appends the trimmed task. An edit applies `FinishEdit`, a checkbox click toggles its row, and the remove timer filters out the id. Each of these saves, even when the list did not change. A `storage` event takes the other tab's store, reloads the list from it and saves nothing. |
| Controller.EditAfterClearSaves | app.js:126-132 | If an editor is still open when another tab empties the store, finishing the edit saves the empty list. The slot is then written, not left missing. |
| Controller.StepKeepsOtherKeys | app.js:94-97 | No local event touches any storage key other than the app's own. |
| Controller.StepKeepsSynced | app.js:94-97 | After every event, the in-memory list equals what loading the store would give. This covers the early returns, `saveAndRender` and the cross-tab reload. |
| Controller.RunKeepsSynced | app.js:167-176 | A page that starts from the store stays in agreement with it through any run of events. |
| Controller.StepKeepsIdsUnique | app.js:99-162 | Submitting with a fresh id, editing, toggling and removing all keep ids unique. |
| Controller.BuyMilk | app.js:99-162 | Start from an empty store and add "Buy milk": one task, not completed. Tick it: completed. Delete it: the list is empty again. |

## Left out

- Rendering is not modelled: `renderTasks`, `createTaskElement`, template cloning, `classList` and `dataset`. The page is taken to show `tasks` after every step.
- The animation delays are not modelled. The 350 ms "adding" class is presentation only. Remove is modelled at the moment its 320 ms timer fires, as an immediate filter.
- Ids are not generated. `generateId` uses `Math.random` and never checks for collisions, so the id is an input, and the uniqueness lemmas require it to be fresh.
- `JSON.parse` and `JSON.stringify` are not implemented. They are the abstract `Codec`, and the round-trip lemmas assume parsing undoes stringifying. Arrays whose elements are not task records are outside the `Json` abstraction.
- Storage is not real `localStorage`. It is a value, and the `storage` event is modelled as the other tab leaving the store in a given state.
- `Toggle`: the source's `!!task.completed` coerces any stored value to a boolean. Here `completed` is already a boolean, so the coercion is the identity.
- `FinishEdit`: the editor is modelled as finishing on the list as it is at that moment, matched by id. The source's editor keeps the task object it found when editing started. If a cross-tab reload replaces the list mid-edit, the source writes the new text to a detached object and the edit is lost. The model applies it to the reloaded task with that id.
- Blur events are not a separate kind of event. A blur calls `finishEdit(true)`, and that includes the blur that the re-render after Escape causes. So after a cancel, the value typed into the editor can still be stored. Each such call is one more `EditFinished(id, value, true)` event, and the model accepts any sequence of those.
- Controller.Start / Controller.Step: both the start-up load and the reload on a `storage` event use the corrected `GetTasks` (see Findings). So a slot that parses to a non-list gives the empty list, where the source sets `tasks` to that value and `renderTasks` then throws.
- Controller.StepKeepsSynced: storage writes are assumed never to throw. In the source, `localStorage.setItem` can throw, for example when the quota is exceeded or storage is disabled. The handler has already changed `tasks` in memory by then, so `saveAndRender` stops before rendering, and memory and storage differ. `SaveTasks` cannot fail, and `Synced` depends on that.
- The input's `maxLength = 100` is a browser limit. The list logic never checks it.
- The form clearing its input after a submit is UI state.
- Strings are sequences of Unicode scalar values, not UTF-16 code units. Every character `trim` removes is in the Basic Multilingual Plane, so trimming is unaffected.

## Findings

| source | as written | input that shows it | evidently intended | confidence | as-written member | corrected member |
|---|---|---|---|---|---|---|
| app.js:18 | `JSON.parse(...) \|\| []` returns any truthy parsed value unchanged | the storage slot holds `{}` (or `5`, or `"x"`). `getTasks` returns a non-list, and `tasks.forEach` in `renderTasks` then throws on page load | the empty list for anything that is not a stored task list, as the comment at line 15 says | not executed; medium | Store.GetTasksAsWrittenReturnsObject | Store.GetTasks |
