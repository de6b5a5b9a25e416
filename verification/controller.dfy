/**
 The app as a whole: the in-memory list next to the browser storage, and
 the events that drive it. Every event that changes the list ends in
 `saveAndRender()`, which writes the whole list back; a `storage` event
 from another tab throws the in-memory list away and reloads it.
 Rendering is not modelled: after every step the page shows `tasks`.
 */
module Controller {
  import opened Text
  import opened TaskList
  import opened Store

  /** The module-level `tasks` variable and the browser storage. */
  datatype App = App(tasks: seq<Task>, storage: Storage)

  /** What can happen to a running app. */
  datatype Event =
    | FormSubmitted(input: string, category: string, newId: string)  // `submit`; `newId` is what `generateId()` returns
    | EditFinished(id: string, value: string, save: bool)             // `finishEdit` of the editor opened on `id`
    | CheckboxChanged(row: nat)                                        // `change` on the checkbox of the `row`-th rendered task
    | RemoveTimerFired(id: string)                                     // the delayed callback of `removeTaskWithAnimation(id)`
    | StorageChanged(storage: Storage)                                 // `storage` event: another tab left the store as given

  /** The page as it starts: `let tasks = getTasks()`, with the corrected
      `GetTasks`, so a stored value that is not a list starts an empty page
      where the source would fail to render. The store is only read. */
  function Start(st: Storage, codec: Codec): (app: App)
    ensures app.storage == st
    ensures Synced(app, codec)
    ensures StorageKey !in st ==> app.tasks == []
  {
    App(GetTasks(st, codec.parse), st)
  }

  /** The slot holds the JSON text of the in-memory list. */
  predicate Saved(app: App, codec: Codec) {
    StorageKey in app.storage && app.storage[StorageKey] == codec.stringify(app.tasks)
  }

  /** `saveAndRender()` after the list has become `ts`: the list is kept
      in memory and written to the slot, and no other key changes. */
  function SaveAndRender(app: App, ts: seq<Task>, codec: Codec): (r: App)
    ensures r.tasks == ts && Saved(r, codec)
    ensures forall k :: k != StorageKey ==> (k in r.storage <==> k in app.storage)
    ensures forall k :: k != StorageKey && k in app.storage ==> r.storage[k] == app.storage[k]
    ensures Faithful(codec) ==> Synced(r, codec)
  {
    App(ts, SaveTasks(app.storage, ts, codec.stringify))
  }

  /** An event the page can deliver: a checkbox belongs to a rendered row. */
  predicate CanHandle(app: App, e: Event) {
    e.CheckboxChanged? ==> e.row < |app.tasks|
  }

  /** The app after one event. A blank submission returns before anything
      is saved. Every other local event saves, even a cancelled edit, an
      edit whose task a reload has taken away (the source then changes a
      task object that is no longer in the list), or a removal that
      removed nothing. A `storage` event reloads the list and saves
      nothing. */
  function Step(app: App, e: Event, codec: Codec): (r: App)
    requires CanHandle(app, e)
    ensures e.FormSubmitted? && AllWhitespace(e.input) ==> r == app
    ensures e.FormSubmitted? && !AllWhitespace(e.input) ==> r.tasks == Submit(app.tasks, e.input, e.category, e.newId)
    ensures e.EditFinished? ==> r.tasks == FinishEdit(app.tasks, e.id, e.value, e.save)
    ensures e.CheckboxChanged? ==> r.tasks == Toggle(app.tasks, e.row)
    ensures e.RemoveTimerFired? ==> r.tasks == Remove(app.tasks, e.id)
    ensures !e.StorageChanged? && !(e.FormSubmitted? && AllWhitespace(e.input)) ==> Saved(r, codec)
    ensures e.StorageChanged? ==> r.storage == e.storage && Synced(r, codec)
  {
    match e
    case FormSubmitted(input, category, newId) =>
      if AllWhitespace(input) then app
      else SaveAndRender(app, Submit(app.tasks, input, category, newId), codec)
    case EditFinished(id, value, save) =>
      SaveAndRender(app, FinishEdit(app.tasks, id, value, save), codec)
    case CheckboxChanged(row) =>
      SaveAndRender(app, Toggle(app.tasks, row), codec)
    case RemoveTimerFired(id) =>
      SaveAndRender(app, Remove(app.tasks, id), codec)
    case StorageChanged(st) =>  // the reload, again through the corrected `GetTasks`
      App(GetTasks(st, codec.parse), st)
  }

  /** The in-memory list is what loading the store would give. */
  predicate Synced(app: App, codec: Codec) {
    GetTasks(app.storage, codec.parse) == app.tasks
  }

  /** No step touches a storage key other than the app's own, except the
      other tab's write itself. */
  lemma StepKeepsOtherKeys(app: App, e: Event, codec: Codec, k: string)
    requires CanHandle(app, e)
    requires !e.StorageChanged? && k != StorageKey
    ensures k in Step(app, e, codec).storage <==> k in app.storage
    ensures k in app.storage ==> Step(app, e, codec).storage[k] == app.storage[k]
  {
  }

  /** Every step leaves memory and storage in agreement, given a JSON
      round trip that works. */
  lemma StepKeepsSynced(app: App, e: Event, codec: Codec)
    requires Faithful(codec)
    requires CanHandle(app, e)
    requires Synced(app, codec)
    ensures Synced(Step(app, e, codec), codec)
  {
  }

  /** The local events keep ids unique as long as every new task gets an id
      no task has; a reload from the store can bring in anything. */
  lemma StepKeepsIdsUnique(app: App, e: Event, codec: Codec)
    requires CanHandle(app, e)
    requires UniqueIds(app.tasks)
    requires e.FormSubmitted? ==> !HasId(app.tasks, e.newId)
    requires !e.StorageChanged?
    ensures UniqueIds(Step(app, e, codec).tasks)
  {
    match e
    case FormSubmitted(input, category, newId) =>
      if !AllWhitespace(input) {
        AddTaskKeepsIdsUnique(app.tasks, newId, Trim(input), category);
      }
    case EditFinished(id, value, save) =>
      FinishEditKeepsIdsUnique(app.tasks, id, value, save);
    case CheckboxChanged(row) =>
      SetCompletedKeepsIdsUnique(app.tasks, row, !app.tasks[row].completed);
    case RemoveTimerFired(id) =>
      RemoveKeepsIdsUnique(app.tasks, id);
  }

  /** Every event of `es` can be delivered in the state it arrives in. */
  predicate Deliverable(app: App, es: seq<Event>, codec: Codec)
    decreases |es|
  {
    es == [] || (CanHandle(app, es[0]) && Deliverable(Step(app, es[0], codec), es[1..], codec))
  }

  /** The app after the events of `es`, one after another. */
  function Run(app: App, es: seq<Event>, codec: Codec): App
    requires Deliverable(app, es, codec)
    decreases |es|
  {
    if es == [] then app else Run(Step(app, es[0], codec), es[1..], codec)
  }

  /** A page that starts from the store stays in agreement with it through
      any run of events. */
  lemma {:induction false} RunKeepsSynced(app: App, es: seq<Event>, codec: Codec)
    requires Faithful(codec)
    requires Deliverable(app, es, codec)
    requires Synced(app, codec)
    ensures Synced(Run(app, es, codec), codec)
    decreases |es|
  {
    if es != [] {
      StepKeepsSynced(app, es[0], codec);
      RunKeepsSynced(Step(app, es[0], codec), es[1..], codec);
    }
  }

  /** An editor is still open when another tab empties the store: the
      reload leaves no tasks, and the blur that the re-render causes still
      saves, so the slot then holds the empty list's JSON text. */
  lemma EditAfterClearSaves(app: App, codec: Codec)
    ensures var r := Step(Step(app, StorageChanged(map[]), codec), EditFinished("a", "y", true), codec);
            && r.tasks == []
            && Saved(r, codec)
            && r.storage == map[StorageKey := codec.stringify([])]
  {
  }

  /** The life of one task: on an empty store, adding "Buy milk", ticking
      it and deleting it leaves an empty list again. */
  lemma BuyMilk(codec: Codec)
    ensures var a0 := Start(map[], codec);
            var a1 := Step(a0, FormSubmitted("Buy milk", "errand", "_1"), codec);
            && a0.tasks == []
            && a1.tasks == [Task("_1", "Buy milk", "errand", false)]
            && CanHandle(a1, CheckboxChanged(0))
            && var a2 := Step(a1, CheckboxChanged(0), codec);
               && a2.tasks == [Task("_1", "Buy milk", "errand", true)]
               && Step(a2, RemoveTimerFired("_1"), codec).tasks == []
  {
    var text := "Buy milk";
    assert !IsWhitespace(text[0]) && !IsWhitespace(text[|text| - 1]);
    TrimOfTrimmed(text);
    var a0 := Start(map[], codec);
    var a1 := Step(a0, FormSubmitted(text, "errand", "_1"), codec);
    assert a1.tasks == [Task("_1", text, "errand", false)];
    var a2 := Step(a1, CheckboxChanged(0), codec);
    assert a2.tasks == [Task("_1", text, "errand", true)];
    RemoveOne(Task("_1", text, "errand", true));
  }
}
