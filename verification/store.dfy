/**
 Persistence of the task list: one `localStorage` slot, under a fixed key,
 holding the JSON text of the whole list. `JSON.stringify` and
 `JSON.parse` are not modelled; they are passed in as a `Codec`, and the
 only thing assumed of them is that parsing what was stringified gives the
 list back.
 */
module Store {
  import opened TaskList

  /** The `localStorage` key the list lives under. */
  const StorageKey: string := "todo-tasks-v2"

  /** The browser's key-value store: string keys to string values. */
  type Storage = map<string, string>

  /** What `JSON.parse` hands back, as far as `getTasks` tells values apart. */
  datatype Json =
    | JNull                     // null
    | JFalsy                    // false, 0 or ""
    | JTasks(tasks: seq<Task>)  // an array of task records; arrays, [] included, are truthy
    | JOther                    // any other truthy value: true, a non-zero number, a non-empty string, an object

  /** `JSON.parse` either throws a SyntaxError or returns a value. */
  datatype ParseResult = SyntaxError | Parsed(value: Json)

  /** The serialisation pair the store uses. */
  datatype Codec = Codec(stringify: seq<Task> -> string, parse: string -> ParseResult)

  /** Parsing what was stringified yields the same list. */
  ghost predicate Faithful(codec: Codec) {
    forall ts :: codec.parse(codec.stringify(ts)) == Parsed(JTasks(ts))
  }

  /** `JSON.parse(localStorage.getItem(key))`: `getItem` answers `null` for
      a missing key, and `JSON.parse(null)` reads the text "null". */
  function ParseStored(st: Storage, parse: string -> ParseResult): ParseResult {
    if StorageKey in st then parse(st[StorageKey]) else Parsed(JNull)
  }

  /** `getTasks()` as written: `JSON.parse(...) || []`, with `[]` also in
      the `catch`. Falsy values and parse errors become the empty list, but
      any other truthy value is handed back as it is, list or not. */
  function GetTasksAsWritten(st: Storage, parse: string -> ParseResult): (r: Json)
    ensures ParseStored(st, parse) == Parsed(JOther) <==> r == JOther
    ensures forall ts :: ParseStored(st, parse) == Parsed(JTasks(ts)) ==> r == JTasks(ts)
    ensures ParseStored(st, parse) in {SyntaxError, Parsed(JNull), Parsed(JFalsy)} ==> r == JTasks([])
  {
    match ParseStored(st, parse)
    case SyntaxError => JTasks([])
    case Parsed(v) => if v == JNull || v == JFalsy then JTasks([]) else v
  }

  /** The storage slot holding the text `{}` (an object, valid JSON) makes
      `getTasks` return that object instead of a list of tasks. */
  lemma GetTasksAsWrittenReturnsObject()
    ensures GetTasksAsWritten(map[StorageKey := "{}"], s => if s == "{}" then Parsed(JOther) else SyntaxError) == JOther
  {
  }

  /** `getTasks()` as its comment promises: the stored list when the slot
      parses to one, and the empty list in every other case (missing slot,
      `null` or another falsy value, malformed text, or a value that is
      not a list). It agrees with `GetTasksAsWritten` wherever that one
      returns a list. */
  function GetTasks(st: Storage, parse: string -> ParseResult): (r: seq<Task>)
    ensures forall ts :: ParseStored(st, parse) == Parsed(JTasks(ts)) ==> r == ts
    ensures !(ParseStored(st, parse).Parsed? && ParseStored(st, parse).value.JTasks?) ==> r == []
    ensures GetTasksAsWritten(st, parse).JTasks? ==> r == GetTasksAsWritten(st, parse).tasks
  {
    match ParseStored(st, parse)
    case Parsed(JTasks(ts)) => ts
    case _ => []
  }

  /** `saveTasks(tasks)`: overwrites the slot with the list's JSON text and
      leaves every other key alone. */
  function SaveTasks(st: Storage, ts: seq<Task>, stringify: seq<Task> -> string): (r: Storage)
    ensures StorageKey in r && r[StorageKey] == stringify(ts)
    ensures forall k :: k != StorageKey ==> (k in r <==> k in st)
    ensures forall k :: k != StorageKey && k in st ==> r[k] == st[k]
  {
    st[StorageKey := stringify(ts)]
  }

  /** Loading right after saving gives back the saved list. */
  lemma SaveThenLoad(st: Storage, ts: seq<Task>, codec: Codec)
    requires Faithful(codec)
    ensures GetTasks(SaveTasks(st, ts, codec.stringify), codec.parse) == ts
    ensures GetTasksAsWritten(SaveTasks(st, ts, codec.stringify), codec.parse) == JTasks(ts)
  {
  }

  /** A slot holding text that does not parse, such as "not json", loads
      as the empty list. */
  lemma CorruptSlotLoadsEmpty(st: Storage, parse: string -> ParseResult)
    requires StorageKey in st && parse(st[StorageKey]) == SyntaxError
    ensures GetTasks(st, parse) == []
  {
  }
}
