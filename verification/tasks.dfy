/**
 The in-memory task list of the to-do app and the operations the app's
 event handlers perform on it, each lifted out of its handler as a pure
 function from the old list to the new one.

 The list is a sequence of task records in insertion (= display) order.
 Ids are meant to be unique, but nothing in the app enforces it, so the
 operations are defined for every list and uniqueness is proved as a
 property they preserve.
 */
module TaskList {
  import opened Wrappers
  import opened Text

  /** One to-do entry, as stored: `{id, text, category, completed}`. */
  datatype Task = Task(id: string, text: string, category: string, completed: bool)

  /** Some task of `ts` carries `id`. */
  predicate HasId(ts: seq<Task>, id: string) {
    exists k :: 0 <= k < |ts| && ts[k].id == id
  }

  /** No two tasks of `ts` share an id. */
  predicate UniqueIds(ts: seq<Task>) {
    forall j, k :: 0 <= j < k < |ts| ==> ts[j].id != ts[k].id
  }

  /** `k` is the position of the first task of `ts` carrying `id`: the task
      `Array.prototype.find` returns. */
  predicate IsFirst(ts: seq<Task>, id: string, k: int) {
    0 <= k < |ts| && ts[k].id == id && forall j :: 0 <= j < k ==> ts[j].id != id
  }

  // ------- Add -------

  /** `addTask(text, category)` with the generated id passed in: pushes one
      new, not yet completed task at the end of the list. */
  function AddTask(ts: seq<Task>, id: string, text: string, category: string): (r: seq<Task>)
    ensures |r| == |ts| + 1
    ensures r[..|ts|] == ts
    ensures r[|ts|].id == id && r[|ts|].text == text && r[|ts|].category == category
    ensures !r[|ts|].completed
  {
    ts + [Task(id, text, category, false)]
  }

  /** The ids after an add are the old ones plus the new one. */
  lemma AddTaskIds(ts: seq<Task>, id: string, text: string, category: string, x: string)
    ensures HasId(AddTask(ts, id, text, category), x) <==> HasId(ts, x) || x == id
  {
  }

  /** Adding under an id no task has yet keeps the ids unique. */
  lemma AddTaskKeepsIdsUnique(ts: seq<Task>, id: string, text: string, category: string)
    requires UniqueIds(ts)
    requires !HasId(ts, id)
    ensures UniqueIds(AddTask(ts, id, text, category))
  {
  }

  // ------- Submit -------

  /** The form's submit handler: trims the typed text and ignores the
      submission when nothing is left; otherwise adds a task holding the
      trimmed text under the chosen category. */
  function Submit(ts: seq<Task>, input: string, category: string, id: string): (r: seq<Task>)
    ensures r == ts <==> AllWhitespace(input)
    ensures !AllWhitespace(input) ==>
              && |r| == |ts| + 1 && r[..|ts|] == ts
              && r[|ts|] == Task(id, Trim(input), category, false)
              && r[|ts|].text != [] && Trimmed(r[|ts|].text)
  {
    var text := Trim(input);
    if text == [] then ts else AddTask(ts, id, text, category)
  }

  /** One use of the add form: what was typed, the category selected and
      the id the generator produced for it. */
  datatype Submission = Submission(input: string, category: string, id: string)

  /** Submitting each of `subs` in turn, starting from `ts`. */
  function SubmitAll(ts: seq<Task>, subs: seq<Submission>): seq<Task>
    decreases |subs|
  {
    if subs == [] then ts
    else SubmitAll(Submit(ts, subs[0].input, subs[0].category, subs[0].id), subs[1..])
  }

  /** How many of `subs` carry text that is not blank. */
  function NonBlankCount(subs: seq<Submission>): nat
    decreases |subs|
  {
    if subs == [] then 0
    else (if AllWhitespace(subs[0].input) then 0 else 1) + NonBlankCount(subs[1..])
  }

  /** Every submission that adds a task gets an id no task and no other
      such submission has. A blank one returns before an id is generated,
      so its `id` is never used. */
  predicate FreshIds(ts: seq<Task>, subs: seq<Submission>) {
    && (forall k :: 0 <= k < |subs| && !AllWhitespace(subs[k].input) ==> !HasId(ts, subs[k].id))
    && (forall j, k :: 0 <= j < k < |subs| && !AllWhitespace(subs[j].input) && !AllWhitespace(subs[k].input) ==>
          subs[j].id != subs[k].id)
  }

  /** A run of submissions grows the list by exactly the number of
      non-blank ones. */
  lemma {:induction false} SubmitAllLength(ts: seq<Task>, subs: seq<Submission>)
    ensures |SubmitAll(ts, subs)| == |ts| + NonBlankCount(subs)
    decreases |subs|
  {
    if subs != [] {
      SubmitAllLength(Submit(ts, subs[0].input, subs[0].category, subs[0].id), subs[1..]);
    }
  }

  /** A run of submissions with fresh ids keeps the ids unique. */
  lemma {:induction false} SubmitAllKeepsIdsUnique(ts: seq<Task>, subs: seq<Submission>)
    requires UniqueIds(ts)
    requires FreshIds(ts, subs)
    ensures UniqueIds(SubmitAll(ts, subs))
    decreases |subs|
  {
    if subs != [] {
      var s := subs[0];
      var ts' := Submit(ts, s.input, s.category, s.id);
      if !AllWhitespace(s.input) {
        AddTaskKeepsIdsUnique(ts, s.id, Trim(s.input), s.category);
      }
      forall k | 0 <= k < |subs[1..]| && !AllWhitespace(subs[1..][k].input) ensures !HasId(ts', subs[1..][k].id) {
        assert subs[1..][k] == subs[k + 1];
        AddTaskIds(ts, s.id, Trim(s.input), s.category, subs[k + 1].id);
      }
      SubmitAllKeepsIdsUnique(ts', subs[1..]);
    }
  }

  // ------- Find -------

  /** `tasks.find(t => t.id === id)`, as a position: the first task carrying
      `id`, or nothing when no task does. */
  function Find(ts: seq<Task>, id: string): (r: Option<nat>)
    ensures r.None? <==> !HasId(ts, id)
    ensures r.Some? ==> IsFirst(ts, id, r.value)
    decreases |ts|
  {
    if ts == [] then None
    else if ts[0].id == id then Some(0)
    else match Find(ts[1..], id)
         case None =>
           assert forall k :: 1 <= k < |ts| ==> ts[k] == ts[1..][k - 1];
           None
         case Some(i) =>
           assert ts[i + 1] == ts[1..][i];
           assert forall j :: 1 <= j < i + 1 ==> ts[j] == ts[1..][j - 1];
           Some(i + 1)
  }

  // ------- Edit -------

  /** `finishEdit(save)` of the inline editor opened on task `id`, with the
      editor's current value: when saving and the trimmed value is not
      empty, the found task's text becomes that trimmed value. A task that
      is not found opens no editor, and cancelling (Escape) or a blank value
      keeps the old text. Nothing but that one text ever changes. */
  function FinishEdit(ts: seq<Task>, id: string, value: string, save: bool): (r: seq<Task>)
    ensures |r| == |ts|
    ensures forall k :: 0 <= k < |ts| ==>
              r[k].id == ts[k].id && r[k].category == ts[k].category && r[k].completed == ts[k].completed
    ensures forall k :: 0 <= k < |ts| && r[k] != ts[k] ==> IsFirst(ts, id, k)
    ensures forall k :: IsFirst(ts, id, k) && save && !AllWhitespace(value) ==> r[k].text == Trim(value)
    ensures !save || AllWhitespace(value) || !HasId(ts, id) ==> r == ts
  {
    match Find(ts, id)
    case None => ts
    case Some(i) =>
      var text := Trim(value);
      if save && text != [] then ts[i := ts[i].(text := text)] else ts
  }

  /** Saving "  new  " over a task's text stores "new"; saving "" keeps the
      old text. */
  lemma FinishEditTrimsValue(t: Task)
    ensures FinishEdit([t], t.id, "  new  ", true) == [t.(text := "new")]
    ensures FinishEdit([t], t.id, "", true) == [t]
  {
    TrimPaddedNew();
    assert Find([t], t.id) == Some(0);
  }

  /** An edit changes no id, so unique ids stay unique. */
  lemma FinishEditKeepsIdsUnique(ts: seq<Task>, id: string, value: string, save: bool)
    requires UniqueIds(ts)
    ensures UniqueIds(FinishEdit(ts, id, value, save))
  {
  }

  // ------- Toggle -------

  /** The checkbox `change` handler of the row showing task `i`: stores
      the checkbox's new state as that task's completion flag. */
  function SetCompleted(ts: seq<Task>, i: nat, checked: bool): (r: seq<Task>)
    requires i < |ts|
    ensures |r| == |ts|
    ensures r[i].completed == checked
    ensures r[i].id == ts[i].id && r[i].text == ts[i].text && r[i].category == ts[i].category
    ensures forall k :: 0 <= k < |ts| && k != i ==> r[k] == ts[k]
  {
    ts[i := ts[i].(completed := checked)]
  }

  /** A click on row `i`'s checkbox: it was rendered as `!!task.completed`,
      so the change event reports the opposite. */
  function Toggle(ts: seq<Task>, i: nat): (r: seq<Task>)
    requires i < |ts|
    ensures |r| == |ts|
    ensures r[i].completed != ts[i].completed
    ensures r[i].id == ts[i].id && r[i].text == ts[i].text && r[i].category == ts[i].category
    ensures forall k :: 0 <= k < |ts| && k != i ==> r[k] == ts[k]
  {
    SetCompleted(ts, i, !ts[i].completed)
  }

  /** Two clicks on the same checkbox restore the list. */
  lemma ToggleTwice(ts: seq<Task>, i: nat)
    requires i < |ts|
    ensures Toggle(Toggle(ts, i), i) == ts
  {
  }

  /** A toggle changes no id, so unique ids stay unique. */
  lemma SetCompletedKeepsIdsUnique(ts: seq<Task>, i: nat, checked: bool)
    requires i < |ts|
    requires UniqueIds(ts)
    ensures UniqueIds(SetCompleted(ts, i, checked))
  {
  }

  // ------- Remove -------

  /** `tasks.filter(task => task.id !== id)`: drops every task carrying
      `id` and keeps all others. */
  function Remove(ts: seq<Task>, id: string): (r: seq<Task>)
    ensures forall t :: t in r <==> t in ts && t.id != id
    ensures !HasId(r, id)
    ensures |r| <= |ts|
    ensures !HasId(ts, id) ==> r == ts
    decreases |ts|
  {
    if ts == [] then []
    else
      var rest := Remove(ts[1..], id);
      assert ts == [ts[0]] + ts[1..];
      if ts[0].id == id then rest else [ts[0]] + rest
  }

  /** Filtering a concatenation filters each part in place: the tasks that
      stay keep their relative order. */
  lemma {:induction false} RemoveConcat(a: seq<Task>, b: seq<Task>, id: string)
    ensures Remove(a + b, id) == Remove(a, id) + Remove(b, id)
    decreases |a|
  {
    if a != [] {
      assert (a + b)[0] == a[0];
      assert (a + b)[1..] == a[1..] + b;
      RemoveConcat(a[1..], b, id);
      var head := if a[0].id == id then [] else [a[0]];
      assert Remove(a + b, id) == head + Remove(a[1..] + b, id);
      assert Remove(a, id) == head + Remove(a[1..], id);
    } else {
      assert a + b == b;
    }
  }

  /** Removing the same id twice is removing it once. */
  lemma RemoveIdempotent(ts: seq<Task>, id: string)
    ensures Remove(Remove(ts, id), id) == Remove(ts, id)
  {
  }

  /** A list is what comes before position `i`, the task at `i`, and what
      comes after. */
  lemma SplitAt(ts: seq<Task>, i: nat)
    requires i < |ts|
    ensures ts == ts[..i] + ([ts[i]] + ts[i + 1..])
  {
  }

  /** In a list with unique ids, task `i`'s id occurs neither before nor
      after it. */
  lemma UniqueIdsElsewhere(ts: seq<Task>, i: nat)
    requires i < |ts|
    requires UniqueIds(ts)
    ensures !HasId(ts[..i], ts[i].id) && !HasId(ts[i + 1..], ts[i].id)
  {
    var pre, post := ts[..i], ts[i + 1..];
    forall k | 0 <= k < |pre| ensures pre[k].id != ts[i].id { assert pre[k] == ts[k]; }
    forall k | 0 <= k < |post| ensures post[k].id != ts[i].id { assert post[k] == ts[i + 1 + k]; }
  }

  /** Removing a task's own id from the list of just that task empties it. */
  lemma RemoveOne(x: Task)
    ensures Remove([x], x.id) == []
  {
    assert [x][1..] == [];
  }

  /** Removing the id of a task that occurs nowhere around it cuts out just
      that task. */
  lemma RemoveBetween(pre: seq<Task>, x: Task, post: seq<Task>)
    requires !HasId(pre, x.id) && !HasId(post, x.id)
    ensures Remove(pre + ([x] + post), x.id) == pre + post
  {
    RemoveOne(x);
    RemoveConcat([x], post, x.id);
    RemoveConcat(pre, [x] + post, x.id);
  }

  /** In a list with unique ids, removing task `i`'s id cuts out exactly
      that task and leaves the others in order. */
  lemma RemoveAtUnique(ts: seq<Task>, i: nat)
    requires i < |ts|
    requires UniqueIds(ts)
    ensures Remove(ts, ts[i].id) == ts[..i] + ts[i + 1..]
  {
    SplitAt(ts, i);
    UniqueIdsElsewhere(ts, i);
    RemoveBetween(ts[..i], ts[i], ts[i + 1..]);
  }

  /** Dropping the first task keeps unique ids unique. */
  lemma TailKeepsIdsUnique(ts: seq<Task>)
    requires ts != [] && UniqueIds(ts)
    ensures UniqueIds(ts[1..]) && !HasId(ts[1..], ts[0].id)
  {
    var tail := ts[1..];
    forall j, k | 0 <= j < k < |tail| ensures tail[j].id != tail[k].id {
      assert tail[j] == ts[j + 1] && tail[k] == ts[k + 1];
    }
    forall k | 0 <= k < |tail| ensures tail[k].id != ts[0].id { assert tail[k] == ts[k + 1]; }
  }

  /** Putting a task in front of a list without its id keeps unique ids
      unique. */
  lemma ConsKeepsIdsUnique(t: Task, ts: seq<Task>)
    requires UniqueIds(ts) && !HasId(ts, t.id)
    ensures UniqueIds([t] + ts)
  {
    var r := [t] + ts;
    forall j, k | 0 <= j < k < |r| ensures r[j].id != r[k].id {
      assert r[k] == ts[k - 1];
      if j > 0 { assert r[j] == ts[j - 1]; }
    }
  }

  /** Removing keeps unique ids unique. */
  lemma {:induction false} RemoveKeepsIdsUnique(ts: seq<Task>, id: string)
    requires UniqueIds(ts)
    ensures UniqueIds(Remove(ts, id))
    decreases |ts|
  {
    if ts != [] {
      var tail := ts[1..];
      TailKeepsIdsUnique(ts);
      RemoveKeepsIdsUnique(tail, id);
      var rest := Remove(tail, id);
      if ts[0].id != id {
        assert !HasId(rest, ts[0].id) by {
          forall k | 0 <= k < |rest| ensures rest[k].id != ts[0].id {
            assert rest[k] in tail;
          }
        }
        ConsKeepsIdsUnique(ts[0], rest);
      }
    }
  }

  /** Removing a freshly added task undoes the add. */
  lemma RemoveUndoesAdd(ts: seq<Task>, id: string, text: string, category: string)
    requires !HasId(ts, id)
    ensures Remove(AddTask(ts, id, text, category), id) == ts
  {
    RemoveConcat(ts, [Task(id, text, category, false)], id);
    assert [Task(id, text, category, false)][1..] == [];
  }
}
