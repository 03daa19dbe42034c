/** The task collection as a value: the Task record, the two array
    operations the mutators are built from (map and filter), the new
    collection each mutator computes, the filtered view and the counter. */
module Tasks {

  type TaskId = string

  /** One to-do entry. `createdAt` is the millisecond timestamp taken when
      the task was added. */
  datatype Task = Task(id: TaskId, text: string, done: bool, createdAt: int)

  /** The value of the filter select. The source's type admits "todas",
      "completadas" and "pendientes", but the select's value is cast without
      a check, so any string can reach the filter; every value other than
      the last two shows everything. */
  type Filter = string

  const All: Filter := "todas"
  const Completed: Filter := "completadas"
  const Pending: Filter := "pendientes"

  predicate IsDone(t: Task) { t.done }

  predicate IsPending(t: Task) { !t.done }

  predicate HasId(ts: seq<Task>, id: TaskId) {
    exists t <- ts :: t.id == id
  }

  /** No two tasks of the collection share an id. */
  ghost predicate UniqueIds(ts: seq<Task>) {
    forall i, j | 0 <= i < j < |ts| :: ts[i].id != ts[j].id
  }

  /** `r` is `s` with some elements dropped and the others in their order. */
  ghost predicate IsSubsequence(r: seq<Task>, s: seq<Task>)
    decreases |s|
  {
    if r == [] then true
    else if s == [] then false
    else (r[0] == s[0] && IsSubsequence(r[1..], s[1..])) || IsSubsequence(r, s[1..])
  }

  // ---------------------------------------------------------------------
  // Array.prototype.map and Array.prototype.filter over tasks

  /** `ts.map(f)`: same length, element i is `f(ts[i])`. */
  function MapTasks(ts: seq<Task>, f: Task -> Task): (r: seq<Task>)
    ensures |r| == |ts|
    ensures forall i | 0 <= i < |ts| :: r[i] == f(ts[i])
  {
    if ts == [] then [] else [f(ts[0])] + MapTasks(ts[1..], f)
  }

  /** `ts.filter(keep)`: exactly the elements that satisfy `keep`, each as
      many times as it occurs in `ts`. */
  function Keep(ts: seq<Task>, keep: Task -> bool): (r: seq<Task>)
    ensures |r| <= |ts|
    ensures forall t :: t in r <==> t in ts && keep(t)
    ensures forall t :: multiset(r)[t] == if keep(t) then multiset(ts)[t] else 0
  {
    if ts == [] then []
    else
      assert ts == [ts[0]] + ts[1..];
      if keep(ts[0]) then [ts[0]] + Keep(ts[1..], keep)
      else Keep(ts[1..], keep)
  }

  /** filter keeps the surviving elements in their original order. */
  lemma {:induction false} KeepIsSubsequence(ts: seq<Task>, keep: Task -> bool)
    ensures IsSubsequence(Keep(ts, keep), ts)
  {
    if ts != [] {
      KeepIsSubsequence(ts[1..], keep);
      if !keep(ts[0]) {
        SubsequenceOfTail(Keep(ts[1..], keep), ts);
      }
    }
  }

  lemma SubsequenceOfTail(r: seq<Task>, s: seq<Task>)
    requires s != [] && IsSubsequence(r, s[1..])
    ensures IsSubsequence(r, s)
  {
  }

  /** filter with a test every element passes returns the input. */
  lemma {:induction false} KeepEverything(ts: seq<Task>, keep: Task -> bool)
    requires forall t <- ts :: keep(t)
    ensures Keep(ts, keep) == ts
  {
    if ts != [] {
      KeepEverything(ts[1..], keep);
    }
  }

  /** filter keeps ids unique. */
  lemma {:induction false} KeepUnique(ts: seq<Task>, keep: Task -> bool)
    requires UniqueIds(ts)
    ensures UniqueIds(Keep(ts, keep))
  {
    if ts != [] {
      assert UniqueIds(ts[1..]);
      KeepUnique(ts[1..], keep);
      if keep(ts[0]) {
        var r := Keep(ts[1..], keep);
        forall j | 0 <= j < |r| ensures ts[0].id != r[j].id {
          assert r[j] in ts[1..];
        }
      }
    }
  }

  /** The done tasks and the pending tasks split the collection: their
      lengths add up and together they hold every task as often as the
      collection does. */
  lemma {:induction false} DonePendingPartition(ts: seq<Task>)
    ensures |Keep(ts, IsDone)| + |Keep(ts, IsPending)| == |ts|
    ensures multiset(Keep(ts, IsDone)) + multiset(Keep(ts, IsPending)) == multiset(ts)
  {
    if ts != [] {
      DonePendingPartition(ts[1..]);
      assert ts == [ts[0]] + ts[1..];
    }
  }

  // ---------------------------------------------------------------------
  // The collections the mutators compute

  /** `toggleTask`: `done` flipped on the tasks whose id is `id`; every
      other field, and every other task, as it was. */
  function Toggled(ts: seq<Task>, id: TaskId): (r: seq<Task>)
    ensures |r| == |ts|
    ensures forall i | 0 <= i < |ts| ::
      && r[i].id == ts[i].id && r[i].text == ts[i].text && r[i].createdAt == ts[i].createdAt
      && r[i].done == (if ts[i].id == id then !ts[i].done else ts[i].done)
  {
    MapTasks(ts, (t: Task) => if t.id == id then t.(done := !t.done) else t)
  }

  /** Toggling the same id twice gives back the collection. */
  lemma ToggledTwice(ts: seq<Task>, id: TaskId)
    ensures Toggled(Toggled(ts, id), id) == ts
  {
    var r := Toggled(Toggled(ts, id), id);
    forall i | 0 <= i < |ts| ensures r[i] == ts[i] {
      assert r[i] == Task(ts[i].id, ts[i].text, ts[i].done, ts[i].createdAt);
    }
  }

  /** Toggling an id no task has changes nothing. */
  lemma ToggledAbsent(ts: seq<Task>, id: TaskId)
    requires !HasId(ts, id)
    ensures Toggled(ts, id) == ts
  {
    var r := Toggled(ts, id);
    forall i | 0 <= i < |ts| ensures r[i] == ts[i] {
      assert ts[i] in ts;
    }
  }

  /** `updateTaskText`: `text` replaced on the tasks whose id is `id`;
      every other field, and every other task, as it was. */
  function Renamed(ts: seq<Task>, id: TaskId, text: string): (r: seq<Task>)
    ensures |r| == |ts|
    ensures forall i | 0 <= i < |ts| ::
      && r[i].id == ts[i].id && r[i].done == ts[i].done && r[i].createdAt == ts[i].createdAt
      && r[i].text == (if ts[i].id == id then text else ts[i].text)
  {
    MapTasks(ts, (t: Task) => if t.id == id then t.(text := text) else t)
  }

  /** Renaming twice to the same text is renaming once (an edit committed
      by Enter and then again by the blur that follows it). */
  lemma RenamedTwice(ts: seq<Task>, id: TaskId, text: string)
    ensures Renamed(Renamed(ts, id, text), id, text) == Renamed(ts, id, text)
  {
    var r1 := Renamed(ts, id, text);
    var r2 := Renamed(r1, id, text);
    forall i | 0 <= i < |ts| ensures r2[i] == r1[i] {
      assert r2[i] == Task(r1[i].id, r1[i].text, r1[i].done, r1[i].createdAt);
    }
  }

  /** Renaming to the text the task already has changes nothing; in
      particular renaming an id no task has changes nothing. */
  lemma RenamedSameText(ts: seq<Task>, id: TaskId, text: string)
    requires forall t <- ts :: t.id == id ==> t.text == text
    ensures Renamed(ts, id, text) == ts
  {
    var r := Renamed(ts, id, text);
    forall i | 0 <= i < |ts| ensures r[i] == ts[i] {
      assert ts[i] in ts;
      assert r[i] == Task(ts[i].id, ts[i].text, ts[i].done, ts[i].createdAt);
    }
  }

  /** `deleteTask`: the tasks whose id is not `id`, each as many times as
      it occurs in `ts`. */
  function Without(ts: seq<Task>, id: TaskId): (r: seq<Task>)
    ensures !HasId(r, id)
    ensures forall t :: t in r <==> t in ts && t.id != id
    ensures forall t :: multiset(r)[t] == if t.id != id then multiset(ts)[t] else 0
    ensures IsSubsequence(r, ts)
  {
    KeepIsSubsequence(ts, (t: Task) => t.id != id);
    Keep(ts, (t: Task) => t.id != id)
  }

  /** Deleting an id no task has changes nothing. */
  lemma WithoutAbsent(ts: seq<Task>, id: TaskId)
    requires !HasId(ts, id)
    ensures Without(ts, id) == ts
  {
    KeepEverything(ts, (t: Task) => t.id != id);
  }

  /** Deleting the same id twice is deleting it once. */
  lemma WithoutTwice(ts: seq<Task>, id: TaskId)
    ensures Without(Without(ts, id), id) == Without(ts, id)
  {
    WithoutAbsent(Without(ts, id), id);
  }

  /** With unique ids, deleting an id that is present removes exactly one
      task, and the ids stay unique. */
  lemma {:induction false} WithoutRemovesOne(ts: seq<Task>, id: TaskId)
    requires UniqueIds(ts)
    ensures UniqueIds(Without(ts, id))
    ensures |Without(ts, id)| == if HasId(ts, id) then |ts| - 1 else |ts|
  {
    KeepUnique(ts, (t: Task) => t.id != id);
    if ts == [] {
    } else if ts[0].id == id {
      assert !HasId(ts[1..], id) by {
        forall j | 0 <= j < |ts| - 1 ensures ts[1..][j].id != id {
          assert ts[1..][j] == ts[j + 1];
        }
      }
      WithoutAbsent(ts[1..], id);
    } else {
      assert UniqueIds(ts[1..]);
      WithoutRemovesOne(ts[1..], id);
      assert HasId(ts, id) <==> HasId(ts[1..], id) by {
        assert ts == [ts[0]] + ts[1..];
      }
    }
  }

  // ---------------------------------------------------------------------
  // The filtered view and the counter

  /** Whether a task with this completion flag is shown under filter `f`. */
  predicate Shows(f: Filter, t: Task) {
    (f == Completed ==> t.done) && (f == Pending ==> !t.done)
  }

  /** `getVisibleTasks`: the tasks the filter shows, in collection order;
      any filter value other than "completadas" and "pendientes" shows the
      collection as it is. */
  function Visible(ts: seq<Task>, f: Filter): (r: seq<Task>)
    ensures forall t :: t in r <==> t in ts && Shows(f, t)
    ensures forall t :: multiset(r)[t] == if Shows(f, t) then multiset(ts)[t] else 0
    ensures IsSubsequence(r, ts)
    ensures f != Completed && f != Pending ==> r == ts
  {
    match f
    case "completadas" => KeepIsSubsequence(ts, IsDone); Keep(ts, IsDone)
    case "pendientes" => KeepIsSubsequence(ts, IsPending); Keep(ts, IsPending)
    case _ => SubsequenceOfSelf(ts); ts
  }

  lemma {:induction false} SubsequenceOfSelf(ts: seq<Task>)
    ensures IsSubsequence(ts, ts)
  {
    if ts != [] {
      SubsequenceOfSelf(ts[1..]);
    }
  }

  /** The "completadas" and "pendientes" views partition the collection. */
  lemma VisiblePartition(ts: seq<Task>)
    ensures |Visible(ts, Completed)| + |Visible(ts, Pending)| == |ts|
    ensures multiset(Visible(ts, Completed)) + multiset(Visible(ts, Pending)) == multiset(ts)
  {
    DonePendingPartition(ts);
  }

  /** What the status line shows. */
  datatype Counter = Counter(pending: nat, total: nat)

  /** `renderCounter`: pending and total counted over the whole collection,
      whatever the filter. */
  function Count(ts: seq<Task>): (c: Counter)
    ensures c.total == |ts|
    ensures c.pending <= c.total
    ensures c.pending + |Visible(ts, Completed)| == c.total
  {
    DonePendingPartition(ts);
    Counter(|Keep(ts, IsPending)|, |ts|)
  }
}
