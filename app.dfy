/** The page's state and what the event handlers do to it: the module-level
    `tasks` and `currentFilter`, the storage slot each mutator writes
    through to, the five mutators, and the decisions of the submit, filter
    and inline-edit handlers. */
module TodoApp {
  import opened Text
  import opened Tasks

  /** A submitted or edited text as the mutators receive it: not empty, and
      neither starting nor ending with whitespace (so trimming it again
      changes nothing). */
  ghost predicate IsCleanText(s: string) {
    s != [] && !IsWhitespace(s[0]) && !IsWhitespace(s[|s| - 1])
  }

  /** Every task's text is clean. */
  ghost predicate AllClean(ts: seq<Task>) {
    forall i | 0 <= i < |ts| :: IsCleanText(ts[i].text)
  }

  /** Putting a task with a clean text in front keeps every text clean. */
  lemma PrependClean(t: Task, ts: seq<Task>)
    requires IsCleanText(t.text) && AllClean(ts)
    ensures AllClean([t] + ts)
  {
    var r := [t] + ts;
    forall i | 0 < i < |r| ensures IsCleanText(r[i].text) {
      assert r[i] == ts[i - 1];
    }
  }

  /** Renaming to a clean text keeps every text clean. */
  lemma RenamedClean(ts: seq<Task>, id: TaskId, text: string)
    requires AllClean(ts) && IsCleanText(text)
    ensures AllClean(Renamed(ts, id, text))
  {
  }

  /** Deleting tasks keeps every remaining text clean. */
  lemma WithoutClean(ts: seq<Task>, id: TaskId)
    requires AllClean(ts)
    ensures AllClean(Without(ts, id))
  {
    var r := Without(ts, id);
    forall i | 0 <= i < |r| ensures IsCleanText(r[i].text) {
      assert r[i] in ts;
    }
  }

  class TodoList {
    /** The in-memory collection, newest first. */
    var tasks: seq<Task>
    /** What the storage slot under the key "tasks" holds. */
    var saved: seq<Task>
    /** The current value of the filter select. */
    var filter: Filter

    /** No two tasks share an id. */
    ghost predicate Valid()
      reads this
    {
      UniqueIds(tasks)
    }

    /** Every task's text is non-empty and trimmed, as the submit and edit
        gates guarantee for the texts they let through. */
    ghost predicate CleanTexts()
      reads this
    {
      AllClean(tasks)
    }

    /** Page start-up: the collection read back from storage, the filter at
        "todas". */
    constructor (loaded: seq<Task>)
      ensures tasks == loaded && saved == loaded && filter == All
    {
      tasks := loaded;
      saved := loaded;
      filter := All;
    }

    /** `addTask`: a new pending task with the given text goes in front of
        the others. `id` and `now` stand for `crypto.randomUUID()` and
        `Date.now()`; the id is fresh. */
    method AddTask(id: TaskId, now: int, text: string) returns (t: Task)
      requires !HasId(tasks, id)
      modifies this`tasks, this`saved
      ensures t.id == id && t.text == text && !t.done && t.createdAt == now
      ensures tasks == [t] + old(tasks)
      ensures saved == tasks
      ensures old(Valid()) ==> Valid()
    {
      t := Task(id, text, false, now);
      tasks := [t] + tasks;
      saved := tasks;
      forall i | 0 < i < |tasks| ensures tasks[i].id != id {
        assert tasks[i] in old(tasks);
      }
    }

    /** `toggleTask`. */
    method ToggleTask(id: TaskId)
      modifies this`tasks, this`saved
      ensures tasks == Toggled(old(tasks), id)
      ensures saved == tasks
      ensures old(Valid()) ==> Valid()
      ensures old(CleanTexts()) ==> CleanTexts()
    {
      tasks := Toggled(tasks, id);
      saved := tasks;
    }

    /** `updateTaskText`. */
    method UpdateTaskText(id: TaskId, newText: string)
      modifies this`tasks, this`saved
      ensures tasks == Renamed(old(tasks), id, newText)
      ensures saved == tasks
      ensures old(Valid()) ==> Valid()
    {
      tasks := Renamed(tasks, id, newText);
      saved := tasks;
    }

    /** `deleteTask`. */
    method DeleteTask(id: TaskId)
      modifies this`tasks, this`saved
      ensures tasks == Without(old(tasks), id)
      ensures saved == tasks
      ensures old(Valid()) ==> Valid()
      ensures old(CleanTexts()) ==> CleanTexts()
    {
      if UniqueIds(tasks) {
        WithoutRemovesOne(tasks, id);
      }
      if CleanTexts() {
        WithoutClean(tasks, id);
      }
      tasks := Without(tasks, id);
      saved := tasks;
    }

    /** `clearAll`, run once the confirmation prompt has been accepted. */
    method ClearAll()
      modifies this`tasks, this`saved
      ensures tasks == [] && saved == []
      ensures Valid() && CleanTexts()
    {
      tasks := [];
      saved := tasks;
    }

    /** `getVisibleTasks`: the view of the current collection under the
        current filter. */
    function GetVisibleTasks(): (r: seq<Task>)
      reads this
      ensures forall t :: t in r <==> t in tasks && Shows(filter, t)
      ensures forall t :: multiset(r)[t] == if Shows(filter, t) then multiset(tasks)[t] else 0
      ensures IsSubsequence(r, tasks)
      ensures filter != Completed && filter != Pending ==> r == tasks
    {
      Visible(tasks, filter)
    }

    /** The counts `renderCounter` shows: over the whole collection, not
        the filtered view. */
    function RenderCounter(): (c: Counter)
      reads this
      ensures c.total == |tasks| && c.pending <= c.total
      ensures c.pending == |Visible(tasks, Pending)|
    {
      Count(tasks)
    }

    /** The filter select's change handler. */
    method SetFilter(value: string)
      modifies this`filter
      ensures filter == value
    {
      filter := value;
    }

    /** The form's submit handler: input that trims to nothing is ignored,
        anything else is added, trimmed. */
    method Submit(input: string, id: TaskId, now: int) returns (added: bool)
      requires !HasId(tasks, id)
      modifies this`tasks, this`saved
      ensures added <==> Trim(input) != []
      ensures added ==> tasks == [Task(id, Trim(input), false, now)] + old(tasks) && saved == tasks
      ensures !added ==> tasks == old(tasks) && saved == old(saved)
      ensures added ==> IsCleanText(tasks[0].text)
      ensures old(Valid()) ==> Valid()
      ensures old(CleanTexts()) ==> CleanTexts()
    {
      var value := Trim(input);
      if value == [] {
        return false;
      }
      if CleanTexts() {
        PrependClean(Task(id, value, false, now), tasks);
      }
      var t := AddTask(id, now, value);
      added := true;
    }

    /** The edit field's commit (`save`, run on Enter and on blur) for the
        row rendered from `row`: the trimmed text is written only when it is
        non-empty and differs from the text the row was rendered with. */
    method CommitEdit(row: Task, input: string) returns (committed: bool)
      modifies this`tasks, this`saved
      ensures committed <==> Trim(input) != [] && Trim(input) != row.text
      ensures committed ==> tasks == Renamed(old(tasks), row.id, Trim(input)) && saved == tasks
      ensures !committed ==> tasks == old(tasks) && saved == old(saved)
      ensures old(Valid()) ==> Valid()
      ensures old(CleanTexts()) ==> CleanTexts()
    {
      var value := Trim(input);
      committed := value != [] && value != row.text;
      if committed {
        if CleanTexts() {
          RenamedClean(tasks, row.id, value);
        }
        UpdateTaskText(row.id, value);
      }
    }

    /** The edit field's key handler: Enter commits, Escape abandons the
        edit, other keys do nothing. */
    method EditKeyDown(row: Task, key: string, input: string) returns (committed: bool)
      modifies this`tasks, this`saved
      ensures key != "Enter" ==> !committed
      ensures key == "Enter" ==> (committed <==> Trim(input) != [] && Trim(input) != row.text)
      ensures committed ==> tasks == Renamed(old(tasks), row.id, Trim(input)) && saved == tasks
      ensures !committed ==> tasks == old(tasks) && saved == old(saved)
      ensures old(Valid()) ==> Valid()
      ensures old(CleanTexts()) ==> CleanTexts()
    {
      committed := false;
      if key == "Enter" {
        committed := CommitEdit(row, input);
      }
    }
  }

  /** The first half of a session, driven only through the handlers'
      contracts: blank input is refused. */
  method SessionOpen(blank: string, id: TaskId, now: int) returns (app: TodoList)
    requires AllWhitespace(blank)
    ensures fresh(app) && app.tasks == [] && app.filter == All
  {
    app := new TodoList([]);
    var added := app.Submit(blank, id, now);
    assert !added;
  }

  /** Then two tasks are added, the older one is completed, the pending
      view and the counter reflect it, and deleting twice is deleting once. */
  method Session(blank: string, milk: string, dog: string, milkId: TaskId, dogId: TaskId, t1: int, t2: int)
    requires AllWhitespace(blank) && milkId != dogId
  {
    var app := SessionOpen(blank, milkId, t1);
    var m := app.AddTask(milkId, t1, milk);
    var walk := app.AddTask(dogId, t2, dog);
    var bought := SessionToggle(app, walk, m);
    SessionClose(app, walk, bought);
    assert app.saved == [bought];
  }

  /** Completing the older of two pending tasks flips it alone. */
  method SessionToggle(app: TodoList, walk: Task, m: Task) returns (bought: Task)
    requires app.tasks == [walk, m] && !walk.done && !m.done && walk.id != m.id
    modifies app
    ensures bought == m.(done := true) && app.tasks == [walk, bought]
  {
    app.ToggleTask(m.id);
    bought := m.(done := true);
    assert app.tasks[0] == walk && app.tasks[1] == bought;
  }

  /** The end of the session: the pending view shows the newer task alone
      and the counter one pending of two; deleting the newer task twice is
      deleting it once, and storage holds the completed task alone. */
  method SessionClose(app: TodoList, walk: Task, bought: Task)
    requires app.tasks == [walk, bought] && !walk.done && bought.done && walk.id != bought.id
    modifies app
    ensures app.tasks == [bought] && app.saved == [bought]
  {
    app.SetFilter(Pending);
    SessionView(walk, bought);
    assert app.GetVisibleTasks() == [walk];
    assert app.RenderCounter() == Counter(1, 2);
    app.DeleteTask(walk.id);
    WithoutAbsent([bought], walk.id);
    app.DeleteTask(walk.id);
  }

  lemma SessionView(walk: Task, bought: Task)
    requires !walk.done && bought.done && walk.id != bought.id
    ensures Visible([walk, bought], Pending) == [walk]
    ensures Count([walk, bought]) == Counter(1, 2)
    ensures Without([walk, bought], walk.id) == [bought]
  {
    assert Keep([bought], IsPending) == [];
    assert Keep([walk, bought], IsPending) == [walk] + Keep([bought], IsPending);
    var other := (t: Task) => t.id != walk.id;
    assert Keep([bought], other) == [bought] + Keep([], other);
  }
}
