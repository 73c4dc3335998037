/**
 * The page side of the to-do list (core/static/core/js/todo.js): an ordered
 * list of rendered rows, one per task id, the text input, and the handlers
 * that render, add, toggle and delete rows once their request resolves.
 *
 * A row is the `<li data-id=..>` element reduced to what the handlers read
 * and write: its id, its text and whether its text carries the "done" class.
 * Requests are not modelled as such: each handler is split into what the
 * page does before the request and what its continuation does with the
 * reply.
 */
module TodoList {
  import opened Options
  import opened Text
  import TodoStore

  /** A task id as the page reads it: the number the server sent, or
      `undefined` when the object it received has no `id`. */
  datatype TaskId = Id(n: int) | Undefined

  /** A task object as `addTaskToUI` reads it. */
  datatype Task = Task(id: TaskId, text: string, isDone: bool)

  /** What the continuation of the add request gets from `res.json()`: a task
      object, some other JSON value, or nothing (the body is not JSON, so the
      promise rejects and the continuation never runs). */
  datatype AddResponse = TaskObject(task: Task) | OtherJson | NotJson

  /** A rendered row. */
  datatype Row = Row(id: TaskId, text: string, done: bool)

  /** Reading `id`, `text` and `is_done` from a JSON value that lacks them:
      `undefined`, rendered as the text "undefined", and falsy. */
  function AsTask(response: AddResponse): (t: Task)
    requires !response.NotJson?
    ensures response.TaskObject? ==> t == response.task
    ensures response.OtherJson? ==> t == Task(Undefined, "undefined", false)
  {
    match response
    case TaskObject(task) => task
    case OtherJson => Task(Undefined, "undefined", false)
  }

  /** The body the page receives for a reply of `add_todo`. A redirect to
      the login page and a server error are HTML pages, and "OK" is not JSON. */
  function ReceivedBody(reply: TodoStore.Reply): (r: AddResponse)
    ensures r.TaskObject? <==> reply.Json? && reply.body.TaskBody?
    ensures r.TaskObject? ==>
      r.task == Task(Id(reply.body.todo.id), reply.body.todo.text, reply.body.todo.isDone)
    ensures r.NotJson? <==> !reply.Json?
  {
    match reply
    case Json(_, TaskBody(t)) => TaskObject(Task(Id(t.id), t.text, t.isDone))
    case Json(_, _) => OtherJson
    case _ => NotJson
  }

  /** The row `addTaskToUI` builds: the text carries "done" exactly when the
      task is done. */
  function RowOf(task: Task): Row {
    Row(task.id, task.text, task.isDone)
  }

  /** `document.querySelector('[data-id="id"]')` finds a row. */
  predicate HasRow(rows: seq<Row>, id: TaskId) {
    exists k :: 0 <= k < |rows| && rows[k].id == id
  }

  /** At most one row per task id. */
  ghost predicate UniqueIds(rows: seq<Row>) {
    forall i, j :: 0 <= i < j < |rows| ==> rows[i].id != rows[j].id
  }

  /** The rows after `addTaskToUI(task)`. */
  function AddRow(rows: seq<Row>, task: Task): seq<Row> {
    if HasRow(rows, task.id) then rows else rows + [RowOf(task)]
  }

  /** The rows after `tasks.forEach(addTaskToUI)`. */
  function Render(rows: seq<Row>, tasks: seq<Task>): seq<Row>
    decreases |tasks|
  {
    if tasks == [] then rows
    else AddRow(Render(rows, tasks[..|tasks| - 1]), tasks[|tasks| - 1])
  }

  /** The rows after a toggle request for `id` resolves: that row's "done"
      class is flipped. */
  function FlipDone(rows: seq<Row>, id: TaskId): seq<Row> {
    seq(|rows|, k requires 0 <= k < |rows| =>
      if rows[k].id == id then rows[k].(done := !rows[k].done) else rows[k])
  }

  /** The rows after a delete request for `id` resolves: that row is removed. */
  function RemoveRow(rows: seq<Row>, id: TaskId): (r: seq<Row>)
    ensures |r| <= |rows|
  {
    if rows == [] then []
    else (if rows[0].id == id then [] else [rows[0]]) + RemoveRow(rows[1..], id)
  }

  /** The rows a delete leaves are exactly the rows of other ids. */
  lemma {:induction false} RemoveRowKeepsOthers(rows: seq<Row>, id: TaskId)
    ensures forall x :: x in RemoveRow(rows, id) <==> x in rows && x.id != id
    decreases |rows|
  {
    if rows != [] {
      RemoveRowKeepsOthers(rows[1..], id);
      assert rows == [rows[0]] + rows[1..];
    }
  }

  /** The rows after the continuation of the add request, as written: any
      JSON reply is rendered as a task. */
  function AfterAddResponse(rows: seq<Row>, response: AddResponse): seq<Row> {
    if response.NotJson? then rows else AddRow(rows, AsTask(response))
  }

  /** The rows after the continuation of the add request, as evidently
      intended: only a task object is rendered. */
  function AfterAddResponseChecked(rows: seq<Row>, response: AddResponse): seq<Row> {
    if response.TaskObject? then AddRow(rows, response.task) else rows
  }

  class TodoList {
    var rows: seq<Row>
    var input: string

    ghost predicate Valid()
      reads this
    {
      UniqueIds(rows)
    }

    constructor ()
      ensures Valid() && rows == [] && input == ""
    {
      rows := [];
      input := "";
    }

    /** `addTaskToUI`: appends the task's row unless a row with its id exists. */
    method AddTaskToUI(task: Task)
      requires Valid()
      modifies this
      ensures Valid()
      ensures rows == AddRow(old(rows), task) && input == old(input)
    {
      if HasRow(rows, task.id) {
        return;
      }
      AddRowUnique(rows, task);
      rows := rows + [RowOf(task)];
    }

    /** The initial load: the fetched tasks rendered one by one, in order. */
    method LoadTasks(tasks: seq<Task>)
      requires Valid()
      modifies this
      ensures Valid()
      ensures rows == Render(old(rows), tasks) && input == old(input)
    {
      var i := 0;
      while i < |tasks|
        invariant 0 <= i <= |tasks|
        invariant Valid() && input == old(input)
        invariant rows == Render(old(rows), tasks[..i])
      {
        assert tasks[..i + 1][..i] == tasks[..i];
        AddTaskToUI(tasks[i]);
        i := i + 1;
      }
      assert tasks[..i] == tasks;
    }

    /** The add button's click handler up to the request: the text it would
        send, or none when the trimmed input is empty. */
    method SubmitAdd() returns (request: Option<string>)
      ensures request.None? <==> forall i :: 0 <= i < |input| ==> JsIsSpace(input[i])
      ensures request.Some? ==> request.value == JsTrim(input)
      ensures request.Some? ==> !JsIsSpace(request.value[0])
    {
      var text := JsTrim(input);
      if text == [] {
        return None;
      }
      return Some(text);
    }

    /** The continuation of the add request: render what came back and clear
        the input. */
    method ReceiveAdded(response: AddResponse)
      requires Valid()
      modifies this
      ensures Valid()
      ensures rows == AfterAddResponse(old(rows), response)
      ensures input == if response.NotJson? then old(input) else ""
    {
      if response.NotJson? {
        return;
      }
      AddTaskToUI(AsTask(response));
      input := "";
    }

    /** The continuation of a row's toggle request (any status). */
    method ToggleResolved(id: TaskId)
      requires Valid()
      modifies this
      ensures Valid()
      ensures rows == FlipDone(old(rows), id) && input == old(input)
    {
      rows := FlipDone(rows, id);
    }

    /** The continuation of a row's delete request (any status). */
    method DeleteResolved(id: TaskId)
      requires Valid()
      modifies this
      ensures Valid()
      ensures rows == RemoveRow(old(rows), id) && input == old(input)
    {
      RemoveRowUnique(rows, id);
      rows := RemoveRow(rows, id);
    }
  }

  /** One add, end to end as written: the page's handler, the server's
      `add_todo` for `user`, and the continuation on the body it receives. */
  method SyncAdd(store: TodoStore.Store, page: TodoList, user: TodoStore.UserId)
    requires store.Valid() && page.Valid()
    modifies store, page
    ensures store.Valid() && page.Valid()
    ensures var sent := JsTrim(old(page.input));
      && (sent == [] ==> page.rows == old(page.rows) && store.table == old(store.table))
      && (sent != [] && TodoStore.CleanText(Some(sent)).Some? ==>
            page.rows == AddRow(old(page.rows), Task(Id(store.lastId), TodoStore.CleanText(Some(sent)).value, false)))
      && (sent != [] && TodoStore.CleanText(Some(sent)).None? ==>
            page.rows == AddRow(old(page.rows), Task(Undefined, "undefined", false))
            && store.table == old(store.table))
  {
    var request := page.SubmitAdd();
    if request.None? {
      return;
    }
    var reply := store.AddTodo(Some(user), Some(request.value));
    page.ReceiveAdded(ReceivedBody(reply));
  }

  lemma AddRowUnique(rows: seq<Row>, task: Task)
    requires UniqueIds(rows)
    ensures UniqueIds(AddRow(rows, task))
  {
  }

  /** Rendering the same task twice leaves one row for it (the duplicate
      guard), and the row is there afterwards; earlier rows keep their place. */
  lemma AddRowIdempotent(rows: seq<Row>, task: Task)
    ensures AddRow(AddRow(rows, task), task) == AddRow(rows, task)
    ensures HasRow(AddRow(rows, task), task.id)
    ensures rows <= AddRow(rows, task)
  {
    var r := AddRow(rows, task);
    if !HasRow(rows, task.id) {
      assert r[|rows|].id == task.id;
    }
  }

  /** Loading keeps one row per id, keeps the rows already there in front, and
      has a row for every id that was there or fetched, and no other. */
  lemma {:induction false} RenderInvariants(rows: seq<Row>, tasks: seq<Task>)
    requires UniqueIds(rows)
    ensures UniqueIds(Render(rows, tasks))
    ensures rows <= Render(rows, tasks)
    ensures forall id :: HasRow(Render(rows, tasks), id) <==>
      HasRow(rows, id) || exists k :: 0 <= k < |tasks| && tasks[k].id == id
    decreases |tasks|
  {
    if tasks != [] {
      var init := tasks[..|tasks| - 1];
      var last := tasks[|tasks| - 1];
      RenderInvariants(rows, init);
      var r := Render(rows, init);
      AddRowUnique(r, last);
      AddRowIdempotent(r, last);
      forall id ensures HasRow(Render(rows, tasks), id) <==>
        HasRow(rows, id) || exists k :: 0 <= k < |tasks| && tasks[k].id == id
      {
        if HasRow(rows, id) || exists k :: 0 <= k < |init| && init[k].id == id {
          assert HasRow(r, id);
          var j :| 0 <= j < |r| && r[j].id == id;
          assert AddRow(r, last)[j] == r[j];
        }
        if exists k :: 0 <= k < |tasks| && tasks[k].id == id {
          var k :| 0 <= k < |tasks| && tasks[k].id == id;
          if k < |init| {
            assert init[k] == tasks[k];
          }
        }
        if HasRow(Render(rows, tasks), id) && !HasRow(r, id) {
          assert id == last.id;
        }
      }
    }
  }

  /** When the fetched list repeats an id, the first task with that id is
      the one rendered. */
  lemma {:induction false} RenderFirstWins(rows: seq<Row>, tasks: seq<Task>, j: nat)
    requires j < |tasks| && !HasRow(rows, tasks[j].id)
    requires forall k :: 0 <= k < j ==> tasks[k].id != tasks[j].id
    ensures RowOf(tasks[j]) in Render(rows, tasks)
    decreases |tasks|
  {
    var init := tasks[..|tasks| - 1];
    var last := tasks[|tasks| - 1];
    var r := Render(rows, init);
    if j == |tasks| - 1 {
      assert !HasRow(r, last.id) by {
        if HasRow(r, last.id) {
          RenderedIdsFrom(rows, init, last.id);
        }
      }
      assert Render(rows, tasks) == r + [RowOf(last)];
      assert Render(rows, tasks)[|r|] == RowOf(last);
    } else {
      assert init[j] == tasks[j];
      RenderFirstWins(rows, init, j);
      AddRowIdempotent(r, last);
      var m :| 0 <= m < |r| && r[m] == RowOf(tasks[j]);
      assert Render(rows, tasks)[m] == r[m];
    }
  }

  /** Which ids a load renders, without the uniqueness requirement. */
  lemma {:induction false} RenderedIdsFrom(rows: seq<Row>, tasks: seq<Task>, id: TaskId)
    ensures HasRow(Render(rows, tasks), id) ==>
      HasRow(rows, id) || exists k :: 0 <= k < |tasks| && tasks[k].id == id
    decreases |tasks|
  {
    if tasks != [] {
      var init := tasks[..|tasks| - 1];
      RenderedIdsFrom(rows, init, id);
      if exists k :: 0 <= k < |init| && init[k].id == id {
        var k :| 0 <= k < |init| && init[k].id == id;
        assert tasks[k] == init[k];
      }
    }
  }

  /** Two resolved toggles of a row restore its "done" class; the ids and
      texts of all rows, and the other rows' classes, never change. */
  lemma FlipDoneTwice(rows: seq<Row>, id: TaskId)
    ensures FlipDone(FlipDone(rows, id), id) == rows
    ensures |FlipDone(rows, id)| == |rows|
    ensures forall k :: 0 <= k < |rows| ==>
      FlipDone(rows, id)[k].id == rows[k].id && FlipDone(rows, id)[k].text == rows[k].text
      && FlipDone(rows, id)[k].done == (if rows[k].id == id then !rows[k].done else rows[k].done)
  {
  }

  /** In a list with one row per id, a resolved delete removes exactly that
      row and keeps the others in their order. */
  lemma {:induction false} RemoveRowExact(rows: seq<Row>, id: TaskId, k: nat)
    requires UniqueIds(rows)
    requires k < |rows| && rows[k].id == id
    ensures RemoveRow(rows, id) == rows[..k] + rows[k + 1..]
    decreases |rows|
  {
    var rest := rows[1..];
    if k == 0 {
      assert forall j :: 0 <= j < |rest| ==> rest[j].id != id by {
        forall j | 0 <= j < |rest| ensures rest[j].id != id {
          assert rest[j] == rows[j + 1];
        }
      }
      RemoveRowAbsent(rest, id);
    } else {
      assert UniqueIds(rest) by {
        forall i, j | 0 <= i < j < |rest| ensures rest[i].id != rest[j].id {
          assert rest[i] == rows[i + 1] && rest[j] == rows[j + 1];
        }
      }
      RemoveRowExact(rest, id, k - 1);
      assert rows[0].id != id;
      assert rows[..k] == [rows[0]] + rest[..k - 1];
      assert rows[k + 1..] == rest[k..];
    }
  }

  /** A delete of an id with no row changes nothing. */
  lemma {:induction false} RemoveRowAbsent(rows: seq<Row>, id: TaskId)
    requires forall k :: 0 <= k < |rows| ==> rows[k].id != id
    ensures RemoveRow(rows, id) == rows
    decreases |rows|
  {
    if rows != [] {
      var rest := rows[1..];
      assert forall k :: 0 <= k < |rest| ==> rest[k] == rows[k + 1];
      RemoveRowAbsent(rest, id);
      assert [rows[0]] + rest == rows;
    }
  }

  lemma {:induction false} RemoveRowUnique(rows: seq<Row>, id: TaskId)
    requires UniqueIds(rows)
    ensures UniqueIds(RemoveRow(rows, id))
  {
    if k :| 0 <= k < |rows| && rows[k].id == id {
      RemoveRowExact(rows, id, k);
    } else {
      RemoveRowAbsent(rows, id);
    }
  }

  /** Finding, as written: when the page does not yet show an `undefined`
      row, a JSON reply without a task adds one. */
  lemma AfterAddResponseRendersUndefined(rows: seq<Row>)
    requires !HasRow(rows, Undefined)
    ensures AfterAddResponse(rows, OtherJson) == rows + [Row(Undefined, "undefined", false)]
  {
  }

  /** Finding, the input that shows it: U+001C is space to Python's `strip()`
      but not to JavaScript's `trim()`, so the page sends it, the server
      answers 400 with an error object, and the page renders that object as
      a row with id and text "undefined". */
  lemma SeparatorInputRendersUndefinedRow(rows: seq<Row>)
    requires !HasRow(rows, Undefined)
    ensures var input := "\U{1C}";
      && JsTrim(input) == input
      && TodoStore.CleanText(Some(JsTrim(input))).None?
      && ReceivedBody(TodoStore.Json(400, TodoStore.ErrorBody("Invalid task"))) == OtherJson
      && AfterAddResponse(rows, OtherJson) == rows + [Row(Undefined, "undefined", false)]
  {
    var input := "\U{1C}";
    assert !JsIsSpace(input[0]);
    assert Leading(input, JsIsSpace) == 0 && Trailing(input, JsIsSpace) == 0;
    assert input[0..1] == input;
    assert PyIsSpace(input[0]);
  }

  /** Finding, corrected: rendering only task objects never adds a row
      without an id, and a rejected add leaves the list as it was. */
  lemma AfterAddResponseCheckedKeepsIds(rows: seq<Row>, response: AddResponse)
    requires forall k :: 0 <= k < |rows| ==> rows[k].id.Id?
    requires response.TaskObject? ==> response.task.id.Id?
    ensures forall k :: 0 <= k < |AfterAddResponseChecked(rows, response)| ==>
      AfterAddResponseChecked(rows, response)[k].id.Id?
    ensures !response.TaskObject? ==> AfterAddResponseChecked(rows, response) == rows
  {
  }

  /** A body the server sends for `add_todo` is a task object carrying a
      numeric id, or no task at all. */
  lemma ReceivedBodyIds(reply: TodoStore.Reply)
    ensures ReceivedBody(reply).TaskObject? ==> ReceivedBody(reply).task.id.Id?
  {
  }
}
