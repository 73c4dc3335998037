/**
 * The server side of the dashboard's to-do list (core/views.py): a table of
 * ToDo rows owned by users, the JSON views that list, add, toggle and delete
 * them, and the two small decisions of `force_logout` and `login_page`.
 *
 * The ORM table is a sequence of rows in insertion order; the database's
 * id allocation is a counter of the ids handed out so far; Django's
 * `login_required` is an optional current user, absent for anonymous callers.
 */
module TodoStore {
  import opened Options
  import opened Text

  type UserId = nat

  /** A row of the ToDo table. */
  datatype ToDo = ToDo(id: nat, user: UserId, text: string, isDone: bool)

  /** The JSON object `{"id", "text", "is_done"}` the views send for a row. */
  datatype TodoJson = TodoJson(id: nat, text: string, isDone: bool)

  /** The JSON documents the views answer with. */
  datatype Body =
    | TaskBody(todo: TodoJson)                      // {"id": .., "text": .., "is_done": ..}
    | ErrorBody(error: string)                      // {"error": ..}
    | StatusBody(status: string, isDone: Option<bool>) // {"status": .., ["is_done": ..]}
    | ListBody(todos: seq<TodoJson>)                // [{..}, ..]

  /** What a view answers. */
  datatype Reply =
    | Json(code: int, body: Body)  // JsonResponse
    | Plain(code: int, text: string) // HttpResponse
    | LoginRedirect                // login_required turning an anonymous caller away
    | ServerError                  // an exception escaping the view (Django answers 500)

  /** The projection `.values("id", "text", "is_done")`. */
  function Project(t: ToDo): TodoJson {
    TodoJson(t.id, t.text, t.isDone)
  }

  /** The filter `id=todo_id, user=request.user`. */
  predicate Matches(t: ToDo, id: nat, user: UserId) {
    t.id == id && t.user == user
  }

  /** `ToDo.objects.filter(user=user).values(...)`: the user's rows, projected,
      in table order. */
  function OwnedBy(table: seq<ToDo>, user: UserId): (r: seq<TodoJson>)
    ensures |r| <= |table|
    ensures forall x :: x in r <==>
      exists k :: 0 <= k < |table| && table[k].user == user && Project(table[k]) == x
  {
    if table == [] then []
    else
      var init := table[..|table| - 1];
      var last := table[|table| - 1];
      var r := OwnedBy(init, user) + (if last.user == user then [Project(last)] else []);
      assert forall k :: 0 <= k < |init| ==> init[k] == table[k];
      r
  }

  /** The index of the first row matching `(id, user)`, if any. */
  function FindTodo(table: seq<ToDo>, id: nat, user: UserId): (r: Option<nat>)
    ensures r.Some? ==> r.value < |table| && Matches(table[r.value], id, user)
    ensures r.Some? ==> forall k :: 0 <= k < r.value ==> !Matches(table[k], id, user)
    ensures r.None? <==> forall k :: 0 <= k < |table| ==> !Matches(table[k], id, user)
  {
    if table == [] then None
    else if Matches(table[0], id, user) then Some(0)
    else match FindTodo(table[1..], id, user)
      case None => None
      case Some(k) => Some(k + 1)
  }

  /** The table after `toggle_todo`: the matching row, if any, has its
      `is_done` negated. */
  function Toggled(table: seq<ToDo>, id: nat, user: UserId): seq<ToDo> {
    match FindTodo(table, id, user)
    case None => table
    case Some(k) => table[k := table[k].(isDone := !table[k].isDone)]
  }

  /** The table after `delete_todo`: every row matching `(id, user)` removed. */
  function Without(table: seq<ToDo>, id: nat, user: UserId): (r: seq<ToDo>)
    ensures |r| <= |table|
  {
    if table == [] then []
    else
      var init := table[..|table| - 1];
      var last := table[|table| - 1];
      Without(init, id, user) + (if Matches(last, id, user) then [] else [last])
  }

  /** The filtered delete keeps exactly the rows that do not match. */
  lemma {:induction false} WithoutKeepsOthers(table: seq<ToDo>, id: nat, user: UserId)
    ensures forall x :: x in Without(table, id, user) <==> x in table && !Matches(x, id, user)
    decreases |table|
  {
    if table != [] {
      var init := table[..|table| - 1];
      WithoutKeepsOthers(init, id, user);
      assert table == init + [table[|table| - 1]];
    }
  }

  /** `add_todo`'s cleaning of the posted text: stripped, and rejected when
      nothing is left. */
  function CleanText(text: Option<string>): (r: Option<string>)
    ensures r.None? <==> forall i :: 0 <= i < |text.GetOr("")| ==> PyIsSpace(text.GetOr("")[i])
    ensures r.Some? ==> r.value == PyStrip(text.GetOr(""))
  {
    var t := PyStrip(text.GetOr(""));
    if t == [] then None else Some(t)
  }

  /** No two rows share an id, and every id is at most `lastId`. */
  ghost predicate TableValid(table: seq<ToDo>, lastId: nat) {
    && (forall i :: 0 <= i < |table| ==> table[i].id <= lastId)
    && (forall i, j :: 0 <= i < j < |table| ==> table[i].id != table[j].id)
  }

  class Store {
    var table: seq<ToDo>
    var lastId: nat

    ghost predicate Valid()
      reads this
    {
      TableValid(table, lastId)
    }

    constructor ()
      ensures Valid() && table == [] && lastId == 0
    {
      table := [];
      lastId := 0;
    }

    /** `get_todos`: the caller's rows as a JSON list. */
    function GetTodos(user: Option<UserId>): (r: Reply)
      reads this
      ensures user.None? ==> r == LoginRedirect
      ensures user.Some? ==> r.Json? && r.code == 200 && r.body.ListBody?
      ensures user.Some? ==> forall x :: x in r.body.todos <==>
        exists k :: 0 <= k < |table| && table[k].user == user.value && Project(table[k]) == x
    {
      match user
      case None => LoginRedirect
      case Some(u) => Json(200, ListBody(OwnedBy(table, u)))
    }

    /** `add_todo`: a non-blank text (after stripping) becomes a fresh row of
        the caller's, not done, echoed back; a blank one is a 400 error and
        changes nothing. */
    method AddTodo(user: Option<UserId>, text: Option<string>) returns (reply: Reply)
      requires Valid()
      modifies this
      ensures Valid()
      ensures user.None? ==> reply == LoginRedirect && table == old(table) && lastId == old(lastId)
      ensures user.Some? && CleanText(text).None? ==>
        && reply == Json(400, ErrorBody("Invalid task"))
        && table == old(table) && lastId == old(lastId)
      ensures user.Some? && CleanText(text).Some? ==>
        && lastId == old(lastId) + 1
        && (forall i :: 0 <= i < |old(table)| ==> old(table)[i].id != lastId)
        && table == old(table) + [ToDo(lastId, user.value, CleanText(text).value, false)]
        && reply == Json(200, TaskBody(TodoJson(lastId, CleanText(text).value, false)))
    {
      if user.None? {
        return LoginRedirect;
      }
      var taskText := PyStrip(text.GetOr(""));
      if taskText != [] {
        lastId := lastId + 1;
        var todo := ToDo(lastId, user.value, taskText, false);
        table := table + [todo];
        return Json(200, TaskBody(TodoJson(todo.id, todo.text, todo.isDone)));
      }
      return Json(400, ErrorBody("Invalid task"));
    }

    /** `toggle_todo`: the caller's row with that id has `is_done` negated and
        the new value is reported; a missing row (or another user's) is an
        unhandled DoesNotExist. */
    method ToggleTodo(user: Option<UserId>, todoId: nat) returns (reply: Reply)
      requires Valid()
      modifies this
      ensures Valid() && lastId == old(lastId)
      ensures user.None? ==> reply == LoginRedirect && table == old(table)
      ensures user.Some? ==> table == Toggled(old(table), todoId, user.value)
      ensures user.Some? ==> match FindTodo(old(table), todoId, user.value)
        case None => reply == ServerError
        case Some(k) =>
          reply == Json(200, StatusBody("updated", Some(!old(table)[k].isDone)))
    {
      if user.None? {
        return LoginRedirect;
      }
      match FindTodo(table, todoId, user.value)
      case None =>
        reply := ServerError;
      case Some(k) =>
        var todo := table[k];
        todo := todo.(isDone := !todo.isDone);
        table := table[k := todo];
        reply := Json(200, StatusBody("updated", Some(todo.isDone)));
    }

    /** `delete_todo`: every row of the caller's with that id is removed, and
        the answer is "deleted" whether or not one was there. */
    method DeleteTodo(user: Option<UserId>, todoId: nat) returns (reply: Reply)
      requires Valid()
      modifies this
      ensures Valid() && lastId == old(lastId)
      ensures user.None? ==> reply == LoginRedirect && table == old(table)
      ensures user.Some? ==> table == Without(old(table), todoId, user.value)
      ensures user.Some? ==> reply == Json(200, StatusBody("deleted", None))
    {
      if user.None? {
        return LoginRedirect;
      }
      WithoutValid(table, lastId, todoId, user.value);
      table := Without(table, todoId, user.value);
      reply := Json(200, StatusBody("deleted", None));
    }
  }

  /** Deleting rows keeps ids unique and bounded. */
  lemma {:induction false} WithoutValid(table: seq<ToDo>, lastId: nat, id: nat, user: UserId)
    requires TableValid(table, lastId)
    ensures TableValid(Without(table, id, user), lastId)
    decreases |table|
  {
    if table != [] {
      var init := table[..|table| - 1];
      var last := table[|table| - 1];
      assert TableValid(init, lastId);
      WithoutValid(init, lastId, id, user);
      var w := Without(init, id, user);
      assert last !in init;
      WithoutKeepsOthers(init, id, user);
      assert forall k :: 0 <= k < |w| ==> w[k].id != last.id by {
        forall k | 0 <= k < |w| ensures w[k].id != last.id {
          assert w[k] in init;
          var j :| 0 <= j < |init| && init[j] == w[k];
          assert table[j] == init[j];
        }
      }
    }
  }

  /** Toggling the same record twice restores the table. */
  lemma ToggledTwice(table: seq<ToDo>, id: nat, user: UserId)
    ensures Toggled(Toggled(table, id, user), id, user) == table
  {
    match FindTodo(table, id, user)
    case None =>
    case Some(k) =>
      var once := Toggled(table, id, user);
      assert forall j :: 0 <= j < |table| ==> Matches(once[j], id, user) == Matches(table[j], id, user);
      assert FindTodo(once, id, user) == Some(k);
      assert once[k := once[k].(isDone := !once[k].isDone)] == table;
  }

  /** A user's listing depends only on that user's rows: when the rows agree
      on ownership and the user's own rows are equal, so are the listings. */
  lemma {:induction false} OwnedBySameRows(a: seq<ToDo>, b: seq<ToDo>, user: UserId)
    requires |a| == |b|
    requires forall k :: 0 <= k < |a| ==> (a[k].user == user <==> b[k].user == user)
    requires forall k :: 0 <= k < |a| && a[k].user == user ==> a[k] == b[k]
    ensures OwnedBy(a, user) == OwnedBy(b, user)
    decreases |a|
  {
    if a != [] {
      OwnedBySameRows(a[..|a| - 1], b[..|b| - 1], user);
    }
  }

  /** `toggle_todo` changes no other user's listing, and the caller's listing
      only in the `is_done` of the toggled record. */
  lemma ToggledListings(table: seq<ToDo>, id: nat, user: UserId, other: UserId)
    requires other != user
    ensures OwnedBy(Toggled(table, id, user), other) == OwnedBy(table, other)
    ensures |Toggled(table, id, user)| == |table|
    ensures forall k :: 0 <= k < |table| ==>
      Toggled(table, id, user)[k] == if Matches(table[k], id, user) && Some(k) == FindTodo(table, id, user)
        then table[k].(isDone := !table[k].isDone) else table[k]
  {
    OwnedBySameRows(Toggled(table, id, user), table, other);
  }

  /** The listing of the table after a row is appended. */
  lemma OwnedByAppend(table: seq<ToDo>, row: ToDo, user: UserId)
    ensures OwnedBy(table + [row], user) ==
      OwnedBy(table, user) + (if row.user == user then [Project(row)] else [])
  {
    assert (table + [row])[..|table|] == table;
  }

  /** A successful `add_todo` shows up at the end of the caller's listing,
      changes nobody else's, and is the record a later toggle or delete of
      the returned id addresses. */
  lemma AddedRowListedAndAddressable(table: seq<ToDo>, lastId: nat, user: UserId, text: string, other: UserId)
    requires TableValid(table, lastId)
    requires other != user
    ensures var row := ToDo(lastId + 1, user, text, false);
      && OwnedBy(table + [row], user) == OwnedBy(table, user) + [TodoJson(lastId + 1, text, false)]
      && OwnedBy(table + [row], other) == OwnedBy(table, other)
      && FindTodo(table + [row], lastId + 1, user) == Some(|table|)
      && TableValid(table + [row], lastId + 1)
  {
    var row := ToDo(lastId + 1, user, text, false);
    OwnedByAppend(table, row, user);
    OwnedByAppend(table, row, other);
    var t := table + [row];
    assert forall k :: 0 <= k < |table| ==> t[k] == table[k];
  }

  /** Repeating `delete_todo` changes nothing more. */
  lemma {:induction false} WithoutIdempotent(table: seq<ToDo>, id: nat, user: UserId)
    ensures Without(Without(table, id, user), id, user) == Without(table, id, user)
    decreases |table|
  {
    if table != [] {
      var init := table[..|table| - 1];
      var last := table[|table| - 1];
      var w := Without(init, id, user);
      WithoutIdempotent(init, id, user);
      if Matches(last, id, user) {
        assert Without(table, id, user) == w;
      } else {
        var wl := w + [last];
        assert Without(table, id, user) == wl;
        assert wl[..|wl| - 1] == w && wl[|wl| - 1] == last;
        assert Without(wl, id, user) == Without(w, id, user) + [last];
      }
    }
  }

  /** `delete_todo` keeps the other rows in their order and changes no other
      user's listing. */
  lemma {:induction false} WithoutListings(table: seq<ToDo>, id: nat, user: UserId, other: UserId)
    requires other != user
    ensures OwnedBy(Without(table, id, user), other) == OwnedBy(table, other)
    decreases |table|
  {
    if table != [] {
      var init := table[..|table| - 1];
      var last := table[|table| - 1];
      WithoutListings(init, id, user, other);
      var w := Without(init, id, user);
      if Matches(last, id, user) {
        assert w + [] == w;
      } else {
        OwnedByAppend(w, last, other);
      }
    }
  }

  /** After `delete_todo` nothing is left for a toggle of that id to find. */
  lemma WithoutGone(table: seq<ToDo>, id: nat, user: UserId)
    ensures FindTodo(Without(table, id, user), id, user).None?
  {
    var w := Without(table, id, user);
    WithoutKeepsOthers(table, id, user);
    assert forall k :: 0 <= k < |w| ==> w[k] in w;
  }

  /** The caller's reply and their logged-in state after `force_logout`:
      a POST answers "OK" and leaves nobody logged in (logging out only an
      authenticated caller); any other method is a 400 and changes nothing. */
  function ForceLogout(httpMethod: string, authenticated: bool): (r: (Reply, bool))
    ensures httpMethod == "POST" ==> r.0 == Plain(200, "OK") && !r.1
    ensures httpMethod != "POST" ==> r.0 == Plain(400, "Invalid request") && r.1 == authenticated
  {
    if httpMethod == "POST" then
      (Plain(200, "OK"), false)  // logout() runs only when authenticated; either way nobody is left logged in
    else
      (Plain(400, "Invalid request"), authenticated)
  }

  /** Where `login_page` sends the browser. */
  datatype LoginOutcome = ToDashboard | LoginForm(invalidCredentials: bool)

  /** `login_page`: an authenticated visitor goes to the dashboard; a POST
      checks the stripped username and the password exactly as posted;
      anything else shows the form. The second component says whether the
      visitor is logged in afterwards. `authenticate` is Django's credential
      check, outside this model. */
  function LoginPage(authenticated: bool, httpMethod: string,
                     username: Option<string>, password: Option<string>,
                     authenticate: (string, string) -> bool): (r: (LoginOutcome, bool))
    ensures authenticated ==> r == (ToDashboard, true)
    ensures !authenticated && httpMethod != "POST" ==> r == (LoginForm(false), false)
    ensures !authenticated && httpMethod == "POST" ==>
      var ok := authenticate(PyStrip(username.GetOr("")), password.GetOr(""));
      r == (if ok then (ToDashboard, true) else (LoginForm(true), false))
  {
    if authenticated then (ToDashboard, true)
    else if httpMethod == "POST" then
      var name := PyStrip(username.GetOr(""));
      var pass := password.GetOr("");
      if authenticate(name, pass) then (ToDashboard, true) else (LoginForm(true), false)
    else (LoginForm(false), false)
  }

  /** Whitespace around the posted username never changes the outcome of a
      login attempt: "  alice\n" logs in exactly when "alice" does. */
  lemma LoginIgnoresSurroundingSpace(pre: string, name: string, post: string,
                                     httpMethod: string, password: Option<string>,
                                     authenticate: (string, string) -> bool)
    requires AllSpace(pre, PyIsSpace) && AllSpace(post, PyIsSpace)
    ensures LoginPage(false, httpMethod, Some(pre + name + post), password, authenticate)
         == LoginPage(false, httpMethod, Some(name), password, authenticate)
  {
    TrimPadded(pre, name, post, PyIsSpace);
    assert PyStrip(pre + name + post) == PyStrip(name);
  }
}
