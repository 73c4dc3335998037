# Student dashboard: to-do list, single-session gate, credentials, navigation

A Dafny model of the decision logic and state changes of a small Django
student dashboard. It covers five pieces:

- **To-do store** (`TodoStore`, core/views.py). A table of per-user to-do
  rows, with the JSON views that list, add, toggle and delete them. It also
  covers the `force_logout` method check and `login_page`'s username
  stripping.
- **To-do page** (`TodoList`, core/static/core/js/todo.js). The rendered rows,
  with at most one row per task id. It models the duplicate guard, the
  initial load loop, the add handler with its continuation, and the toggle and
  delete continuations.
- **Single-session gate** (`SingleSession`, core/middleware.py). The
  `process_request` decision over the path, login state, stored
  `tab_session_id` and client `_sid`. Also:
  - the `process_response` injection of the tab script into the page bytes;
  - the injected script's check of sessionStorage;
  - the script's link-rewrite rule.
- **Credentials** (`Credentials`, core/models.py). The branch code and name
  read from a username, the `LIB%05d` library id, the wifi password alphabet,
  and the `post_save` receiver.
- **Navigation** (`Sidebar`, core/static/core/js/sidebar.js). The sidebar,
  overlay and toggle button flags, and the dropdown accordion.

Two modules support them:
- `Text` holds the two whitespace notions: Python `str.strip()` and
  JavaScript `String.prototype.trim()`.
- `Bytes` holds UTF-8 encoding and `bytes.replace` seen as a split and a
  join.

Each class is proved against a specification function:
- The to-do table is a `seq` field of `TodoStore.Store`.
- The page's rows are a `seq` field of `TodoList.TodoList`.
- The request session and the response content are fields of
  `SingleSession.Request` and `SingleSession.Response`.
- The dropdown flags and arrows are arrays of `Sidebar.Page`, updated by the
  two `forEach` loops.

`SingleSession.Middleware` stands for SingleSessionMiddleware. Its methods are
`process_request` and `process_response`. The text of the script that
`process_response` writes is held in three constants of the class, set by
its constructor.

The database's id counter is the field `TodoStore.Store.lastId`. The
database promises only a fresh id, and the model takes the next integer.

Inputs the model cannot see are parameters:
- `uuid.uuid4()` (`freshId`);
- the positions `secrets.choice` picks;
- Django's `authenticate`.

## Model

| member | source | states |
|---|---|---|
| Text.PyStrip | core/views.py:67 | `strip()` gives "" exactly when every character is Python whitespace; otherwise the result starts and ends with a non-space character |
| Text.JsTrim | core/static/core/js/todo.js:12 | `trim()` gives "" exactly when every character is ECMAScript whitespace; otherwise its ends are not whitespace |
| Text.TrimDropsOnlySpace | core/views.py:67 | trimming leaves "" exactly when the string is all space, and everything it drops at either end is space |
| Text.TrimPadded | core/views.py:18 | spaces added around a string do not change what trimming leaves |
| Text.TrimIdempotent | core/views.py:67 | trimming a trimmed string changes nothing |
| TodoStore.OwnedBy | core/views.py:37 | the listing holds exactly the projections `(id, text, is_done)` of the rows owned by the user |
| TodoStore.FindTodo | core/views.py:79 | the row `get(id=.., user=..)` finds is the first that matches both id and owner; there is none exactly when no row matches both |
| TodoStore.WithoutKeepsOthers | core/views.py:88 | the filtered delete keeps exactly the rows that do not match `(id, user)` |
| TodoStore.CleanText | core/views.py:66-69 | the posted text is rejected exactly when it is missing or all whitespace; otherwise it is kept stripped |
| TodoStore.Store.GetTodos | core/views.py:35-38 | an anonymous caller is redirected to login; otherwise a 200 JSON list holding exactly the caller's rows, projected |
| TodoStore.Store.AddTodo | core/views.py:63-73 | anonymous: redirect, nothing changes. Blank text: 400 `{"error": "Invalid task"}`, table unchanged. Otherwise one row is appended with a fresh id, the stripped text and `is_done` false, that record is echoed, and ids stay unique |
| TodoStore.Store.ToggleTodo | core/views.py:76-82 | the caller's row with that id has `is_done` negated and the new value is reported; another user's row or a missing id is a server error, not a no-op |
| TodoStore.Store.DeleteTodo | core/views.py:85-89 | every row of the caller's with that id is removed and nothing else; the answer is "deleted" whether or not one matched |
| TodoStore.WithoutValid | core/views.py:88 | deleting keeps the ids unique and bounded by the last id handed out |
| TodoStore.ToggledTwice | core/views.py:80 | toggling the same record twice restores the table |
| TodoStore.OwnedBySameRows | core/views.py:37 | a user's listing depends only on that user's rows |
| TodoStore.ToggledListings | core/views.py:79-81 | a toggle flips exactly the first matching row, keeps every other row, and changes no other user's listing |
| TodoStore.OwnedByAppend | core/views.py:70 | a created row appears at the end of its owner's listing only |
| TodoStore.AddedRowListedAndAddressable | core/views.py:69-71 | an added row is listed last for its owner and for nobody else, and is the row a toggle of the returned id finds |
| TodoStore.WithoutIdempotent | core/views.py:88-89 | repeating a delete changes nothing more |
| TodoStore.WithoutListings | core/views.py:88 | a delete changes no other user's listing |
| TodoStore.WithoutGone | core/views.py:88 | after a delete no row with that id and owner is left |
| TodoStore.ForceLogout | core/views.py:56-61 | POST answers "OK" and nobody is logged in afterwards; any other method answers 400 "Invalid request" and leaves the login state alone |
| TodoStore.LoginPage | core/views.py:13-28 | an authenticated visitor goes to the dashboard; a POST checks the stripped username with the password as posted, and leads to the dashboard or to the form with an error; anything else shows the form |
| TodoStore.LoginIgnoresSurroundingSpace | core/views.py:18 | whitespace around a posted username never changes the outcome of a login |
| TodoList.AsTask | core/static/core/js/todo.js:21-22 | a task object is used as it is; other JSON reads as id `undefined`, text "undefined", not done |
| TodoList.ReceivedBody | core/static/core/js/todo.js:20 | only a JSON task reply is a task object; a JSON error or status is other JSON; a redirect or error page is not JSON |
| TodoList.RemoveRowKeepsOthers | core/static/core/js/todo.js:60 | the rows left are exactly those of other ids |
| TodoList.TodoList.AddTaskToUI | core/static/core/js/todo.js:27-64 | the task's row is appended unless a row with its id exists; at most one row per id is kept |
| TodoList.TodoList.LoadTasks | core/static/core/js/todo.js:6-8 | the fetched tasks are rendered through the guard one by one in array order, keeping one row per id |
| TodoList.TodoList.SubmitAdd | core/static/core/js/todo.js:11-13 | no request exactly when the trimmed input is empty; otherwise the trimmed text is sent |
| TodoList.TodoList.ReceiveAdded | core/static/core/js/todo.js:20-24 | any JSON reply is rendered through the guard and the input cleared; a non-JSON reply changes nothing |
| TodoList.TodoList.ToggleResolved | core/static/core/js/todo.js:48-52 | the row's "done" class is flipped whatever the reply status |
| TodoList.TodoList.DeleteResolved | core/static/core/js/todo.js:56-61 | the row is removed whatever the reply status, keeping one row per id |
| TodoList.SyncAdd | core/static/core/js/todo.js:11-24 | one add end to end. Blank input sends nothing. Text the server keeps is rendered with the server's new id. Text the server strips to nothing renders an `undefined` row and leaves the table alone |
| TodoList.AddRowUnique | core/static/core/js/todo.js:29 | the duplicate guard keeps at most one row per id |
| TodoList.AddRowIdempotent | core/static/core/js/todo.js:29-64 | rendering a task twice equals rendering it once; afterwards its row exists, and earlier rows keep their places |
| TodoList.RenderInvariants | core/static/core/js/todo.js:8 | loading keeps one row per id and the existing rows in front; it yields a row for exactly the ids present or fetched |
| TodoList.RenderFirstWins | core/static/core/js/todo.js:8 | when the fetched list repeats an id, the first task with it is the one rendered |
| TodoList.RenderedIdsFrom | core/static/core/js/todo.js:8 | every rendered id was present already or was fetched |
| TodoList.FlipDoneTwice | core/static/core/js/todo.js:51 | two resolved toggles restore a row; ids, texts and the other rows never change |
| TodoList.RemoveRowExact | core/static/core/js/todo.js:60 | with one row per id, a delete removes exactly that row and keeps the others in order |
| TodoList.RemoveRowAbsent | core/static/core/js/todo.js:60 | deleting an id with no row changes nothing |
| TodoList.RemoveRowUnique | core/static/core/js/todo.js:60 | a delete keeps one row per id |
| TodoList.AfterAddResponseRendersUndefined | core/static/core/js/todo.js:20-22 | a JSON reply without a task adds a row with id `undefined` |
| TodoList.SeparatorInputRendersUndefinedRow | core/static/core/js/todo.js:12-22 | the input "\u001c" survives `trim()`, is stripped to nothing by the server, and its 400 reply is rendered as an `undefined` row |
| TodoList.AfterAddResponseCheckedKeepsIds | core/static/core/js/todo.js:21-22 | rendering only task objects never adds an id-less row, and leaves the list alone on a rejected add |
| TodoList.ReceivedBodyIds | core/views.py:71-73 | every task object the server sends carries a numeric id |
| SingleSession.IsExempt | core/middleware.py:23-24 | a path is exempt exactly when it starts with `/login/`, `/logout/`, `/static/` or `/api/` |
| SingleSession.ClientSid | core/middleware.py:35 | the client id is the GET `_sid` when it is non-empty, and otherwise the POST `_sid` |
| SingleSession.Decide | core/middleware.py:21-53 | passes untouched exactly on an exempt path or for an anonymous user; initialises exactly when no id is stored; accepts exactly when the client id equals the stored id |
| SingleSession.Middleware.ProcessRequest | core/middleware.py:21-53 | skip: session and login state unchanged. Initialise: fresh id stored and marked new. Reject: logged out, session emptied, redirect to `/login/`. Accept: marked not new |
| SingleSession.TabProtocol | core/middleware.py:38-53 | after the first request of a login, a request is accepted exactly when it carries the stored id, which stays stored; anything else is rejected; once logged out every request passes untouched |
| SingleSession.OtherKeysUntouched | core/middleware.py:40-52 | no session key besides `tab_session_id` and `is_new_login` changes |
| SingleSession.IsNewLiteral | core/middleware.py:59-69 | `str(is_new).lower()` is the literal `true` right after login, and `false` once accepted or when the flag is missing |
| SingleSession.InjectsScript | core/middleware.py:57-61 | injection needs a stored, truthy `tab_session_id` and a body at least as long as `<body` |
| SingleSession.Middleware.ProcessResponse | core/middleware.py:55-127 | the content changes only for an authenticated user with a stored id and a page containing `<body`; then every `</body>` is replaced by the encoded script |
| SingleSession.InjectionKeepsPage | core/middleware.py:127 | the page is cut into pieces free of `</body>` that join back to the page, and the result joins the same pieces with the script: every `</body>` is replaced and every other byte kept; a page without `</body>` is unchanged |
| SingleSession.ClientCheck | core/middleware.py:66-82 | the tab stays exactly when the login is new or sessionStorage already holds the server's id; a staying tab holds that id |
| SingleSession.ClientTabProtocol | core/middleware.py:66-82 | the tab that saw the login keeps passing the check; a tab with empty sessionStorage goes to `/logout/` |
| SingleSession.RewritesLink | core/middleware.py:110-116 | `_sid` is added only when the click target itself is an `<a>` on the page's origin |
| SingleSession.LinksToGatedPathsCarrySid | core/middleware.py:110-116 | when the click target is the `<a>` itself, every same-origin link to a path the gate checks gets `_sid`; only `/api/` links are rewritten though the gate ignores them |
| SingleSession.NestedClickLogsOut | core/middleware.py:110-118 | a click on an element inside a link to a gated path adds no `_sid`, and the gate then rejects the request |
| SingleSession.RewritesEnclosingLink | core/middleware.py:111-116 | with the enclosing link found, `_sid` is added for any click inside a same-origin link |
| SingleSession.EnclosingLinksCarrySid | core/middleware.py:110-118 | with the enclosing link found, every click that follows a same-origin link to a gated path carries the id, and the gate accepts it |
| Bytes.ReplaceAll | core/middleware.py:127 | `bytes.replace`: input shorter than the pattern is unchanged, and an occurrence at the start is replaced |
| Bytes.Split | core/middleware.py:127 | at least one piece, the first a prefix of the input |
| Bytes.SplitPiecesFree | core/middleware.py:127 | no piece of the split contains the pattern |
| Bytes.ReplaceAllIsJoinOfSplit | core/middleware.py:127 | `s.replace(p, r)` equals `r.join(s.split(p))` |
| Bytes.SplitJoinRoundTrip | core/middleware.py:127 | joining the split pieces with the pattern gives the original bytes back |
| Bytes.ReplaceAllAbsent | core/middleware.py:127 | replacing a pattern that does not occur changes nothing |
| Credentials.UpperChar | core/models.py:24 | the characters `upper()` maps to an ASCII capital are the capital itself, a..z, U+0131 and U+017F |
| Credentials.Upper | core/models.py:24 | `upper()` applied character by character |
| Credentials.ExtractBranch | core/models.py:16-26 | under five characters gives ("", ""). The code is empty exactly when the name is. A non-empty name is the map entry of the code, and the code is characters 2..4 upper-cased. Every code in the map is found |
| Credentials.ExtractBranchCaseInsensitive | core/models.py:24 | the result depends only on the upper case of characters 2..4 |
| Credentials.ExtractBranchExamples | core/models.py:8-26 | BAI and BCE roll numbers in either case, with a dotless i, are recognised; XYZ and short names are not |
| Credentials.Digits | core/models.py:60 | decimal digits without leading zeros |
| Credentials.LibraryId | core/models.py:60 | the id always starts with "LIB" |
| Credentials.LibraryIdExamples | core/models.py:60 | 7 gives "LIB00007", and -5 gives "LIB-0005" with the sign before the zeros |
| Credentials.LibraryIdRoundTrip | core/models.py:60 | for a database id, "LIB" is followed by digits that read back as the id |
| Credentials.LibraryIdLength | core/models.py:60 | a library id has at least five characters after "LIB", exactly five for ids below 100000 |
| Credentials.LibraryIdInjective | core/models.py:60 | different users get different library ids |
| Credentials.AlphabetPosition | core/models.py:50 | every letter, digit and `!@#$%^&*` has a position in the 70-character alphabet |
| Credentials.AlphabetClasses | core/models.py:50 | the alphabet holds only letters, digits and `!@#$%^&*` |
| Credentials.WifiPassword | core/models.py:49-51 | the password has the requested length and only alphabet characters |
| Credentials.EveryPasswordReachable | core/models.py:49-51 | every string of alphabet characters is a possible password |
| Credentials.CreateCredentials | core/models.py:52-63 | a row exists only when the user was just created. It holds the username as wifi username, a 12-character alphabet password, `LIB%05d` of the id, and the extracted branch |
| Sidebar.SidebarToggled | core/static/core/js/sidebar.js:1-12 | the sidebar and overlay flags are flipped, and the button is hidden exactly when the sidebar is open |
| Sidebar.SidebarToggleKeepsConsistent | core/static/core/js/sidebar.js:5-11 | toggling keeps the overlay and button in step with the sidebar, and toggling twice restores the page |
| Sidebar.OthersClosed | core/static/core/js/sidebar.js:20-24 | every section other than the clicked one is closed, and the clicked one is untouched |
| Sidebar.DropdownAfter | core/static/core/js/sidebar.js:20-30 | one flag per section (the content is stated by DropdownAtMostOneOpen) |
| Sidebar.ArrowsAfter | core/static/core/js/sidebar.js:25-31 | one transform per arrow (the content is stated by ArrowsFollowSections) |
| Sidebar.DropdownAtMostOneOpen | core/static/core/js/sidebar.js:20-30 | whatever the state before, at most one section is open afterwards; the clicked one is flipped and the others closed |
| Sidebar.DropdownClickTwiceClosesAll | core/static/core/js/sidebar.js:20-30 | clicking a closed section's header twice opens it and then leaves every section closed |
| Sidebar.ArrowsFollowSections | core/static/core/js/sidebar.js:25-31 | the clicked arrow is at 90 degrees exactly when its section is open, and every other arrow is at 0 |
| Sidebar.Page.ToggleSidebar | core/static/core/js/sidebar.js:1-12 | the page's sidebar flags become those of SidebarToggled |
| Sidebar.Page.ToggleDropdown | core/static/core/js/sidebar.js:14-32 | the two loops and the toggle leave the sections and arrows as DropdownAfter and ArrowsAfter describe. A missing section or arrow stops the script after the updates that come before the failing line |

## Left out

- TodoStore.Store.AddTodo: the 255-character limit of `ToDo.text` and `created_at` are not modelled. The JSON body is modelled as an optional `text`; malformed JSON, and a `text` that is not a string (both raise in the view), are left out.
- TodoStore.Store.GetTodos: the ORM gives no order; the listing is in table order.
- TodoStore.ForceLogout and TodoStore.LoginPage: Django's `authenticate`, `login`, `logout` and the messages framework are outside the model; login state is a flag and `authenticate` a parameter.
- TodoList: the fade-in and slide-out animations and their timers are not modelled. `tasks.forEach(addTaskToUI)` passes the array index as `skipAnimation`, so only the first loaded task animates.
- TodoList: todo.js never looks at a response's status, never disables a control while a request is in flight, and keeps no count of done tasks; the model does the same.
- TodoList: `innerHTML` templating is not modelled. Task text is inserted as HTML, not escaped.
- TodoList: the slide-out class stays on a row whose delete request fails.
- TodoList: requests are reduced to their continuations. Interleavings of several in-flight requests, and network failures (a rejected promise runs no continuation), are not modelled.
- TodoList: `querySelector('[data-id=..]')` searches the whole document; the model searches only the list's rows.
- TodoList.TodoList.ToggleResolved: the in-memory `task.is_done` the handler closes over is never updated by the page and is not modelled.
- SingleSession: the form-submission hook, the `fetch` wrapper and browser URL parsing in the injected script are not modelled. Only the link rule over `(origin, pathname)` is.
- SingleSession: `uuid.uuid4()` is the parameter `freshId`. sessionStorage and `window.location` are the arguments and the result of `ClientCheck`.
- SingleSession.Middleware.ProcessRequest: `logout()` and `session.flush()` are one step that empties the session and clears the login flag.
- SingleSession.Middleware.ProcessResponse: streaming responses are modelled by the `hasContent` flag alone.
- Credentials.UpperChar: only the case mappings that can produce an ASCII capital are modelled. Every other character keeps its own value, where Python may change it or expand it to several characters. None of those results can be one of the four codes, so ExtractBranch's result is unaffected.
- Credentials.WifiPassword: `secrets.choice` is the parameter `picks`; uniformity of the choice is not modelled.
- Credentials.CreateCredentials: the database write is not modelled. The record is returned, and the `post_save` signal is its `created` argument.
- Sidebar: `getElementById(id)` finding an element that is not one of the `.dropdown-content` sections is not modelled.
- Sidebar: CSS transitions and the `event.currentTarget` lookup are not modelled. The clicked arrow is an index or None.
- core/static/core/js/dashboard.js, core/static/core/js/darkmode.js and core/urls.py are not part of this model. They are presentational code and routing.

## Findings

| source | as written | input that shows it | evidently intended | confidence | as-written member | corrected member |
|---|---|---|---|---|---|---|
| core/static/core/js/todo.js:12-22 | The page's emptiness test uses JavaScript `trim()`, and the server uses Python `strip()`. `strip()` also removes U+001C..U+001F and U+0085, so the server answers 400 `{"error": "Invalid task"}`. The continuation renders that reply as a task, with id and text "undefined". | the input "\u001c" (one information separator) | a rejected add renders no row | not executed | TodoList.SeparatorInputRendersUndefinedRow | TodoList.AfterAddResponseCheckedKeepsIds |
| core/middleware.py:110-118 | The injected click handler tests `e.target.tagName === 'A'`. A click on an element nested inside a link, such as an icon, adds no `_sid`; the browser follows the link without it and `process_request` logs the user out (core/middleware.py:45-49). | a click on `<i>` inside `<a href="/dashboard/">` | any click that follows a same-origin link to a gated path carries `_sid` (the link found with `closest('a')`) | medium; not executed | SingleSession.NestedClickLogsOut | SingleSession.EnclosingLinksCarrySid |
