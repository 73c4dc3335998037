/**
 * The single-session gate (core/middleware.py, SingleSessionMiddleware):
 * the decision `process_request` takes on every request from the path, the
 * login state, the stored `tab_session_id` and the `_sid` the page sends;
 * the condition under which `process_response` injects its script; and the
 * two decisions the injected script takes in the browser (whether the tab
 * may stay, and which links get `_sid` appended).
 *
 * The request's session is a map from keys to values, the login state a
 * flag; `uuid.uuid4()` is the parameter `freshId`.
 */
module SingleSession {
  import opened Options
  import opened Text
  import opened Bytes

  /** A value stored in the session: the middleware stores one string and
      one boolean. */
  datatype Value = Str(s: string) | Flag(b: bool)

  type Session = map<string, Value>

  const TabSessionKey: string := "tab_session_id"
  const NewLoginKey: string := "is_new_login"

  /** Paths the gate never looks at. */
  const ExemptPrefixes: seq<string> := ["/login/", "/logout/", "/static/", "/api/"]

  /** `request.session.get(key)`. */
  function Get(session: Session, key: string): Option<Value> {
    if key in session then Some(session[key]) else None
  }

  /** Python truthiness of an optional session value. */
  predicate Truthy(v: Option<Value>) {
    match v
    case None => false
    case Some(Str(s)) => s != ""
    case Some(Flag(b)) => b
  }

  /** `any(path.startswith(p) for p in exempt_paths)`. */
  predicate IsExempt(path: string)
    ensures IsExempt(path) <==>
      || StartsWith(path, "/login/") || StartsWith(path, "/logout/")
      || StartsWith(path, "/static/") || StartsWith(path, "/api/")
  {
    assert ExemptPrefixes[0] == "/login/" && ExemptPrefixes[1] == "/logout/";
    assert ExemptPrefixes[2] == "/static/" && ExemptPrefixes[3] == "/api/";
    exists i :: 0 <= i < |ExemptPrefixes| && StartsWith(path, ExemptPrefixes[i])
  }

  /** `request.GET.get('_sid') or request.POST.get('_sid')`: the query
      parameter when it is a non-empty string, otherwise the form field. */
  function ClientSid(getSid: Option<string>, postSid: Option<string>): (r: Option<string>)
    ensures getSid.Some? && getSid.value != "" ==> r == getSid
    ensures getSid.None? || getSid.value == "" ==> r == postSid
  {
    if getSid.Some? && getSid.value != "" then getSid else postSid
  }

  /** What `process_request` does with a request. */
  datatype Action =
    | Skip        // exempt path or anonymous user: pass, session untouched
    | Initialise  // first request after login: store a fresh tab id
    | Reject      // missing or wrong `_sid`: log out and redirect to the login page
    | Accept      // matching `_sid`: pass, mark the login as no longer new

  /** The branch `process_request` takes, given the path, whether the user is
      authenticated, the stored `tab_session_id` and the client's `_sid`. */
  function Decide(path: string, authenticated: bool, stored: Option<Value>, client: Option<string>): (a: Action)
    ensures a == Skip <==> IsExempt(path) || !authenticated
    ensures a == Initialise <==> !IsExempt(path) && authenticated && !Truthy(stored)
    ensures a == Accept <==>
      !IsExempt(path) && authenticated && client.Some? && client.value != "" && stored == Some(Str(client.value))
  {
    if IsExempt(path) then Skip
    else if !authenticated then Skip
    else if !Truthy(stored) then Initialise
    else if client.None? || client.value == "" || stored != Some(Str(client.value)) then Reject
    else Accept
  }

  /** The session after a first request: a fresh tab id, marked new. */
  function Initialised(session: Session, freshId: string): Session {
    session[TabSessionKey := Str(freshId)][NewLoginKey := Flag(true)]
  }

  /** The session after an accepted request: no longer a new login. */
  function Accepted(session: Session): Session {
    session[NewLoginKey := Flag(false)]
  }

  /** The part of a request the middleware reads and writes. */
  class Request {
    var session: Session
    var authenticated: bool

    constructor (session: Session, authenticated: bool)
      ensures this.session == session && this.authenticated == authenticated
    {
      this.session := session;
      this.authenticated := authenticated;
    }
  }

  /** What `process_request` returns: None (go on to the view) or a redirect. */
  datatype Outcome = PassOn | RedirectTo(location: string)

  /** The tab protocol on the server: right after login the first page stores
      a fresh id; from then on a request passes exactly when it carries that
      id, which stays stored; any other request logs the user out, after which
      every request passes untouched until the next login. */
  lemma TabProtocol(session: Session, freshId: string, path: string, next: string, client: Option<string>)
    requires !Truthy(Get(session, TabSessionKey)) && freshId != ""
    requires !IsExempt(path) && !IsExempt(next)
    ensures Decide(path, true, Get(session, TabSessionKey), client) == Initialise
    ensures var s1 := Initialised(session, freshId);
      && (Decide(next, true, Get(s1, TabSessionKey), client) == Accept <==> client == Some(freshId))
      && (Decide(next, true, Get(s1, TabSessionKey), client) != Accept ==>
            Decide(next, true, Get(s1, TabSessionKey), client) == Reject)
      && Get(Accepted(s1), TabSessionKey) == Some(Str(freshId))
    ensures Decide(next, false, Get(map[], TabSessionKey), client) == Skip
  {
    var s1 := Initialised(session, freshId);
    assert Get(s1, TabSessionKey) == Some(Str(freshId));
    assert Get(Accepted(s1), TabSessionKey) == Some(Str(freshId));
  }

  /** Only the two keys of the gate change; every other session key keeps its
      value on every path that passes. */
  lemma OtherKeysUntouched(session: Session, freshId: string, key: string)
    requires key != TabSessionKey && key != NewLoginKey
    ensures Get(Initialised(session, freshId), key) == Get(session, key)
    ensures Get(Accepted(session), key) == Get(session, key)
  {
  }

  /** The response the middleware sees. Streaming responses have no
      `content`. */
  class Response {
    var content: seq<byte>
    const hasContent: bool

    constructor (content: seq<byte>, hasContent: bool)
      ensures this.content == content && this.hasContent == hasContent
    {
      this.content := content;
      this.hasContent := hasContent;
    }
  }

  /** Python `str(value)` for a session value. */
  function PyStr(v: Value): string {
    match v
    case Str(s) => s
    case Flag(b) => if b then "True" else "False"
  }

  /** ASCII lower case. It stands for Python's `str.lower()`, which also
      lowers non-ASCII letters; the two agree on the "True" and "False" the
      middleware stores, which are all it is applied to. */
  function AsciiLower(s: string): (r: string)
    ensures |r| == |s|
  {
    if s == [] then []
    else [if 'A' <= s[0] <= 'Z' then (s[0] as int + 32) as char else s[0]] + AsciiLower(s[1..])
  }

  lemma AsciiLowerBooleans()
    ensures AsciiLower("True") == "true" && AsciiLower("False") == "false"
  {
    assert AsciiLower("e") == "e";
    assert AsciiLower("ue") == "ue";
    assert AsciiLower("rue") == "rue";
    assert AsciiLower("se") == "se";
    assert AsciiLower("lse") == "lse";
    assert AsciiLower("alse") == "alse";
  }

  /** `str(request.session.get('is_new_login', False)).lower()`. The flag the
      script receives is a JavaScript boolean literal: `true` right after
      login, `false` once a request was accepted or when the flag is missing. */
  function IsNewLiteral(v: Option<Value>): (r: string)
    ensures v == Some(Flag(true)) ==> r == "true"
    ensures v.None? || v == Some(Flag(false)) ==> r == "false"
  {
    AsciiLowerBooleans();
    AsciiLower(PyStr(v.GetOr(Flag(false))))
  }

  const OpenBody: seq<byte> := Utf8("<body")
  const CloseBody: seq<byte> := Utf8("</body>")

  /** The condition of `process_response`: a user is known and authenticated,
      the session holds a tab id, and the response has content containing
      `<body`. */
  predicate InjectsScript(hasUser: bool, authenticated: bool, session: Session, hasContent: bool, content: seq<byte>)
    ensures InjectsScript(hasUser, authenticated, session, hasContent, content) ==>
      && TabSessionKey in session && session[TabSessionKey] != Str("") && session[TabSessionKey] != Flag(false)
      && |content| >= |OpenBody|
  {
    && hasUser && authenticated
    && Truthy(Get(session, TabSessionKey))
    && hasContent && Contains(content, OpenBody)
  }

  const ScriptHead: string :=
    @"
                <script>
                (function() {
                    const SID_KEY = 'vtop_sid';
                    const stored = sessionStorage.getItem(SID_KEY);
                    const server = '"

  const ScriptMiddle: string :=
    @"';
                    const isNew = "

  const ScriptTail: string :=
    @";
                    
                    if (isNew) {
                        // New login - save session ID
                        sessionStorage.setItem(SID_KEY, server);
                    } else if (!stored) {
                        // No stored ID = new tab without proper login
                        window.location.href = '/logout/';
                        return;
                    } else if (stored !== server) {
                        // Mismatched session = logout
                        window.location.href = '/logout/';
                        return;
                    }
                    
                    // Attach session ID to all requests
                    
                    // 1. Form submissions
                    document.addEventListener('submit', function(e) {
                        const form = e.target;
                        if (!form.querySelector('input[name=""_sid""]')) {
                            const inp = document.createElement('input');
                            inp.type = 'hidden';
                            inp.name = '_sid';
                            inp.value = server;
                            form.appendChild(inp);
                        }
                    }, true);
                    
                    // 2. AJAX/Fetch requests
                    const _fetch = window.fetch;
                    window.fetch = function(...args) {
                        if (args[0] && typeof args[0] === 'string') {
                            const u = new URL(args[0], location.origin);
                            u.searchParams.set('_sid', server);
                            args[0] = u.toString();
                        }
                        return _fetch.apply(this, args);
                    };
                    
                    // 3. Navigation links
                    document.addEventListener('click', function(e) {
                        if (e.target.tagName === 'A' && e.target.href) {
                            const u = new URL(e.target.href);
                            if (u.origin === location.origin && 
                                !u.pathname.startsWith('/static/') &&
                                !u.pathname.startsWith('/login/') &&
                                !u.pathname.startsWith('/logout/')) {
                                u.searchParams.set('_sid', server);
                                e.target.href = u.toString();
                            }
                        }
                    }, true);
                })();
                </script>
                </body>
                "

  /** SingleSessionMiddleware. It keeps no state of its own; its one fixed
      datum is the text of the script `process_response` writes, held here
      as three constants around the two values filled in. */
  class Middleware {
    const scriptHead: string
    const scriptMiddle: string
    const scriptTail: string

    constructor ()
      ensures scriptHead == ScriptHead && scriptMiddle == ScriptMiddle && scriptTail == ScriptTail
    {
      scriptHead, scriptMiddle, scriptTail := ScriptHead, ScriptMiddle, ScriptTail;
    }

    /** `process_request`. */
    method ProcessRequest(request: Request, path: string, getSid: Option<string>, postSid: Option<string>,
                          freshId: string) returns (outcome: Outcome)
      modifies request
      ensures match Decide(path, old(request.authenticated), Get(old(request.session), TabSessionKey),
                           ClientSid(getSid, postSid))
        case Skip =>
          outcome == PassOn && request.session == old(request.session)
          && request.authenticated == old(request.authenticated)
        case Initialise =>
          outcome == PassOn && request.session == Initialised(old(request.session), freshId)
          && request.authenticated
        case Reject =>
          outcome == RedirectTo("/login/") && request.session == map[] && !request.authenticated
        case Accept =>
          outcome == PassOn && request.session == Accepted(old(request.session))
          && request.authenticated
    {
      if IsExempt(path) {
        return PassOn;
      }
      if !request.authenticated {
        return PassOn;
      }
      var sessionId := Get(request.session, TabSessionKey);
      var clientSessionId := ClientSid(getSid, postSid);
      if !Truthy(sessionId) {
        request.session := request.session[TabSessionKey := Str(freshId)];
        request.session := request.session[NewLoginKey := Flag(true)];
        return PassOn;
      }
      if clientSessionId.None? || clientSessionId.value == "" || sessionId != Some(Str(clientSessionId.value)) {
        // logout() flushes the session and forgets the user; the explicit flush empties it again
        request.authenticated := false;
        request.session := map[];
        return RedirectTo("/login/");
      }
      request.session := request.session[NewLoginKey := Flag(false)];
      return PassOn;
    }

    /** The script `process_response` puts in place of `</body>`: the
        template with the tab id and the new-login flag filled in. */
    function Script(tabId: Value, isNew: Option<Value>): seq<byte> {
      Utf8(scriptHead + PyStr(tabId) + scriptMiddle + IsNewLiteral(isNew) + scriptTail)
    }

    /** `process_response`. */
    method ProcessResponse(request: Request, hasUser: bool, response: Response)
      modifies response
      ensures !InjectsScript(hasUser, request.authenticated, request.session, response.hasContent, old(response.content))
        ==> response.content == old(response.content)
      ensures InjectsScript(hasUser, request.authenticated, request.session, response.hasContent, old(response.content))
        ==> response.content == ReplaceAll(old(response.content), CloseBody,
                                           Script(request.session[TabSessionKey], Get(request.session, NewLoginKey)))
    {
      if hasUser && request.authenticated {
        var sessionId := Get(request.session, TabSessionKey);
        var isNew := Get(request.session, NewLoginKey);
        if Truthy(sessionId) && response.hasContent && Contains(response.content, OpenBody) {
          var script := Script(sessionId.value, isNew);
          response.content := ReplaceAll(response.content, CloseBody, script);
        }
      }
    }
  }

  /** The injection in byte terms: the page is cut into pieces that hold no
      `</body>` and that give the page back when joined with `</body>`; the
      result joins the same pieces with the script, so every `</body>` is
      replaced and every other byte kept. A page with no `</body>` comes back
      unchanged although it was selected. */
  lemma InjectionKeepsPage(content: seq<byte>, script: seq<byte>)
    ensures var pieces := Split(content, CloseBody);
      && (forall k :: 0 <= k < |pieces| ==> !Contains(pieces[k], CloseBody))
      && Join(pieces, CloseBody) == content
      && ReplaceAll(content, CloseBody, script) == Join(pieces, script)
    ensures !Contains(content, CloseBody) ==> ReplaceAll(content, CloseBody, script) == content
  {
    SplitPiecesFree(content, CloseBody);
    ReplaceAllIsJoinOfSplit(content, CloseBody, script);
    SplitJoinRoundTrip(content, CloseBody);
    if !Contains(content, CloseBody) {
      ReplaceAllAbsent(content, CloseBody, script);
    }
  }

  /** What the injected script decides when the page loads. */
  datatype ClientAction = Stay(storedId: string) | GoToLogout

  /** The injected script's check: a new login stores the server's id in the
      tab's sessionStorage; otherwise the tab stays only if it already holds
      exactly that id. */
  function ClientCheck(isNew: bool, stored: Option<string>, server: string): (a: ClientAction)
    ensures a.Stay? <==> isNew || (stored == Some(server) && server != "")
    ensures a.Stay? ==> a.storedId == server
  {
    if isNew then Stay(server)
    else if stored.None? || stored.value == "" then GoToLogout
    else if stored.value != server then GoToLogout
    else Stay(stored.value)
  }

  /** The tab protocol in the browser: the tab that saw the new login keeps
      passing; a tab opened afterwards, with empty sessionStorage, leaves. */
  lemma ClientTabProtocol(server: string, other: Option<string>)
    requires server != ""
    ensures var tab := ClientCheck(true, other, server);
      tab.Stay? && ClientCheck(false, Some(tab.storedId), server) == Stay(server)
    ensures ClientCheck(false, None, server) == GoToLogout
  {
  }

  /** Where a click lands: on an `<a>` element itself, on an element nested
      inside a link (an icon or a span in the link text), or outside any
      link. */
  datatype ClickTarget = OnAnchor | InsideAnchor | OutsideLinks

  /** The injected click handler's rule as written: `_sid` is appended when
      the click target itself is an `<a>` with a non-empty href, on the page's
      own origin, whose path does not start with `/static/`, `/login/` or
      `/logout/`. */
  predicate RewritesLink(target: ClickTarget, href: string, origin: string, pageOrigin: string, pathname: string)
    ensures RewritesLink(target, href, origin, pageOrigin, pathname) ==> target == OnAnchor && origin == pageOrigin
  {
    && target == OnAnchor && href != ""
    && origin == pageOrigin
    && !StartsWith(pathname, "/static/")
    && !StartsWith(pathname, "/login/")
    && !StartsWith(pathname, "/logout/")
  }

  /** Every same-origin link to a path the gate checks carries `_sid` when the
      click target is the `<a>` itself. The converse fails only for `/api/`
      links, which are rewritten though the gate ignores them. */
  lemma LinksToGatedPathsCarrySid(href: string, origin: string, pathname: string)
    requires href != ""
    ensures !IsExempt(pathname) ==> RewritesLink(OnAnchor, href, origin, origin, pathname)
    ensures RewritesLink(OnAnchor, href, origin, origin, pathname) ==>
      IsExempt(pathname) == StartsWith(pathname, "/api/")
  {
  }

  /** A click on an element nested inside a same-origin link to a gated path
      is not rewritten. The browser follows the link without `_sid`, and the
      gate logs the user out. */
  lemma NestedClickLogsOut(href: string, origin: string, pathname: string, stored: Value)
    requires href != "" && !IsExempt(pathname) && Truthy(Some(stored))
    ensures !RewritesLink(InsideAnchor, href, origin, origin, pathname)
    ensures Decide(pathname, true, Some(stored), ClientSid(None, None)) == Reject
  {
  }

  /** The rule with the link found by `e.target.closest('a')`: a click
      anywhere inside a link counts as a click on that link. */
  predicate RewritesEnclosingLink(target: ClickTarget, href: string, origin: string, pageOrigin: string,
                                  pathname: string)
    ensures RewritesEnclosingLink(target, href, origin, pageOrigin, pathname) ==>
      target != OutsideLinks && origin == pageOrigin
  {
    && target != OutsideLinks && href != ""
    && origin == pageOrigin
    && !StartsWith(pathname, "/static/")
    && !StartsWith(pathname, "/login/")
    && !StartsWith(pathname, "/logout/")
  }

  /** With the enclosing link rewritten, every click that follows a
      same-origin link to a gated path sends the tab's id, and the gate
      accepts the request. */
  lemma EnclosingLinksCarrySid(target: ClickTarget, href: string, origin: string, pathname: string, server: string)
    requires target != OutsideLinks && href != "" && !IsExempt(pathname) && server != ""
    ensures RewritesEnclosingLink(target, href, origin, origin, pathname)
    ensures Decide(pathname, true, Some(Str(server)), ClientSid(Some(server), None)) == Accept
  {
  }
}
