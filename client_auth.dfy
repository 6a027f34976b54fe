/**
 * Logging in from the client core (client/shared/src/auth.rs): the login
 * request, and the handler that reads the session cookie of the answer.
 */
module ClientAuth {
  import opened Wrappers
  import opened Strings
  import opened ClientCore

  const LoginApi: string := "/api/login"

  /** The instance URL with at most one trailing slash removed. */
  function StripTrailingSlash(instance: string): (r: string)
    ensures r == instance || r + "/" == instance
    ensures r == instance <==> instance == [] || instance[|instance| - 1] != '/'
  {
    if |instance| > 0 && instance[|instance| - 1] == '/' then
      assert instance[..|instance| - 1] + "/" == instance;
      instance[..|instance| - 1]
    else instance
  }

  /** The form body of a login; the fields are not URL-encoded. */
  function LoginBody(username: string, password: string): string
  {
    "username=" + username + "&password=" + password
  }

  function LoginRequest(instance: string, username: string, password: string): HttpRequest
  {
    HttpRequest(Post, StripTrailingSlash(instance) + LoginApi, Some(PlainText), [], Some(LoginBody(username, password)))
  }

  /** `login` asks for one POST, whose answer comes back with the normalised instance. */
  function LoginEffects(instance: string, username: string, password: string): (effects: seq<Effect>)
    ensures |effects| == 1 && effects[0].Http?
    ensures effects[0].request.verb == Post && effects[0].request.body == Some(LoginBody(username, password))
    ensures effects[0].resume.ToHandleLogin?
    ensures effects[0].resume.instance == StripTrailingSlash(instance)
    ensures effects[0].request.contentType == Some(PlainText) && effects[0].request.headers == []
    ensures effects[0].request.url == effects[0].resume.instance + LoginApi
  {
    [Http(LoginRequest(instance, username, password), ToHandleLogin(StripTrailingSlash(instance)))]
  }

  method Login(caps: Capabilities, instance: string, username: string, password: string)
    modifies caps
    ensures caps.effects == old(caps.effects) + LoginEffects(instance, username, password)
  {
    caps.Request(Http(LoginRequest(instance, username, password), ToHandleLogin(StripTrailingSlash(instance))));
  }

  /** The `name=value` part of a Set-Cookie value: the text before the first ';'. */
  function CookiePair(cookie: string): (pair: string)
    ensures ';' !in pair && pair <= cookie
    ensures pair != cookie ==> cookie[|pair|] == ';'
  {
    match SplitOnce(cookie, ';')
    case None => cookie
    case Some((before, _)) =>
      assert cookie[..|before|] == before;
      before
  }

  /** A cookie's name and value, split at the first '='; None when there is no '='. */
  function CookieEntry(cookie: string): Option<(string, string)>
  {
    SplitOnce(CookiePair(cookie), '=')
  }

  predicate IsSessionEntry(cookie: string)
  {
    CookieEntry(cookie).Some? && CookieEntry(cookie).value.0 == "session"
  }

  /** The value of the first Set-Cookie entry named `session`. */
  function SessionId(cookies: seq<string>): Option<string>
  {
    if cookies == [] then None
    else if IsSessionEntry(cookies[0]) then Some(CookieEntry(cookies[0]).value.1)
    else SessionId(cookies[1..])
  }

  /** The session id a response carries; a response without Set-Cookie carries none. */
  function SessionFromResponse(response: HttpResponse): Option<string>
  {
    match response.setCookie
    case None => None
    case Some(values) => SessionId(values)
  }

  /** What handle_login does to the model and which effects it asks for. */
  function HandleLoginTransition(s: State, response: HttpResult, instance: string): Transition
  {
    if response.Err? || response.value.status != 200 then Transition(s, [])
    else
      match SessionFromResponse(response.value)
      case None => Transition(s, [])
      case Some(id) =>
        var session := Session(id, instance, None);
        Transition(s.(session := Some(session)), [KeyValueWrite("session", SessionJson(session), ToSaveSession), Render])
  }

  method HandleLogin(model: Model, caps: Capabilities, response: HttpResult, instance: string)
    modifies model, caps
    ensures model.Value() == HandleLoginTransition(old(model.Value()), response, instance).state
    ensures caps.effects == old(caps.effects) + HandleLoginTransition(old(model.Value()), response, instance).effects
  {
    if response.Err? {
      return;
    }
    var res := response.value;
    if res.status != 200 {
      return;
    }
    var id := SessionFromResponse(res);
    if id.Some? {
      var session := Session(id.value, instance, None);
      caps.Request(KeyValueWrite("session", SessionJson(session), ToSaveSession));
      model.session := Some(session);
      caps.Request(Render);
    }
  }

  /**
   * The session id is the value of the first Set-Cookie entry whose name is
   * exactly `session`; entries without '=' and other names are skipped.
   */
  lemma {:induction false} SessionIdIsFirstSessionEntry(cookies: seq<string>)
    ensures SessionId(cookies).None? <==> forall i :: 0 <= i < |cookies| ==> !IsSessionEntry(cookies[i])
    ensures SessionId(cookies).Some? ==>
              exists i :: 0 <= i < |cookies| && IsSessionEntry(cookies[i])
                          && CookieEntry(cookies[i]).value.1 == SessionId(cookies).value
                          && forall j :: 0 <= j < i ==> !IsSessionEntry(cookies[j])
  {
    if cookies != [] && !IsSessionEntry(cookies[0]) {
      var rest := cookies[1..];
      SessionIdIsFirstSessionEntry(rest);
      assert forall i :: 1 <= i < |cookies| ==> cookies[i] == rest[i - 1];
      if SessionId(rest).Some? {
        var i :| 0 <= i < |rest| && IsSessionEntry(rest[i])
                 && CookieEntry(rest[i]).value.1 == SessionId(rest).value
                 && forall j :: 0 <= j < i ==> !IsSessionEntry(rest[j]);
        assert cookies[i + 1] == rest[i];
        assert forall j :: 0 <= j < i + 1 ==> !IsSessionEntry(cookies[j]) by {
          forall j | 0 <= j < i + 1 ensures !IsSessionEntry(cookies[j]) {
            if j > 0 { assert cookies[j] == rest[j - 1]; }
          }
        }
      }
    }
  }

  /** A cookie `session=<id>`, with or without attributes after a ';', yields `<id>`. */
  lemma SessionCookieYieldsId(id: string, attributes: string)
    requires ';' !in id
    ensures SessionId(["session=" + id]) == Some(id)
    ensures SessionId(["session=" + id + ";" + attributes]) == Some(id)
  {
    SplitOnceAt("session", id, '=');
    assert "session=" + id == "session" + ['='] + id;
    assert ';' !in "session=" + id;
    SplitOnceAt("session=" + id, attributes, ';');
    assert "session=" + id + ";" + attributes == ("session=" + id) + [';'] + attributes;
  }

  /** The Set-Cookie value of the login test, `session=sessionid123`, gives that id. */
  lemma LoginTestCookie(id: string)
    requires id == "sessionid123"
    ensures SessionFromResponse(HttpResponse(200, Some(["session=" + id]), None)) == Some(id)
  {
    assert ';' !in id;
    SessionCookieYieldsId(id, "");
  }

  /**
   * A login body names its credentials unambiguously as long as the username has
   * no '&' (usernames the server accepts never do).
   */
  lemma LoginBodyDeterminesCredentials(u1: string, p1: string, u2: string, p2: string)
    requires '&' !in u1 && '&' !in u2
    requires LoginBody(u1, p1) == LoginBody(u2, p2)
    ensures u1 == u2 && p1 == p2
  {
    assert LoginBody(u1, p1) == ("username=" + u1) + ['&'] + ("password=" + p1);
    assert LoginBody(u2, p2) == ("username=" + u2) + ['&'] + ("password=" + p2);
    SplitAtFirstIsUnique("username=" + u1, "password=" + p1, "username=" + u2, "password=" + p2, '&');
    assert u1 == ("username=" + u1)[9..];
    assert u2 == ("username=" + u2)[9..];
    assert p1 == ("password=" + p1)[9..];
    assert p2 == ("password=" + p2)[9..];
  }

  /** Without URL-encoding, a username holding '&' can collide with other credentials. */
  lemma LoginBodyIsAmbiguous()
    ensures LoginBody("a&password=b", "c") == LoginBody("a", "b&password=c")
  {
  }

  /**
   * handle_login changes the model exactly when a 200 response carries a session
   * cookie; it then stores {id, instance} and asks for a write and a render.
   */
  lemma HandleLoginOutcome(s: State, response: HttpResult, instance: string)
    ensures var t := HandleLoginTransition(s, response, instance);
            var found := response.Ok? && response.value.status == 200 && SessionFromResponse(response.value).Some?;
            && t.state.css == s.css && t.state.note == s.note
            && (!found ==> t.state == s && t.effects == [])
            && (found ==> var session := Session(SessionFromResponse(response.value).value, instance, None);
                          t.state.session == Some(session)
                          && t.effects == [KeyValueWrite("session", SessionJson(session), ToSaveSession), Render])
  {
  }
}
