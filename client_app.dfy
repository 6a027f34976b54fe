/**
 * The client core's update and view functions (client/shared/src/app.rs): the
 * dispatch of each event to its handler, and the view model with the note's
 * table of contents.
 */
module ClientApp {
  import opened Wrappers
  import opened HtmlTokens
  import opened ClientCore
  import ClientAuth
  import ClientNote
  import Toc

  datatype ViewModel = ViewModel(
    css: Option<string>, toc: Option<seq<Toc.TocHeading>>, note: Option<string>, session: Option<Session>)

  /** The key-value store answers a read with Read, so LoadSession never carries a Write. */
  predicate Deliverable(e: Event)
  {
    !(e.LoadSession? && e.output.Write?)
  }

  /**
   * What `update` does with one event: the model it leaves and the effects it
   * asks for. Each part of the model has its own writers: only RenderCss sets the
   * style sheet, only Clear and DisplayNote the note, and only DisplayNote,
   * HandleLogin and LoadSession the session.
   */
  function Next(e: Event, s: State): (t: Transition)
    requires Deliverable(e)
    ensures t.state.css != s.css ==> e.RenderCss?
    ensures t.state.note != s.note ==> e.Clear? || e.DisplayNote?
    ensures t.state.session != s.session ==> e.DisplayNote? || e.HandleLogin? || e.LoadSession?
  {
    match e
    case Clear => Transition(s.(note := None), [Render])
    case GetNote(path) => Transition(s, ClientNote.GetNoteEffects(s.session, path))
    case DisplayNote(response) =>
      ClientNote.DisplayNoteOutcome(s, response);
      ClientNote.DisplayNoteTransition(s, response)
    case GetCss => Transition(s, ClientNote.GetCssEffects(s.session))
    case RenderCss(response) => ClientNote.RenderCssTransition(s, response)
    case GetSession => Transition(s, [KeyValueRead("session", ToLoadSession)])
    case Login(instance, username, password) => Transition(s, ClientAuth.LoginEffects(instance, username, password))
    case HandleLogin(response, instance, _) =>
      ClientAuth.HandleLoginOutcome(s, response, instance);
      ClientAuth.HandleLoginTransition(s, response, instance)
    case LoadSession(output) =>
      if output.value.Some? then Transition(s.(session := DecodeSession(output.value.value)), [Render])
      else Transition(s, [Render])
    case SaveSession(_) => Transition(s, [])
  }

  /** `update`: the username of HandleLogin is not passed on, as the login handler takes none. */
  method Update(event: Event, model: Model, caps: Capabilities)
    requires Deliverable(event)
    modifies model, caps
    ensures model.Value() == Next(event, old(model.Value())).state
    ensures caps.effects == old(caps.effects) + Next(event, old(model.Value())).effects
  {
    match event {
      case Clear =>
        model.note := None;
        caps.Request(Render);
      case GetNote(path) => ClientNote.GetNote(model, caps, path);
      case DisplayNote(response) => ClientNote.DisplayNote(model, caps, response);
      case GetCss => ClientNote.GetNoteCss(model, caps);
      case RenderCss(response) => ClientNote.RenderCss(model, caps, response);
      case GetSession => caps.Request(KeyValueRead("session", ToLoadSession));
      case Login(instance, username, password) => ClientAuth.Login(caps, instance, username, password);
      case HandleLogin(response, instance, _) => ClientAuth.HandleLogin(model, caps, response, instance);
      case LoadSession(output) =>
        match output {
          case Read(Some(value)) =>
            model.session := DecodeSession(value);
            caps.Request(Render);
          case Read(None) =>
            caps.Request(Render);
          case Write(_) =>
            assert false;
        }
      case SaveSession(_) =>
    }
  }

  /**
   * `view`: the note's table of contents comes from the tokens `tokenize` gives
   * for it. The view copies css, note and session, and has a table of contents
   * exactly when there is a note: generate_toc's headings, which are the
   * reference list, one entry per heading the note opens, levels 1 to 6.
   */
  function View(s: State, tokenize: string -> seq<Token>): (v: ViewModel)
    ensures v.css == s.css && v.note == s.note && v.session == s.session
    ensures v.toc.None? <==> s.note.None?
    ensures v.toc.Some? ==> v.toc.value == Toc.Headings(tokenize(s.note.value)) == Toc.Reference(tokenize(s.note.value))
    ensures v.toc.Some? ==> |v.toc.value| == |Toc.Openings(tokenize(s.note.value))|
                            && forall h :: h in v.toc.value ==> 1 <= h.level <= 6
  {
    var toc := if s.note.Some? then
                 Toc.HeadingsFollowOpenings(tokenize(s.note.value));
                 Toc.HeadingsMatchReference(tokenize(s.note.value));
                 Some(Toc.Headings(tokenize(s.note.value)))
               else None;
    ViewModel(s.css, toc, s.note, s.session)
  }

  /**
   * Clear, the two response handlers and LoadSession end by asking for a render;
   * the events that only start a request never do.
   */
  lemma RenderRequests(e: Event, s: State)
    requires Deliverable(e)
    ensures e.Clear? || e.DisplayNote? || e.RenderCss? || e.LoadSession? ==>
              |Next(e, s).effects| > 0 && Next(e, s).effects[|Next(e, s).effects| - 1] == Render
    ensures e.GetNote? || e.GetCss? || e.GetSession? || e.Login? || e.SaveSession? ==>
              Render !in Next(e, s).effects
  {
  }

  /** Clear drops the note only; LoadSession with nothing stored keeps the model. */
  lemma ClearAndEmptyLoad(s: State)
    ensures Next(Clear, s) == Transition(State(s.css, None, s.session), [Render])
    ensures Next(LoadSession(Read(None)), s) == Transition(s, [Render])
  {
  }

  /** GetSession asks the key-value store for "session" and changes nothing else. */
  lemma GetSessionReads(s: State)
    ensures Next(GetSession, s) == Transition(s, [KeyValueRead("session", ToLoadSession)])
  {
  }

  /**
   * A session saved by a successful login comes back on the next load: the login
   * handler's first effect writes it under "session", and loading that stored
   * value restores exactly the logged-in session and leaves the rest as it is.
   */
  lemma SessionSaveThenLoad(s: State, response: HttpResult, instance: string, s': State)
    requires ClientAuth.HandleLoginTransition(s, response, instance).effects != []
    ensures var t := ClientAuth.HandleLoginTransition(s, response, instance);
            && t.effects[0].KeyValueWrite? && t.effects[0].key == "session"
            && t.state.session.Some?
            && Next(LoadSession(Read(Some(t.effects[0].value))), s') == Transition(s'.(session := t.state.session), [Render])
  {
  }

  /** The login test's request: one POST to {instance}/api/login whose answer resumes with the instance. */
  method LoginRequestScenario(instance: string, username: string, password: string)
    returns (state: State, effects: seq<Effect>)
    requires |instance| > 0 && instance[|instance| - 1] != '/'
    ensures |effects| == 1 && effects[0].Http?
    ensures effects[0].request.url == instance + "/api/login"
    ensures effects[0].request.verb == Post && effects[0].request.contentType == Some(PlainText)
    ensures effects[0].request.body == Some(ClientAuth.LoginBody(username, password))
    ensures effects[0].resume == ToHandleLogin(instance)
    ensures state == State(None, None, None)
  {
    var model := new Model();
    var caps := new Capabilities();
    Update(Login(instance, username, password), model, caps);
    state, effects := model.Value(), caps.effects;
  }

  /**
   * The login test's answer: a 200 response whose cookies name a session (as
   * `session=sessionid123` does, by ClientAuth.LoginTestCookie) stores that
   * session for the instance, without a username, writes it and renders.
   */
  method HandleLoginScenario(instance: string, username: string, response: HttpResponse)
    returns (state: State, effects: seq<Effect>)
    requires response.status == 200 && ClientAuth.SessionFromResponse(response).Some?
    ensures var session := Session(ClientAuth.SessionFromResponse(response).value, instance, None);
            && state == State(None, None, Some(session))
            && effects == [KeyValueWrite("session", SessionJson(session), ToSaveSession), Render]
  {
    var model := new Model();
    var caps := new Capabilities();
    Update(HandleLogin(Ok(response), instance, username), model, caps);
    state, effects := model.Value(), caps.effects;
  }

  /** The request the note test's session makes for "/index.md", spelled out. */
  lemma NoteTestRequest()
    ensures var request := ClientNote.NoteRequest(Session("sessionid123", "http://localhost:3000", Some("login_test123")), "/index.md");
            && request.url == "http://localhost:3000/login_test123/notes//index.md"
            && request.headers == [Header("Cookie", "session=sessionid123")]
  {
    var session := Session("sessionid123", "http://localhost:3000", Some("login_test123"));
    assert ClientNote.UrlUsername(session) == "login_test123";
    assert ClientNote.CookieHeaderValue(session) == "session=sessionid123";
    var prefix := "http://localhost:3000" + "/";
    assert prefix == "http://localhost:3000/";
    var user := prefix + "login_test123";
    assert user == "http://localhost:3000/login_test123";
    var notes := user + "/notes/";
    assert notes == "http://localhost:3000/login_test123/notes/";
  }

  /**
   * The note test: with a stored session, fetch a note and answer
   * `<h1>Success</h1>`; the fetch carries the session and the view shows the
   * note verbatim, keeping the session.
   */
  method GetNoteScenario(tokenize: string -> seq<Token>) returns (request: HttpRequest, view: ViewModel)
    ensures request.url == "http://localhost:3000/login_test123/notes//index.md"
    ensures request.headers == [Header("Cookie", "session=sessionid123")]
    ensures view.note == Some("<h1>Success</h1>")
    ensures view.session == Some(Session("sessionid123", "http://localhost:3000", Some("login_test123")))
  {
    var model := new Model();
    var caps := new Capabilities();
    var session := Session("sessionid123", "http://localhost:3000", Some("login_test123"));
    Update(LoadSession(Read(Some(SessionJson(session)))), model, caps);
    assert model.session == Some(session);

    Update(GetNote("/index.md"), model, caps);
    assert caps.effects == [Render, Http(ClientNote.NoteRequest(session, "/index.md"), ToDisplayNote)];
    request := caps.effects[1].request;
    NoteTestRequest();

    var body := "<h1>Success</h1>";
    Update(DisplayNote(Ok(HttpResponse(200, None, Some(body)))), model, caps);
    assert model.Value() == State(None, Some(body), Some(session));
    view := View(model.Value(), tokenize);
  }
}
