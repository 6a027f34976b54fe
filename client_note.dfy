/**
 * Fetching and showing a note and its style sheet (client/shared/src/note.rs).
 * Each handler is a pure transition, and a method that performs it on the model
 * and the capabilities in the order the source does.
 */
module ClientNote {
  import opened Wrappers
  import opened ClientCore
  import ClientAuth

  /** The Cookie header value that authenticates a request with `session`. */
  function CookieHeaderValue(session: Session): string
  {
    "session=" + session.id
  }

  /** The username as it appears in note URLs; a session without one contributes "". */
  function UrlUsername(session: Session): string
  {
    match session.username
    case Some(u) => u
    case None => ""
  }

  function NoteRequest(session: Session, path: string): HttpRequest
  {
    HttpRequest(Get, session.instance + "/" + UrlUsername(session) + "/notes/" + path, Some(Html),
                [Header("Cookie", CookieHeaderValue(session))], None)
  }

  function CssRequest(session: Session): HttpRequest
  {
    HttpRequest(Get, session.instance + "/pkg/lazy-notes.css", Some(Css), [], None)
  }

  /** get_note asks for the note only when there is a session. */
  function GetNoteEffects(session: Option<Session>, path: string): seq<Effect>
  {
    if session.None? then [] else [Http(NoteRequest(session.value, path), ToDisplayNote)]
  }

  /** get_note_css asks for the style sheet only when there is a session. */
  function GetCssEffects(session: Option<Session>): seq<Effect>
  {
    if session.None? then [] else [Http(CssRequest(session.value), ToRenderCss)]
  }

  /** The body of a successful response; None for an error or a response without body. */
  function ResponseBody(response: HttpResult): Option<string>
  {
    if response.Ok? then response.value.body else None
  }

  function DisplayNoteTransition(s: State, response: HttpResult): Transition
  {
    var note := ResponseBody(response);
    if note.None? then
      Transition(State(s.css, None, None), [KeyValueWrite("session", Undecodable([]), ToSaveSession), Render])
    else Transition(s.(note := note), [Render])
  }

  function RenderCssTransition(s: State, response: HttpResult): Transition
  {
    Transition(s.(css := ResponseBody(response)), [Render])
  }

  method GetNote(model: Model, caps: Capabilities, path: string)
    modifies caps
    ensures caps.effects == old(caps.effects) + GetNoteEffects(model.session, path)
  {
    if model.session.None? {
      return;
    }
    caps.Request(Http(NoteRequest(model.session.value, path), ToDisplayNote));
  }

  method DisplayNote(model: Model, caps: Capabilities, response: HttpResult)
    modifies model, caps
    ensures model.Value() == DisplayNoteTransition(old(model.Value()), response).state
    ensures caps.effects == old(caps.effects) + DisplayNoteTransition(old(model.Value()), response).effects
  {
    model.note := if response.Ok? then response.value.body else None;
    if model.note.None? {
      caps.Request(KeyValueWrite("session", Undecodable([]), ToSaveSession));
      model.session := None;
    }
    caps.Request(Render);
  }

  method GetNoteCss(model: Model, caps: Capabilities)
    modifies caps
    ensures caps.effects == old(caps.effects) + GetCssEffects(model.session)
  {
    if model.session.None? {
      return;
    }
    caps.Request(Http(CssRequest(model.session.value), ToRenderCss));
  }

  method RenderCss(model: Model, caps: Capabilities, response: HttpResult)
    modifies model, caps
    ensures model.Value() == RenderCssTransition(old(model.Value()), response).state
    ensures caps.effects == old(caps.effects) + RenderCssTransition(old(model.Value()), response).effects
  {
    model.css := if response.Ok? then response.value.body else None;
    caps.Request(Render);
  }

  /**
   * The note request is an html GET of {instance}/{username}/notes/{path} with the
   * one header `Cookie: session={id}`; when the id has no ';', the cookie reader
   * of the login handler gives that id back.
   */
  lemma NoteRequestCarriesSession(session: Session, path: string)
    ensures var effects := GetNoteEffects(Some(session), path);
            && |effects| == 1 && effects[0].Http? && effects[0].resume == ToDisplayNote
            && effects[0].request.verb == Get && effects[0].request.contentType == Some(Html)
            && effects[0].request.url == session.instance + "/" + UrlUsername(session) + "/notes/" + path
            && effects[0].request.headers == [Header("Cookie", "session=" + session.id)]
            && (';' !in session.id ==> ClientAuth.SessionId([effects[0].request.headers[0].value]) == Some(session.id))
  {
    if ';' !in session.id {
      ClientAuth.SessionCookieYieldsId(session.id, "");
    }
  }

  /** Without a session neither fetch asks for anything. */
  lemma NoSessionNoRequest(path: string)
    ensures GetNoteEffects(None, path) == [] && GetCssEffects(None) == []
  {
  }

  /**
   * display_note shows the body of a successful response; when there is none it
   * clears the session and erases the stored one with an empty value. Otherwise
   * the session is kept. The style sheet is untouched and a render is requested.
   */
  lemma DisplayNoteOutcome(s: State, response: HttpResult)
    ensures var t := DisplayNoteTransition(s, response);
            && t.state.note == ResponseBody(response)
            && t.state.css == s.css
            && (t.state.note.Some? ==> t.state.session == s.session && t.effects == [Render])
            && (t.state.note.None? ==> t.state.session.None?
                                       && t.effects == [KeyValueWrite("session", Undecodable([]), ToSaveSession), Render])
  {
  }

  /** render_css sets the style sheet from the response and touches nothing else. */
  lemma RenderCssOutcome(s: State, response: HttpResult)
    ensures var t := RenderCssTransition(s, response);
            t.state == State(ResponseBody(response), s.note, s.session) && t.effects == [Render]
  {
  }
}
