/**
 * The vocabulary of the client core's state machine (client/shared/src/app.rs
 * and the Session record of client/shared/src/auth.rs): the model the update
 * function changes in place, the events it receives and the effects it asks the
 * shell for. Effects are not performed; `Capabilities` records them in order.
 */
module ClientCore {
  import opened Wrappers

  /**
   * A login session. The username is optional: the login handler as written
   * stores only the id and the instance, while the note fetcher reads a username.
   */
  datatype Session = Session(id: string, instance: string, username: Option<string>)

  /**
   * A value held by the key-value store. JSON encoding is not modelled: a value
   * is either the serialisation of a session or bytes that do not decode as one.
   */
  datatype StoredValue = SessionJson(session: Session) | Undecodable(bytes: seq<bv8>)

  /** Deserialising a stored value as a session, with a decoding failure as None. */
  function DecodeSession(v: StoredValue): Option<Session>
  {
    match v
    case SessionJson(s) => Some(s)
    case Undecodable(_) => None
  }

  datatype Method = Get | Post

  /** Content types the core sets on its requests. */
  datatype Mime = PlainText | Html | Css

  datatype Header = Header(name: string, value: string)

  datatype HttpRequest = HttpRequest(
    verb: Method, url: string, contentType: Option<Mime>, headers: seq<Header>, body: Option<string>)

  /** The parts of an HTTP response the core reads. */
  datatype HttpResponse = HttpResponse(status: nat, setCookie: Option<seq<string>>, body: Option<string>)

  datatype HttpError = HttpError(message: string)

  type HttpResult = Result<HttpResponse, HttpError>

  /** What the key-value store answers. */
  datatype KeyValueOutput = Read(value: Option<StoredValue>) | Write(success: bool)

  /** The event a capability's answer is delivered as. */
  datatype Resume = ToDisplayNote | ToRenderCss | ToHandleLogin(instance: string) | ToLoadSession | ToSaveSession

  datatype Effect =
    | Http(request: HttpRequest, resume: Resume)
    | KeyValueRead(key: string, resume: Resume)
    | KeyValueWrite(key: string, value: StoredValue, resume: Resume)
    | Render

  datatype Event =
    | Clear
    | GetNote(path: string)
    | DisplayNote(response: HttpResult)
    | GetCss
    | RenderCss(response: HttpResult)
    | GetSession
    | Login(instance: string, username: string, password: string)
    | HandleLogin(loginResponse: HttpResult, instance: string, username: string)
    | LoadSession(output: KeyValueOutput)
    | SaveSession(saved: KeyValueOutput)

  /** The model's value at one moment. */
  datatype State = State(css: Option<string>, note: Option<string>, session: Option<Session>)

  /** The value a handler leaves in the model and the effects it asks for. */
  datatype Transition = Transition(state: State, effects: seq<Effect>)

  /** The application model, updated in place by the event handlers. */
  class Model {
    var css: Option<string>
    var note: Option<string>
    var session: Option<Session>

    constructor ()
      ensures css == None && note == None && session == None
    {
      css, note, session := None, None, None;
    }

    function Value(): State
      reads this
    {
      State(css, note, session)
    }
  }

  /** The shell's capabilities; every requested effect is appended to `effects`. */
  class Capabilities {
    var effects: seq<Effect>

    constructor ()
      ensures effects == []
    {
      effects := [];
    }

    method Request(e: Effect)
      modifies this
      ensures effects == old(effects) + [e]
    {
      effects := effects + [e];
    }
  }
}
