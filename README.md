# lazy-notes, modelled in Dafny

lazy-notes is a self-hosted markdown notes service. The server renders a user's
notes to sanitised HTML behind a login. A crux client core drives the apps: it logs
in, keeps the session and fetches notes and the style sheet. It also builds the
note's table of contents from the HTML token stream.

This project models the sequential core of that system:

- The two HTML token sinks of the client. `Toc.TocSink` collects headings for the
  table of contents (`client/shared/src/app.rs`). `Parser.HtmlParseResult` collects
  `h1`–`h6` and `p` nodes with their first text (`client/shared/src/parser.rs`).
  Each sink is a class whose `ProcessToken` method updates a `seq` field as the
  pure function `Step` says. What a whole stream leaves in a sink is the fold of
  `Step`. For the table of contents, that fold is proved equal to an independent
  reference definition.
- The client state machine (`update` and `view` in `client/shared/src/app.rs`,
  handlers in `client/shared/src/auth.rs` and `client/shared/src/note.rs`):
  - `ClientCore.Model` is a class with the fields `css`, `note` and `session`.
  - The shell's capabilities are a class, `ClientCore.Capabilities`, which appends
    every requested effect to a list. The effects are an HTTP request, a key-value
    read or write, and a render.
  - Each handler is a method that is proved to leave the model and the effect list
    as a pure transition function says. `ClientApp.Next` dispatches an event to
    those functions.
- The server's account rules (`server/src/auth.rs`): the username validator as a
  leftmost-first, greedy regex match; the `User` flags; and the order of the
  signup and login checks. The database is a map from record id to record, and
  bcrypt is two function parameters.
- The note endpoint `get_note_as_html` (`server/src/api.rs`): the authentication
  gate, the byte-based suffix rule that picks the markdown file, and the two
  `str::replace` rewrites of resource links. `str::replace` is modelled as a
  left-to-right scan and proved equal to split-then-join.

The HTML tokenizer is a parameter `tokenize: string -> seq<Token>`. `Token` is an
abstract datatype: start tag with attributes and a self-closing flag, end tag,
character run, or anything else. The file system and the markdown renderer of the
endpoint are parameters too.

Two behaviours of the sinks are easy to misread:

- The table-of-contents sink never deletes a heading. An empty character run right
  after a heading becomes that heading's text (`client/shared/src/app.rs:186-193`,
  `Toc.EmptyRunScenario`).
- The node sink (`client/shared/src/parser.rs:82-86`) pops the last node on an
  empty run only when that node already has a body. An empty first run becomes the
  body (`Parser.PopScenarios`).

The client files come from different revisions:

- `app.rs:97-98` passes a username to `handle_login`, but `auth.rs:24-29` takes none.
  The model drops it.
- `note.rs:18` reads `session.username`, but the `Session` of `auth.rs:10-13` has no
  such field. `Session` has an optional `username`. `handle_login` stores none, and
  the note URL uses "" for a missing one.
- `view` (`app.rs:118`) maps the note to `generate_toc(note).ok()`, an
  `Option<Option<Vec<TocHeading>>>`, for a field declared `Option<Vec<..>>`. Since
  `generate_toc` always returns `Ok`, the model keeps the declared type:
  `Some(headings)`.
- The server's `api` module is commented out at `server/src/lib.rs:2`. The endpoint
  is modelled as written.

## Model

| member | source | states |
|---|---|---|
| Toc.TocHeading.SetText | client/shared/src/app.rs:134-138 | sets the text and keeps level, class and id |
| Toc.HeadingLevel | client/shared/src/app.rs:155-164 | a level exactly for the names h1 to h6, equal to the digit |
| Toc.FindAttribute | client/shared/src/app.rs:166-176 | None iff no attribute has the name; otherwise the value of the first attribute with that name, even an empty one |
| Toc.Opened | client/shared/src/app.rs:148-184 | a heading is opened exactly by a non-self-closing h1–h6 start tag; its level is the tag's digit (1..6), class and id are the first matching attributes, and its text is unset |
| Toc.TocSink.constructor | client/shared/src/app.rs:204-206 | a new sink holds no headings |
| Toc.TocSink.ProcessToken | client/shared/src/app.rs:147-199 | the list becomes Step of the old list, and processing always continues |
| Toc.GenerateToc | client/shared/src/app.rs:203-218 | always Ok, holding what the sink leaves after the whole token stream |
| Toc.FoldMatchesReference | client/shared/src/app.rs:147-199 | folding from any list gives that list settled by the first run, followed by the reference entries |
| Toc.HeadingsMatchReference | client/shared/src/app.rs:178-193 | the table of contents is one entry per opening tag in document order, whose text is the first run before the next heading, even with other tags between |
| Toc.ReferenceFollowsOpenings | client/shared/src/app.rs:178-183 | the reference has one entry per opening tag, equal to it apart from the text |
| Toc.ReferenceTextsOccur | client/shared/src/app.rs:186-193 | every text of a reference entry is one of the stream's character runs |
| Toc.FirstRunOccurs | client/shared/src/app.rs:186-193 | the run a heading takes is one of the stream's character runs |
| Toc.HeadingsFollowOpenings | client/shared/src/app.rs:149-193 | as many headings as qualifying start tags, each equal to its tag's entry apart from the text; levels 1..6; every text is one of the runs |
| Toc.OpeningsLevels | client/shared/src/app.rs:156-164 | every opened heading has a level in 1..6 and no text |
| Toc.Step | client/shared/src/app.rs:147-199 | one token appends a heading exactly when it opens one, and never removes, reorders or changes a heading or replaces a set text |
| Toc.FoldExtends | client/shared/src/app.rs:147-199 | the same holds for any number of tokens |
| Toc.HeadingsOnlyGrow | client/shared/src/app.rs:178-193 | more input only appends headings and fills unset texts |
| Toc.FindAttributeIgnoresOrder | client/shared/src/app.rs:166-176 | swapping two attributes with different names does not change a lookup |
| Toc.AttributeOrderScenario | client/shared/src/app.rs:166-176 | id-then-class and class-then-id give the same entry |
| Toc.FirstRunScenario | client/shared/src/app.rs:186-193 | only the first run after a heading is kept, even across a tag |
| Toc.EmptyRunScenario | client/shared/src/app.rs:186-193 | an empty run becomes the text and the heading stays |
| Toc.SelfClosingScenario | client/shared/src/app.rs:149-154 | a self-closing heading opens nothing |
| Parser.NodeTag | client/shared/src/parser.rs:55-71 | a tag exactly for h1–h6 and p, equal to the name |
| Parser.HtmlParseResult.constructor | client/shared/src/parser.rs:122 | a new sink holds no nodes |
| Parser.Step | client/shared/src/parser.rs:47-98 | one token touches only the last node: it appends a fresh node iff it opens an h1–h6 or p tag; a run fills the last node's body when it is unset; a non-empty run after a body, any run with no nodes, and any other token leave the list unchanged; the last node is popped iff the token is an empty run after that node already has a body |
| Parser.HtmlParseResult.ProcessToken | client/shared/src/parser.rs:47-98 | the node list becomes Step of the old list, and processing always continues |
| Parser.StepKeepsSubsequence | client/shared/src/parser.rs:73-90 | after one token the node tags are still a subsequence of the tags opened so far |
| Parser.FoldKeepsSubsequence | client/shared/src/parser.rs:47-98 | the same holds for any number of tokens |
| Parser.NodesFollowOpenings | client/shared/src/parser.rs:55-86 | node tags are the opened block tags in document order, some dropped; never more nodes than qualifying start tags; every tag is one of h1–h6 and p |
| Parser.OpenedTagsAreBlockTags | client/shared/src/parser.rs:55-71 | every tag the stream opens is a block tag |
| Parser.StepKeepsBodies | client/shared/src/parser.rs:79-90 | one token keeps every set body equal to one of the runs |
| Parser.FoldKeepsBodies | client/shared/src/parser.rs:47-98 | the same holds for any number of tokens |
| Parser.NodeBodiesOccur | client/shared/src/parser.rs:79-90 | every set body is one of the stream's runs, verbatim |
| Parser.PopScenarios | client/shared/src/parser.rs:82-90 | an empty run after a body pops the node; an empty first run becomes the body; a later non-empty run is ignored |
| Strings.IndexOf | client/shared/src/auth.rs:50 | None iff the character is absent; otherwise its first position |
| Strings.SplitOnce | client/shared/src/auth.rs:50-54 | None iff the separator is absent; otherwise the text before and after its first occurrence |
| Strings.SplitAtFirstIsUnique | client/shared/src/auth.rs:50-54 | a split at the first separator is determined by the text |
| Strings.SplitOnceAt | client/shared/src/auth.rs:50-54 | splitting a + c + b, where a has no c, gives (a, b) |
| ClientCore.Model.constructor | client/shared/src/app.rs:47-53 | the default model has no style sheet, no note and no session |
| ClientCore.Capabilities.constructor | client/shared/src/app.rs:64-72 | no effect has been requested |
| ClientCore.Capabilities.Request | client/shared/src/app.rs:64-72 | a request is appended to the effects, in order |
| ClientAuth.StripTrailingSlash | client/shared/src/auth.rs:16 | removes exactly one trailing '/', and only when there is one |
| ClientAuth.LoginEffects | client/shared/src/auth.rs:15-22 | one plain-text POST, without extra headers, to the instance with its trailing '/' stripped + "/api/login", carrying the unencoded form body, resumed with the stripped instance |
| ClientAuth.Login | client/shared/src/auth.rs:15-22 | appends exactly the login request to the effects |
| ClientAuth.CookiePair | client/shared/src/auth.rs:47-53 | the prefix before the first ';', or the whole value |
| ClientAuth.SessionIdIsFirstSessionEntry | client/shared/src/auth.rs:42-59 | None iff no Set-Cookie entry is named `session`; otherwise the value of the first such entry |
| ClientAuth.SessionCookieYieldsId | client/shared/src/auth.rs:42-59 | `session=<id>`, with or without attributes, yields id |
| ClientAuth.LoginTestCookie | client/shared/src/auth.rs:118-141 | the test's `session=sessionid123` yields sessionid123 |
| ClientAuth.HandleLogin | client/shared/src/auth.rs:24-77 | the model and the effects change as the login transition says |
| ClientAuth.HandleLoginOutcome | client/shared/src/auth.rs:30-75 | without a 200 response carrying a session cookie, nothing changes and nothing is requested; otherwise the session is {id, instance}, written under "session", and a render follows |
| ClientAuth.LoginBodyDeterminesCredentials | client/shared/src/auth.rs:20 | without '&' in the usernames, the body determines username and password |
| ClientAuth.LoginBodyIsAmbiguous | client/shared/src/auth.rs:20 | with '&' in a username, two credential pairs give the same body |
| ClientNote.GetNote | client/shared/src/note.rs:8-24 | appends the note request when there is a session, and nothing otherwise |
| ClientNote.DisplayNote | client/shared/src/note.rs:26-44 | the model and the effects change as the display transition says |
| ClientNote.GetNoteCss | client/shared/src/note.rs:46-57 | appends the style-sheet request when there is a session, and nothing otherwise |
| ClientNote.RenderCss | client/shared/src/note.rs:59-70 | the model and the effects change as the style-sheet transition says |
| ClientNote.NoteRequestCarriesSession | client/shared/src/note.rs:14-23 | an html GET of {instance}/{username}/notes/{path} whose one header is exactly `Cookie: session={id}`, resumed by DisplayNote; for an id without ';' the login cookie reader gets the id back |
| ClientNote.NoSessionNoRequest | client/shared/src/note.rs:9-12 | without a session neither fetch requests anything |
| ClientNote.DisplayNoteOutcome | client/shared/src/note.rs:31-43 | the note is the body of a successful response; without one the session is cleared and an empty value written; the style sheet is untouched; a render follows |
| ClientNote.RenderCssOutcome | client/shared/src/note.rs:64-69 | only the style sheet changes, to the response body, and a render follows |
| ClientApp.Update | client/shared/src/app.rs:83-114 | every deliverable event changes the model and the effects as its handler's transition says |
| ClientApp.View | client/shared/src/app.rs:116-123 | the view copies css, note and session; it has a table of contents iff there is a note, and then it is exactly the headings generate_toc collects from the note, equal to the independent reference, one entry per heading opened with levels 1..6 |
| ClientApp.LoginRequestScenario | client/shared/src/auth.rs:88-115 | with no session, Login yields exactly one effect: a plain-text POST to {instance}/api/login with the unencoded form body `username=<u>&password=<p>`, resumed by HandleLogin for that instance; the state stays empty |
| ClientApp.HandleLoginScenario | client/shared/src/auth.rs:117-142 | a 200 answer whose cookie names a session stores that session id for the instance, then writes the session to the key-value store and renders |
| ClientApp.GetNoteScenario | client/shared/src/note.rs:83-143 | with a loaded session, GetNote sends the session cookie to the user's note url, and displaying the answer "<h1>Success</h1>" shows that note verbatim and keeps the session |
| ClientApp.Next | client/shared/src/app.rs:83-114 | only RenderCss changes the style sheet; only Clear and DisplayNote the note; only DisplayNote, HandleLogin and LoadSession the session |
| ClientApp.RenderRequests | client/shared/src/app.rs:85-112 | Clear, both response handlers and LoadSession end with a render; the fetches, login, GetSession and SaveSession never render |
| ClientApp.ClearAndEmptyLoad | client/shared/src/app.rs:85-88 | Clear drops only the note; an empty LoadSession keeps the model; both render |
| ClientApp.GetSessionReads | client/shared/src/app.rs:95 | GetSession asks for a key-value read of "session", resumed by LoadSession, and changes nothing |
| ClientApp.SessionSaveThenLoad | client/shared/src/app.rs:101-106 | after a successful login the first effect writes the session under "session", and loading that stored value restores exactly that session in any model, keeping css and note, then renders (the round trip the test at auth.rs:144-171 relies on) |
| ServerAuth.FirstTokenChar | server/src/auth.rs:85-87 | the leftmost position of a token character, with none before it |
| ServerAuth.RunEnd | server/src/auth.rs:85-87 | a greedy run: all token characters up to a non-token character or the end |
| ServerAuth.ValidateUsername | server/src/auth.rs:82-92 | the name is its own first match of [a-zA-Z0-9_-]+ iff it is non-empty and every character is in that class |
| ServerAuth.UsernameTableRejects | server/src/auth.rs:292-313 | "", " ", "=", "==", "bob " and "bob 123" are rejected |
| ServerAuth.UsernameTableAccepts | server/src/auth.rs:292-313 | "_", "_-", "bob", "123bob", "bob123", "_bob", "bob-" and "-bob_" are accepted |
| ServerAuth.UserFlags | server/src/auth.rs:49-59 | every user is active, and authenticated iff not anonymous |
| ServerAuth.DefaultUser | server/src/auth.rs:28-35 | the default user is an anonymous, unauthenticated "Guest" |
| ServerAuth.SqlUser.IntoUser | server/src/auth.rs:74-79 | a loaded user keeps its stored name and is authenticated, not anonymous |
| ServerAuth.Signup | server/src/auth.rs:97-135 | errors in the order taken name, invalid name, mismatched confirmation, then "Failed to create user" iff the database refuses the insert; success iff all checks pass and the record is created, adding only the new record with the hashed password and redirecting to "/" |
| ServerAuth.SignupKeepsWellFormed | server/src/auth.rs:105-131 | signup keeps every record under its own valid name |
| ServerAuth.Login | server/src/auth.rs:139-163 | errors in the order unknown user, invalid name, wrong password, each iff the earlier checks pass and it fails; success iff all pass, with the stored name and a redirect to that user's index note; with well-formed records the name check never fires |
| ServerAuth.SignupThenLogin | server/src/auth.rs:97-163 | after a successful signup, logging in with the same credentials succeeds, whatever else the table holds |
| ServerAuth.ValidLoginBodyIsUnambiguous | server/src/auth.rs:82-92 | valid usernames have no '&', so the client's unencoded login body is unambiguous for them |
| ServerApi.Utf8Width | server/src/api.rs:63 | a character takes 1 to 4 bytes, and 1 exactly when it is ASCII |
| ServerApi.ReplaceAll | server/src/api.rs:75-79 | replacing by a text of the same length keeps the length |
| ServerApi.RewriteLinks | server/src/api.rs:75-79 | both rewrites, in order, equal splitting at each link prefix and joining with the user's prefix; a note without such links is unchanged |
| ServerApi.FirstOccurrence | server/src/api.rs:75-79 | None iff the pattern does not occur; otherwise its leftmost occurrence |
| ServerApi.ReplaceAllIsSplitJoin | server/src/api.rs:75-79 | the left-to-right replacement equals splitting at the leftmost non-overlapping occurrences and joining with the replacement |
| ServerApi.ReplaceBeforeFirst | server/src/api.rs:75-79 | text before the first occurrence is copied unchanged |
| ServerApi.ReplaceAbsent | server/src/api.rs:75-79 | without an occurrence the text is unchanged |
| ServerApi.JoinSplit | server/src/api.rs:75-79 | joining the pieces with the pattern gives the text back |
| ServerApi.SplitPiecesAvoidSeparator | server/src/api.rs:75-79 | no piece contains the pattern |
| ServerApi.ReplaceByItself | server/src/api.rs:75-79 | replacing a pattern by itself changes nothing |
| ServerApi.NoteFileIsMarkdown | server/src/api.rs:62-73 | the file read always ends in ".md"; a ".md" path is used as is, any other gets "/index.md" |
| ServerApi.GetNoteAsHtml | server/src/api.rs:48-82 | 401 "Authentication required" iff no authenticated user, whatever the path; then a panic iff the path cannot be cut 3 bytes from the end; then "Error reading markdown file" iff the file cannot be read; rendered iff an authenticated user, a path that can be cut and a readable file, and then the html is that user's note file, rewritten and rendered |
| ServerApi.ShortPathPanics | server/src/api.rs:63 | fewer than 3 bytes panics; an ASCII path of 3 or more characters does not |
| ServerApi.TailNeedsBytes | server/src/api.rs:63 | a 3-byte tail needs at least 3 bytes |

## Left out

- The html5ever tokenizer (`app.rs:209-215`, `parser.rs:118-125`) is a parameter. How it splits character runs is not modelled.
- The `HtmlParser` capability, its async plumbing and `parse_html` (`parser.rs:100-133`) are framework wiring around the node sink.
- Serde encoding is not modelled. A stored session is either a session's serialisation or bytes that do not decode (`ClientCore.StoredValue`). The empty value written by `display_note` is modelled as bytes that do not decode.
- `ClientApp.Update` requires that `LoadSession` never carries a `Write` answer. The source marks that case `unreachable!()` (`app.rs:111`).
- HTTP, key-value storage and rendering are not performed. Effects are recorded in order, and their answers arrive as events.
- Header order and the `expect_string` response decoding of crux_http are not modelled.
- Markdown rendering and sanitising (`convert_to_html`, `api.rs:17-44`) is a parameter of `ServerApi.GetNoteAsHtml`.
- The endpoint's file read is a parameter. Reading the auth session and settings from the request context is replaced by the current user and a data directory.
- SurrealDB access and bcrypt are abstracted. A database read error counts as a missing user. bcrypt's `unwrap` panics are not modelled.
- Directory creation in `signup` is not modelled, and neither are the "Pool missing" and "Auth session missing" context errors.
- Logging the user in with the session layer and `logout` are left to the framework. `ServerAuth.Login` returns the user id and the redirect.
- ServerApi.GetNoteAsHtml: paths are `char` sequences. Rust's byte slice `path[len-3..]` is modelled by UTF-8 widths. A panic happens exactly when the last three bytes do not start on a character boundary, which includes fewer than three bytes.
- Leptos components, the server bootstrap, settings loading and the Android/Kotlin shells are outside the core.
