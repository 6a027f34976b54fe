/**
 * The table-of-contents sink of the client core (client/shared/src/app.rs).
 * The sink receives the tokens of a note's HTML one at a time and keeps the
 * ordered list of the headings it has seen. `Step` is what one token does to
 * that list, `Headings` what a whole token stream leaves in it, and `Reference`
 * an independent description of the same list, heading by heading.
 */
module Toc {
  import opened Wrappers
  import opened HtmlTokens

  datatype TocHeading = TocHeading(level: nat, className: Option<string>, id: Option<string>, text: Option<string>)
  {
    /** Records the heading's text; level, class and id are kept. */
    function SetText(t: string): (h: TocHeading)
      ensures h.text == Some(t)
      ensures h.(text := text) == this
    {
      this.(text := Some(t))
    }
  }

  /** The level of a heading tag `h1` to `h6`; None for every other tag name. */
  function HeadingLevel(name: string): (level: Option<nat>)
    ensures level.Some? <==> |name| == 2 && name[0] == 'h' && '1' <= name[1] <= '6'
    ensures level.Some? ==> level.value == name[1] as int - '0' as int
  {
    if name == "h1" then Some(1)
    else if name == "h2" then Some(2)
    else if name == "h3" then Some(3)
    else if name == "h4" then Some(4)
    else if name == "h5" then Some(5)
    else if name == "h6" then Some(6)
    else
      assert |name| == 2 && name[0] == 'h' ==> name == ['h', name[1]];
      None
  }

  /** The value of the first attribute called `name`, kept even when it is empty. */
  function FindAttribute(attrs: seq<Attribute>, name: string): (r: Option<string>)
    ensures r.None? <==> forall i :: 0 <= i < |attrs| ==> attrs[i].name != name
    ensures r.Some? ==>
              exists i :: 0 <= i < |attrs| && attrs[i] == Attribute(name, r.value)
                          && forall j :: 0 <= j < i ==> attrs[j].name != name
  {
    if attrs == [] then None
    else if attrs[0].name == name then
      assert attrs[0] == Attribute(name, attrs[0].value);
      Some(attrs[0].value)
    else
      var r := FindAttribute(attrs[1..], name);
      if r.Some? then
        var i :| 0 <= i < |attrs[1..]| && attrs[1..][i] == Attribute(name, r.value)
                 && forall j :: 0 <= j < i ==> attrs[1..][j].name != name;
        assert attrs[i + 1] == Attribute(name, r.value);
        assert forall j :: 0 <= j < i + 1 ==> attrs[j].name != name by {
          forall j | 0 <= j < i + 1 ensures attrs[j].name != name {
            if j > 0 { assert attrs[j] == attrs[1..][j - 1]; }
          }
        }
        r
      else
        assert forall i :: 1 <= i < |attrs| ==> attrs[i] == attrs[1..][i - 1];
        r
  }

  /** The heading a token opens: only a start tag `h1` to `h6` that is not self-closing opens one. */
  function Opened(t: Token): (h: Option<TocHeading>)
    ensures h.Some? <==> t.StartTag? && !t.selfClosing && HeadingLevel(t.name).Some?
    ensures h.Some? ==> h.value.level == HeadingLevel(t.name).value && 1 <= h.value.level <= 6 && h.value.text.None?
    ensures h.Some? ==> h.value.className == FindAttribute(t.attrs, "class")
                        && h.value.id == FindAttribute(t.attrs, "id")
  {
    match t
    case StartTag(name, attrs, selfClosing) =>
      if !selfClosing && HeadingLevel(name).Some? then
        Some(TocHeading(HeadingLevel(name).value, FindAttribute(attrs, "class"), FindAttribute(attrs, "id"), None))
      else None
    case _ => None
  }

  /**
   * What one token does to the sink's heading list: an opening tag appends its
   * heading, and no token removes, reorders or changes a heading or replaces a
   * text already set.
   */
  function Step(headings: seq<TocHeading>, t: Token): (r: seq<TocHeading>)
    ensures Extends(headings, r)
    ensures |r| == |headings| + (if Opened(t).Some? then 1 else 0)
    ensures Opened(t).Some? ==> r[|headings|] == Opened(t).value
  {
    match t
    case StartTag(_, _, _) =>
      if Opened(t).Some? then headings + [Opened(t).value] else headings
    case CharacterTokens(s) =>
      if headings == [] || headings[|headings| - 1].text.Some? then headings
      else headings[..|headings| - 1] + [headings[|headings| - 1].SetText(s)]
    case _ => headings
  }

  /** The heading list after the tokens `ts`, starting from `headings`. */
  function Fold(headings: seq<TocHeading>, ts: seq<Token>): seq<TocHeading>
    decreases |ts|
  {
    if ts == [] then headings else Fold(Step(headings, ts[0]), ts[1..])
  }

  /** The heading list a whole token stream leaves in a fresh sink. */
  function Headings(ts: seq<Token>): seq<TocHeading>
  {
    Fold([], ts)
  }

  /** The headings the stream opens, in order, each still without text. */
  function Openings(ts: seq<Token>): seq<TocHeading>
  {
    if ts == [] then []
    else (if Opened(ts[0]).Some? then [Opened(ts[0]).value] else []) + Openings(ts[1..])
  }

  /** The first character run of `ts` that comes before the next heading opens. */
  function FirstRun(ts: seq<Token>): Option<string>
  {
    if ts == [] || Opened(ts[0]).Some? then None
    else if ts[0].CharacterTokens? then Some(ts[0].text)
    else FirstRun(ts[1..])
  }

  /**
   * Reference description of the table of contents: one entry per opening tag,
   * in document order, whose text is the first run after the tag and before the
   * next heading, however many other tags come between.
   */
  function Reference(ts: seq<Token>): seq<TocHeading>
  {
    if ts == [] then []
    else if Opened(ts[0]).Some? then [Opened(ts[0]).value.(text := FirstRun(ts[1..]))] + Reference(ts[1..])
    else Reference(ts[1..])
  }

  /** Gives the last heading the text `run` when it has none yet. */
  function Settle(headings: seq<TocHeading>, run: Option<string>): seq<TocHeading>
  {
    if run.Some? && headings != [] && headings[|headings| - 1].text.None? then
      headings[..|headings| - 1] + [headings[|headings| - 1].SetText(run.value)]
    else headings
  }

  /** `after` keeps every heading of `before` at its place, and every text already set. */
  ghost predicate Extends(before: seq<TocHeading>, after: seq<TocHeading>)
  {
    && |before| <= |after|
    && forall k :: 0 <= k < |before| ==>
         && after[k].(text := None) == before[k].(text := None)
         && (before[k].text.Some? ==> after[k].text == before[k].text)
  }

  /** The sink of app.rs: its list grows by `ProcessToken` as `Step` says. */
  class TocSink {
    var headings: seq<TocHeading>

    constructor ()
      ensures headings == []
    {
      headings := [];
    }

    method ProcessToken(token: Token) returns (r: SinkResult)
      modifies this
      ensures headings == Step(old(headings), token)
      ensures r == Continue
    {
      match token {
        case StartTag(name, attrs, selfClosing) =>
          if !selfClosing {
            var level := HeadingLevel(name);
            if level.Some? {
              var className := FindAttribute(attrs, "class");
              var id := FindAttribute(attrs, "id");
              headings := headings + [TocHeading(level.value, className, id, None)];
            }
          }
        case CharacterTokens(s) =>
          if |headings| > 0 {
            var last := headings[|headings| - 1];
            if last.text.Some? {
              return Continue;
            }
            headings := headings[..|headings| - 1] + [last.SetText(s)];
          }
        case EndTag(_) =>
        case Other =>
      }
      r := Continue;
    }
  }

  /**
   * generate_toc: runs a fresh sink over the tokens of `html`. The tokenizer is
   * the parameter `tokenize`; the result is always Ok.
   */
  method GenerateToc(html: string, tokenize: string -> seq<Token>) returns (r: Result<seq<TocHeading>, string>)
    ensures r == Ok(Headings(tokenize(html)))
  {
    var sink := new TocSink();
    var tokens := tokenize(html);
    var i := 0;
    while i < |tokens|
      invariant 0 <= i <= |tokens|
      invariant sink.headings == Headings(tokens[..i])
    {
      var _ := sink.ProcessToken(tokens[i]);
      FoldAppend([], tokens[..i], [tokens[i]]);
      assert tokens[..i + 1] == tokens[..i] + [tokens[i]];
      i := i + 1;
    }
    assert tokens[..|tokens|] == tokens;
    r := Ok(sink.headings);
  }

  lemma {:induction false} FoldAppend(headings: seq<TocHeading>, ts: seq<Token>, us: seq<Token>)
    ensures Fold(headings, ts + us) == Fold(Fold(headings, ts), us)
    decreases |ts|
  {
    if ts == [] {
      assert ts + us == us;
    } else {
      assert (ts + us)[1..] == ts[1..] + us;
      FoldAppend(Step(headings, ts[0]), ts[1..], us);
    }
  }

  /** The sink's list after `ts` is the reference list, settled by the first run of `ts`. */
  lemma {:induction false} FoldMatchesReference(headings: seq<TocHeading>, ts: seq<Token>)
    ensures Fold(headings, ts) == Settle(headings, FirstRun(ts)) + Reference(ts)
    decreases |ts|
  {
    if ts != [] {
      var t, rest := ts[0], ts[1..];
      FoldMatchesReference(Step(headings, t), rest);
      if Opened(t).Some? {
        SettleOpened(headings, t, FirstRun(rest));
      } else if t.CharacterTokens? {
        SettleRun(headings, t, FirstRun(rest));
      }
    }
  }

  lemma SettleOpened(headings: seq<TocHeading>, t: Token, run: Option<string>)
    requires Opened(t).Some?
    ensures Settle(Step(headings, t), run) == headings + [Opened(t).value.(text := run)]
  {
    var h := Opened(t).value;
    assert Step(headings, t) == headings + [h];
    assert (headings + [h])[..|headings|] == headings;
  }

  lemma SettleRun(headings: seq<TocHeading>, t: Token, run: Option<string>)
    requires t.CharacterTokens?
    ensures Step(headings, t) == Settle(headings, Some(t.text))
    ensures Settle(Step(headings, t), run) == Step(headings, t)
  {
  }

  /** The sink computes the reference table of contents. */
  lemma HeadingsMatchReference(ts: seq<Token>)
    ensures Headings(ts) == Reference(ts)
  {
    FoldMatchesReference([], ts);
  }

  lemma {:induction false} ReferenceFollowsOpenings(ts: seq<Token>)
    ensures |Reference(ts)| == |Openings(ts)|
    ensures forall k :: 0 <= k < |Reference(ts)| ==> Reference(ts)[k].(text := None) == Openings(ts)[k]
  {
    if ts != [] {
      var rest := ts[1..];
      ReferenceFollowsOpenings(rest);
      if Opened(ts[0]).Some? {
        var h := Opened(ts[0]).value;
        assert Reference(ts) == [h.(text := FirstRun(rest))] + Reference(rest);
        assert Openings(ts) == [h] + Openings(rest);
        assert h.(text := FirstRun(rest)).(text := None) == h;
      } else {
        assert Reference(ts) == Reference(rest);
        assert Openings(ts) == Openings(rest);
      }
    }
  }

  lemma {:induction false} ReferenceTextsOccur(ts: seq<Token>)
    ensures forall h :: h in Reference(ts) && h.text.Some? ==> CharacterTokens(h.text.value) in ts
  {
    if ts != [] {
      var rest := ts[1..];
      ReferenceTextsOccur(rest);
      FirstRunOccurs(rest);
      assert forall t :: t in rest ==> t in ts;
    }
  }

  lemma {:induction false} FirstRunOccurs(ts: seq<Token>)
    ensures FirstRun(ts).Some? ==> CharacterTokens(FirstRun(ts).value) in ts
  {
    if ts != [] && Opened(ts[0]).None? && !ts[0].CharacterTokens? {
      FirstRunOccurs(ts[1..]);
    }
  }

  /**
   * One heading per opening tag, in document order, with the tag's level (1 to 6),
   * class and id; a recorded text is always one of the stream's character runs.
   */
  lemma HeadingsFollowOpenings(ts: seq<Token>)
    ensures |Headings(ts)| == |Openings(ts)|
    ensures forall k :: 0 <= k < |Headings(ts)| ==> Headings(ts)[k].(text := None) == Openings(ts)[k]
    ensures forall h :: h in Headings(ts) ==> 1 <= h.level <= 6
    ensures forall h :: h in Headings(ts) && h.text.Some? ==> CharacterTokens(h.text.value) in ts
  {
    HeadingsMatchReference(ts);
    ReferenceFollowsOpenings(ts);
    ReferenceTextsOccur(ts);
    OpeningsLevels(ts);
    forall h | h in Headings(ts) ensures 1 <= h.level <= 6 {
      var k :| 0 <= k < |Headings(ts)| && Headings(ts)[k] == h;
      assert h.level == Openings(ts)[k].level;
    }
  }

  lemma {:induction false} OpeningsLevels(ts: seq<Token>)
    ensures forall h :: h in Openings(ts) ==> 1 <= h.level <= 6 && h.text.None?
  {
    if ts != [] {
      OpeningsLevels(ts[1..]);
    }
  }

  lemma {:induction false} FoldExtends(headings: seq<TocHeading>, ts: seq<Token>)
    ensures Extends(headings, Fold(headings, ts))
    decreases |ts|
  {
    if ts != [] {
      FoldExtends(Step(headings, ts[0]), ts[1..]);
    }
  }

  /**
   * Headings are only appended: more tokens never remove, reorder or change a
   * heading, and never replace a text once it is set.
   */
  lemma HeadingsOnlyGrow(ts: seq<Token>, us: seq<Token>)
    ensures Extends(Headings(ts), Headings(ts + us))
  {
    FoldAppend([], ts, us);
    FoldExtends(Headings(ts), us);
  }

  /** Which of two differently named attributes comes first does not change a lookup. */
  lemma {:induction false} FindAttributeIgnoresOrder(pre: seq<Attribute>, x: Attribute, y: Attribute, post: seq<Attribute>, name: string)
    requires x.name != y.name
    ensures FindAttribute(pre + [x, y] + post, name) == FindAttribute(pre + [y, x] + post, name)
  {
    if pre == [] {
      assert (pre + [x, y] + post)[1..][1..] == post;
      assert (pre + [y, x] + post)[1..][1..] == post;
    } else {
      assert (pre + [x, y] + post)[1..] == pre[1..] + [x, y] + post;
      assert (pre + [y, x] + post)[1..] == pre[1..] + [y, x] + post;
      FindAttributeIgnoresOrder(pre[1..], x, y, post, name);
    }
  }

  /** `<h1 id="test" class="class">` and `<h1 class="class" id="test">` give the same entry. */
  lemma AttributeOrderScenario()
    ensures var idFirst := [StartTag("h1", [Attribute("id", "test"), Attribute("class", "class")], false), EndTag("h1")];
            var classFirst := [StartTag("h1", [Attribute("class", "class"), Attribute("id", "test")], false), EndTag("h1")];
            Headings(idFirst) == Headings(classFirst) == [TocHeading(1, Some("class"), Some("test"), None)]
  {
  }

  /** A heading followed by two runs, with another tag between them, keeps the first. */
  lemma FirstRunScenario()
    ensures Headings([StartTag("h2", [], false), CharacterTokens("a"), StartTag("em", [], false), CharacterTokens("b")])
            == [TocHeading(2, None, None, Some("a"))]
  {
  }

  /** An empty run is kept as the text; the heading is not dropped. */
  lemma EmptyRunScenario()
    ensures Headings([StartTag("h3", [], false), CharacterTokens(""), CharacterTokens("late")])
            == [TocHeading(3, None, None, Some(""))]
  {
  }

  /** A self-closing heading tag opens nothing. */
  lemma SelfClosingScenario()
    ensures Headings([StartTag("h1", [], true), CharacterTokens("x")]) == []
  {
  }
}
