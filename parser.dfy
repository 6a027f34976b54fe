/**
 * The structural node sink of the client core (client/shared/src/parser.rs).
 * It keeps the block elements `h1` to `h6` and `p` of a token stream with the
 * text that follows each one. Unlike the table-of-contents sink it can drop a
 * node: an empty run arriving after the last node already has a body pops it.
 */
module Parser {
  import opened Wrappers
  import opened HtmlTokens

  datatype HtmlNode = HtmlNode(tag: string, body: Option<string>)

  /** The tag names the sink keeps. */
  const BlockTags: set<string> := {"h1", "h2", "h3", "h4", "h5", "h6", "p"}

  /** The tag string recorded for a start tag's name, or None when the sink ignores that tag. */
  function NodeTag(name: string): (tag: Option<string>)
    ensures tag.Some? <==> name in BlockTags
    ensures tag.Some? ==> tag.value == name
  {
    if name == "h1" then Some("h1")
    else if name == "h2" then Some("h2")
    else if name == "h3" then Some("h3")
    else if name == "h4" then Some("h4")
    else if name == "h5" then Some("h5")
    else if name == "h6" then Some("h6")
    else if name == "p" then Some("p")
    else None
  }

  /** The tag a token opens a node for: a start tag in BlockTags that is not self-closing. */
  function OpenedTag(t: Token): Option<string>
  {
    if t.StartTag? && !t.selfClosing then NodeTag(t.name) else None
  }

  /**
   * What one token does to the sink's node list: only the last node can change
   * or go, a node is appended exactly for an opening tag, and a node is popped
   * exactly for an empty run after the last node already has a body. A run,
   * even an empty one, becomes the last node's body when it has none; any other
   * run, and every token that opens nothing, leaves the list as it is.
   */
  function Step(nodes: seq<HtmlNode>, t: Token): (r: seq<HtmlNode>)
    ensures |nodes| - 1 <= |r| <= |nodes| + 1
    ensures forall k :: 0 <= k < |nodes| - 1 ==> r[k] == nodes[k]
    ensures |r| == |nodes| + 1 <==> OpenedTag(t).Some?
    ensures |r| == |nodes| + 1 ==> r == nodes + [HtmlNode(OpenedTag(t).value, None)]
    ensures |r| < |nodes| <==> t == CharacterTokens("") && nodes != [] && nodes[|nodes| - 1].body.Some?
    ensures t.CharacterTokens? && nodes != [] && nodes[|nodes| - 1].body.None? ==>
              r == nodes[..|nodes| - 1] + [nodes[|nodes| - 1].(body := Some(t.text))]
    ensures t.CharacterTokens? && t.text != "" && nodes != [] && nodes[|nodes| - 1].body.Some? ==> r == nodes
    ensures t.CharacterTokens? && nodes == [] ==> r == nodes
    ensures !t.CharacterTokens? && OpenedTag(t).None? ==> r == nodes
  {
    match t
    case StartTag(_, _, _) =>
      if OpenedTag(t).Some? then nodes + [HtmlNode(OpenedTag(t).value, None)] else nodes
    case CharacterTokens(s) =>
      if nodes == [] then nodes
      else if nodes[|nodes| - 1].body.Some? then
        (if s == "" then nodes[..|nodes| - 1] else nodes)
      else nodes[..|nodes| - 1] + [nodes[|nodes| - 1].(body := Some(s))]
    case _ => nodes
  }

  /** The node list after the tokens `ts`, starting from `nodes`. */
  function Fold(nodes: seq<HtmlNode>, ts: seq<Token>): seq<HtmlNode>
    decreases |ts|
  {
    if ts == [] then nodes else Fold(Step(nodes, ts[0]), ts[1..])
  }

  /** The node list a whole token stream leaves in a fresh sink. */
  function Nodes(ts: seq<Token>): seq<HtmlNode>
  {
    Fold([], ts)
  }

  /** The tags of the nodes, in order. */
  function Tags(nodes: seq<HtmlNode>): (tags: seq<string>)
    ensures |tags| == |nodes|
  {
    if nodes == [] then [] else Tags(nodes[..|nodes| - 1]) + [nodes[|nodes| - 1].tag]
  }

  /** The tags the stream opens nodes for, in document order. */
  function OpenedTags(ts: seq<Token>): seq<string>
  {
    if ts == [] then []
    else (if OpenedTag(ts[0]).Some? then [OpenedTag(ts[0]).value] else []) + OpenedTags(ts[1..])
  }

  /** `a` is a subsequence of `b`: `b` with some elements left out. */
  predicate IsSubsequence<T(==)>(a: seq<T>, b: seq<T>)
    decreases |b|
  {
    if a == [] then true
    else if b == [] then false
    else if a[|a| - 1] == b[|b| - 1] then IsSubsequence(a[..|a| - 1], b[..|b| - 1])
    else IsSubsequence(a, b[..|b| - 1])
  }

  /** The sink of parser.rs, updated in place by `ProcessToken`. */
  class HtmlParseResult {
    var nodes: seq<HtmlNode>

    constructor ()
      ensures nodes == []
    {
      nodes := [];
    }

    method ProcessToken(token: Token) returns (r: SinkResult)
      modifies this
      ensures nodes == Step(old(nodes), token)
      ensures r == Continue
    {
      match token {
        case StartTag(name, _, selfClosing) =>
          if !selfClosing {
            var tag := NodeTag(name);
            if tag.Some? {
              nodes := nodes + [HtmlNode(tag.value, None)];
            }
          }
        case CharacterTokens(s) =>
          if |nodes| > 0 {
            var node := nodes[|nodes| - 1];
            if node.body.Some? {
              if s == "" {
                nodes := nodes[..|nodes| - 1];
              }
              return Continue;
            }
            nodes := nodes[..|nodes| - 1] + [node.(body := Some(s))];
          }
        case EndTag(_) =>
        case Other =>
      }
      r := Continue;
    }
  }

  lemma {:induction false} SubsequenceLength<T>(a: seq<T>, b: seq<T>)
    requires IsSubsequence(a, b)
    ensures |a| <= |b|
    decreases |b|
  {
    if a != [] {
      if a[|a| - 1] == b[|b| - 1] {
        SubsequenceLength(a[..|a| - 1], b[..|b| - 1]);
      } else {
        SubsequenceLength(a, b[..|b| - 1]);
      }
    }
  }

  lemma {:induction false} SubsequenceOfLonger<T>(a: seq<T>, b: seq<T>, x: T)
    requires IsSubsequence(a, b)
    ensures IsSubsequence(a, b + [x])
    decreases |b|, 1
  {
    assert (b + [x])[..|b|] == b;
    if a != [] && a[|a| - 1] == x {
      SubsequenceDropLast(a, b);
    }
  }

  lemma {:induction false} SubsequenceDropLast<T>(a: seq<T>, b: seq<T>)
    requires IsSubsequence(a, b) && a != []
    ensures IsSubsequence(a[..|a| - 1], b)
    decreases |b|, 0
  {
    var b' := b[..|b| - 1];
    assert b == b' + [b[|b| - 1]];
    if a[|a| - 1] == b[|b| - 1] {
      SubsequenceOfLonger(a[..|a| - 1], b', b[|b| - 1]);
    } else {
      SubsequenceDropLast(a, b');
      SubsequenceOfLonger(a[..|a| - 1], b', b[|b| - 1]);
    }
  }

  lemma SubsequenceSnoc<T>(a: seq<T>, b: seq<T>, x: T)
    requires IsSubsequence(a, b)
    ensures IsSubsequence(a + [x], b + [x])
  {
    assert (a + [x])[..|a|] == a;
    assert (b + [x])[..|b|] == b;
  }

  /** One token keeps the node tags a subsequence of the tags opened so far. */
  lemma StepKeepsSubsequence(nodes: seq<HtmlNode>, seen: seq<string>, t: Token)
    requires IsSubsequence(Tags(nodes), seen)
    ensures IsSubsequence(Tags(Step(nodes, t)), seen + (if OpenedTag(t).Some? then [OpenedTag(t).value] else []))
  {
    var next := Step(nodes, t);
    if OpenedTag(t).Some? {
      assert next[..|next| - 1] == nodes;
      assert Tags(next) == Tags(nodes) + [OpenedTag(t).value];
      SubsequenceSnoc(Tags(nodes), seen, OpenedTag(t).value);
    } else {
      assert seen + [] == seen;
      if t.CharacterTokens? && nodes != [] {
        var n := |nodes|;
        if nodes[n - 1].body.Some? && t.text == "" {
          assert Tags(nodes) == Tags(nodes[..n - 1]) + [nodes[n - 1].tag];
          assert Tags(nodes)[..n - 1] == Tags(nodes[..n - 1]);
          SubsequenceDropLast(Tags(nodes), seen);
        } else if nodes[n - 1].body.None? {
          assert next[..n - 1] == nodes[..n - 1];
          assert Tags(next) == Tags(nodes);
        }
      }
    }
  }

  /**
   * After any tokens, the tags of the node list are a subsequence of the tags
   * opened since the start: no node is invented or reordered, only dropped.
   */
  lemma {:induction false} FoldKeepsSubsequence(nodes: seq<HtmlNode>, seen: seq<string>, ts: seq<Token>)
    requires IsSubsequence(Tags(nodes), seen)
    ensures IsSubsequence(Tags(Fold(nodes, ts)), seen + OpenedTags(ts))
    decreases |ts|
  {
    if ts == [] {
      assert seen + OpenedTags(ts) == seen;
    } else {
      var t := ts[0];
      var seen' := seen + (if OpenedTag(t).Some? then [OpenedTag(t).value] else []);
      StepKeepsSubsequence(nodes, seen, t);
      SeenThenRest(seen, ts);
      FoldKeepsSubsequence(Step(nodes, t), seen', ts[1..]);
    }
  }

  lemma SeenThenRest(seen: seq<string>, ts: seq<Token>)
    requires ts != []
    ensures seen + OpenedTags(ts) == seen + (if OpenedTag(ts[0]).Some? then [OpenedTag(ts[0]).value] else []) + OpenedTags(ts[1..])
  {
  }

  /**
   * The nodes are the block tags the stream opened, in document order, with some
   * left out; so there are never more nodes than qualifying start tags, and every
   * node's tag is one of h1 to h6 and p.
   */
  lemma NodesFollowOpenings(ts: seq<Token>)
    ensures IsSubsequence(Tags(Nodes(ts)), OpenedTags(ts))
    ensures |Nodes(ts)| <= |OpenedTags(ts)|
    ensures forall n :: n in Nodes(ts) ==> n.tag in BlockTags
  {
    FoldKeepsSubsequence([], [], ts);
    assert [] + OpenedTags(ts) == OpenedTags(ts);
    SubsequenceLength(Tags(Nodes(ts)), OpenedTags(ts));
    OpenedTagsAreBlockTags(ts);
    SubsequenceElements(Tags(Nodes(ts)), OpenedTags(ts));
    forall n | n in Nodes(ts) ensures n.tag in BlockTags {
      var k :| 0 <= k < |Nodes(ts)| && Nodes(ts)[k] == n;
      TagsAt(Nodes(ts), k);
    }
  }

  lemma {:induction false} TagsAt(nodes: seq<HtmlNode>, k: nat)
    requires k < |nodes|
    ensures Tags(nodes)[k] == nodes[k].tag
    decreases |nodes|
  {
    if k < |nodes| - 1 {
      TagsAt(nodes[..|nodes| - 1], k);
    }
  }

  lemma {:induction false} OpenedTagsAreBlockTags(ts: seq<Token>)
    ensures forall tag :: tag in OpenedTags(ts) ==> tag in BlockTags
  {
    if ts != [] {
      OpenedTagsAreBlockTags(ts[1..]);
    }
  }

  lemma {:induction false} SubsequenceElements<T>(a: seq<T>, b: seq<T>)
    requires IsSubsequence(a, b)
    ensures forall x :: x in a ==> x in b
    decreases |b|
  {
    if a != [] {
      var b' := b[..|b| - 1];
      assert b == b' + [b[|b| - 1]];
      if a[|a| - 1] == b[|b| - 1] {
        SubsequenceElements(a[..|a| - 1], b');
        assert a == a[..|a| - 1] + [a[|a| - 1]];
      } else {
        SubsequenceElements(a, b');
      }
    }
  }

  /** Every body in `nodes` is the text of a character run of `ts`. */
  ghost predicate BodiesFrom(nodes: seq<HtmlNode>, ts: seq<Token>)
  {
    forall n :: n in nodes && n.body.Some? ==> CharacterTokens(n.body.value) in ts
  }

  lemma StepKeepsBodies(nodes: seq<HtmlNode>, t: Token, ts: seq<Token>)
    requires BodiesFrom(nodes, ts) && t in ts
    ensures BodiesFrom(Step(nodes, t), ts)
  {
    if t.CharacterTokens? && nodes != [] {
      assert forall n :: n in nodes[..|nodes| - 1] ==> n in nodes;
    }
  }

  lemma {:induction false} FoldKeepsBodies(nodes: seq<HtmlNode>, us: seq<Token>, ts: seq<Token>)
    requires BodiesFrom(nodes, ts) && forall t :: t in us ==> t in ts
    ensures BodiesFrom(Fold(nodes, us), ts)
    decreases |us|
  {
    if us != [] {
      StepKeepsBodies(nodes, us[0], ts);
      assert forall t :: t in us[1..] ==> t in us;
      FoldKeepsBodies(Step(nodes, us[0]), us[1..], ts);
    }
  }

  /** A node's body, once set, is verbatim one of the stream's character runs, possibly empty. */
  lemma NodeBodiesOccur(ts: seq<Token>)
    ensures forall n :: n in Nodes(ts) && n.body.Some? ==> CharacterTokens(n.body.value) in ts
  {
    FoldKeepsBodies([], ts, ts);
  }

  /** An empty run after a run pops the node; the first run, even an empty one, becomes the body. */
  lemma PopScenarios()
    ensures Nodes([StartTag("h1", [], false), CharacterTokens("a"), CharacterTokens("")]) == []
    ensures Nodes([StartTag("p", [], false), CharacterTokens("")]) == [HtmlNode("p", Some(""))]
    ensures Nodes([StartTag("p", [], false), CharacterTokens("a"), CharacterTokens("b")]) == [HtmlNode("p", Some("a"))]
  {
  }
}
