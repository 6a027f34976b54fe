/**
 * The note endpoint of the server (server/src/api.rs, `get_note_as_html`): the
 * authentication gate, the choice of the markdown file for a note path, and the
 * rewriting of resource links to the user's own directory. The file system and
 * the markdown renderer are function parameters.
 */
module ServerApi {
  import opened Wrappers
  import ServerAuth

  /** The number of bytes UTF-8 uses for `c`. */
  function Utf8Width(c: char): (w: nat)
    ensures 1 <= w <= 4
    ensures w == 1 <==> c as int < 0x80
  {
    if c as int < 0x80 then 1 else if c as int < 0x800 then 2 else if c as int < 0x1_0000 then 3 else 4
  }

  /**
   * `s` ends with characters whose UTF-8 encoding takes exactly `k` bytes, so a
   * byte slice `k` bytes from the end falls on a character boundary.
   */
  predicate TailIsBytes(s: string, k: nat)
    decreases |s|
  {
    if k == 0 then true
    else if s == [] then false
    else Utf8Width(s[|s| - 1]) <= k && TailIsBytes(s[..|s| - 1], k - Utf8Width(s[|s| - 1]))
  }

  predicate EndsWith(s: string, suffix: string)
  {
    |suffix| <= |s| && s[|s| - |suffix|..] == suffix
  }

  /** The suffix added to a note path: none for a markdown file, "/index.md" for anything else. */
  function Extension(path: string): string
  {
    if EndsWith(path, ".md") then "" else "/index.md"
  }

  /** The markdown file a user's note path names. */
  function NoteFile(dataDir: string, username: string, path: string): string
  {
    dataDir + "/" + username + "/notes/" + path + Extension(path)
  }

  /** Whether `s[i..]` starts with `p`. */
  predicate OccursAt(s: string, p: string, i: nat)
  {
    i + |p| <= |s| && s[i..i + |p|] == p
  }

  /** `i` is the leftmost occurrence of `p` in `s`. */
  ghost predicate FirstAt(s: string, p: string, i: nat)
  {
    OccursAt(s, p, i) && forall j: nat :: j < i ==> !OccursAt(s, p, j)
  }

  /** `s` has an occurrence of `p` anywhere. */
  ghost predicate Contains(s: string, p: string)
  {
    exists i: nat :: OccursAt(s, p, i)
  }

  /** The start of the leftmost occurrence of `p` in `s`. */
  function FirstOccurrence(s: string, p: string): (r: Option<nat>)
    requires |p| > 0
    ensures r.None? <==> !Contains(s, p)
    ensures r.Some? ==> OccursAt(s, p, r.value) && forall j: nat :: j < r.value ==> !OccursAt(s, p, j)
    decreases |s|
  {
    if |s| < |p| then
      assert forall j: nat :: !OccursAt(s, p, j);
      None
    else if s[..|p|] == p then
      assert OccursAt(s, p, 0);
      Some(0)
    else
      var r := FirstOccurrence(s[1..], p);
      ShiftOccurrences(s, p);
      assert !OccursAt(s, p, 0);
      assert forall j: nat :: OccursAt(s, p, j) ==> j > 0 && OccursAt(s[1..], p, j - 1);
      if r.None? then None else Some(r.value + 1)
  }

  /** `str::replace`: every leftmost, non-overlapping occurrence of `from` becomes `to`, scanning left to right. */
  function ReplaceAll(s: string, from: string, to: string): (r: string)
    requires |from| > 0
    ensures |from| == |to| ==> |r| == |s|
    decreases |s|
  {
    if |s| < |from| then s
    else if s[..|from|] == from then to + ReplaceAll(s[|from|..], from, to)
    else [s[0]] + ReplaceAll(s[1..], from, to)
  }

  /** The pieces of `s` between the leftmost non-overlapping occurrences of `p`. */
  function Split(s: string, p: string): (pieces: seq<string>)
    requires |p| > 0
    ensures |pieces| > 0
    decreases |s|
  {
    match FirstOccurrence(s, p)
    case None => [s]
    case Some(i) => [s[..i]] + Split(s[i + |p|..], p)
  }

  /** The pieces glued together with `sep` between neighbours. */
  function Join(pieces: seq<string>, sep: string): string
    requires |pieces| > 0
  {
    if |pieces| == 1 then pieces[0] else pieces[0] + sep + Join(pieces[1..], sep)
  }

  /**
   * The two link rewrites of the endpoint, in the source's order: markdown links
   * and then `src` attributes into /resources are moved under the user's
   * directory. A note without such links comes back unchanged.
   */
  function RewriteLinks(markdown: string, username: string): (r: string)
    ensures r == Join(Split(Join(Split(markdown, "](/resources"), "](/" + username + "/resources"),
                            "src=\"/resources"), "src=\"/" + username + "/resources")
    ensures !Contains(markdown, "](/resources") && !Contains(markdown, "src=\"/resources") ==> r == markdown
  {
    var md := ReplaceAll(markdown, "](/resources", "](/" + username + "/resources");
    ReplaceAllIsSplitJoin(markdown, "](/resources", "](/" + username + "/resources");
    ReplaceAllIsSplitJoin(md, "src=\"/resources", "src=\"/" + username + "/resources");
    ReplaceAbsentIf(markdown, "](/resources", "](/" + username + "/resources");
    ReplaceAbsentIf(md, "src=\"/resources", "src=\"/" + username + "/resources");
    ReplaceAll(md, "src=\"/resources", "src=\"/" + username + "/resources")
  }

  /**
   * The endpoint's answer: the rendered note, an error with the status the
   * endpoint sets (none when it leaves the default), or a panic.
   */
  datatype NoteOutcome = Rendered(html: string) | Failed(status: Option<nat>, message: string) | Panicked

  const AuthenticationRequired: string := "Authentication required"
  const ErrorReadingMarkdown: string := "Error reading markdown file"

  /**
   * `get_note_as_html` for the request's current user. `read` gives a file's
   * text or None when it cannot be read, and `render` is the markdown renderer
   * and sanitiser. The outcomes in order: without an authenticated user it
   * answers 401 whatever the path; otherwise a path that cannot be cut three
   * bytes from the end (fewer than three bytes, or a cut inside a character)
   * panics; otherwise the user's note file is read, a read failure is reported,
   * and a readable file is rendered after the link rewrites.
   */
  function GetNoteAsHtml(current: Option<ServerAuth.User>, dataDir: string, path: string,
                         read: string -> Option<string>, render: string -> string): (r: NoteOutcome)
    ensures r == Failed(Some(401), AuthenticationRequired) <==> current.None? || current.value.anonymous
    ensures r.Panicked? <==> current.Some? && !current.value.anonymous && !TailIsBytes(path, 3)
    ensures r.Rendered? <==> current.Some? && !current.value.anonymous && TailIsBytes(path, 3)
                             && read(NoteFile(dataDir, current.value.username, path)).Some?
    ensures r.Rendered? ==> var u := current.value.username;
                            var file := dataDir + "/" + u + "/notes/" + path + Extension(path);
                            read(file).Some? && r.html == render(RewriteLinks(read(file).value, u))
    ensures r == Failed(None, ErrorReadingMarkdown) <==>
              current.Some? && !current.value.anonymous && TailIsBytes(path, 3)
              && read(NoteFile(dataDir, current.value.username, path)).None?
  {
    if current.None? || !current.value.IsAuthenticated() then Failed(Some(401), AuthenticationRequired)
    else if !TailIsBytes(path, 3) then Panicked
    else
      var username := current.value.username;
      match read(NoteFile(dataDir, username, path))
      case None => Failed(None, ErrorReadingMarkdown)
      case Some(markdown) => Rendered(render(RewriteLinks(markdown, username)))
  }

  lemma ReplaceAbsentIf(s: string, from: string, to: string)
    requires |from| > 0
    ensures !Contains(s, from) ==> ReplaceAll(s, from, to) == s
  {
    if !Contains(s, from) {
      ReplaceAbsent(s, from, to);
    }
  }

  /** Without an occurrence of `from`, replacing leaves the text as it is. */
  lemma {:induction false} ReplaceAbsent(s: string, from: string, to: string)
    requires |from| > 0 && !Contains(s, from)
    ensures ReplaceAll(s, from, to) == s
    decreases |s|
  {
    if |s| >= |from| {
      assert !OccursAt(s, from, 0);
      assert s[..|from|] != from;
      ShiftOccurrences(s, from);
      ReplaceAbsent(s[1..], from, to);
    }
  }

  /** Occurrences in `s[1..]` are the occurrences in `s` after position 0. */
  lemma ShiftOccurrences(s: string, p: string)
    requires |s| > 0
    ensures forall j: nat :: OccursAt(s[1..], p, j) <==> OccursAt(s, p, j + 1)
  {
    forall j: nat ensures OccursAt(s[1..], p, j) <==> OccursAt(s, p, j + 1) {
      if j + 1 + |p| <= |s| {
        DropThenSlice(s, j, |p|);
      }
    }
  }

  lemma DropThenSlice(s: string, j: nat, n: nat)
    requires j + 1 + n <= |s|
    ensures s[1..][j..j + n] == s[j + 1..j + 1 + n]
  {
    var a, b := s[1..][j..j + n], s[j + 1..j + 1 + n];
    assert |a| == n == |b|;
    forall k | 0 <= k < n ensures a[k] == b[k] {
      assert a[k] == s[1..][j + k] == s[j + 1 + k];
    }
  }

  /**
   * The left-to-right scan of `str::replace` agrees with the reference
   * definition: split at the leftmost non-overlapping occurrences, then join
   * with the replacement.
   */
  lemma {:induction false} ReplaceAllIsSplitJoin(s: string, from: string, to: string)
    requires |from| > 0
    ensures ReplaceAll(s, from, to) == Join(Split(s, from), to)
    decreases |s|
  {
    match FirstOccurrence(s, from)
    case None =>
      ReplaceAbsent(s, from, to);
    case Some(i) =>
      ReplaceAllIsSplitJoin(s[i + |from|..], from, to);
      ReplaceBeforeFirst(s, from, to, i);
      SplitAt(s, from, i);
  }

  /** Up to the first occurrence at `i`, the scan copies the text unchanged. */
  lemma {:induction false} ReplaceBeforeFirst(s: string, from: string, to: string, i: nat)
    requires |from| > 0
    requires FirstAt(s, from, i)
    ensures ReplaceAll(s, from, to) == s[..i] + to + ReplaceAll(s[i + |from|..], from, to)
    decreases i
  {
    if i == 0 {
      ReplaceAtStart(s, from, to);
    } else {
      FirstOccurrenceLater(s, from, to, i);
      ReplaceBeforeFirst(s[1..], from, to, i - 1);
      ScanStep(s, from, to, i);
    }
  }

  /** An occurrence at the start is replaced at once. */
  lemma ReplaceAtStart(s: string, from: string, to: string)
    requires |from| > 0 && OccursAt(s, from, 0)
    ensures ReplaceAll(s, from, to) == s[..0] + to + ReplaceAll(s[|from|..], from, to)
  {
    assert s[..|from|] == from;
    assert s[..0] + to == to;
  }

  /** The scan's result for `s` from its result for the tail, when the head is copied. */
  lemma ScanStep(s: string, from: string, to: string, i: nat)
    requires |from| > 0 && 0 < i && i + |from| <= |s|
    requires ReplaceAll(s, from, to) == [s[0]] + ReplaceAll(s[1..], from, to)
    requires ReplaceAll(s[1..], from, to) == s[1..][..i - 1] + to + ReplaceAll(s[1..][i - 1 + |from|..], from, to)
    ensures ReplaceAll(s, from, to) == s[..i] + to + ReplaceAll(s[i + |from|..], from, to)
  {
    HeadAndTail(s, i, |from|);
    TailsAgree(s, from, to, i);
    Regroup(ReplaceAll(s, from, to), s[..i], [s[0]], s[1..][..i - 1], to, ReplaceAll(s[i + |from|..], from, to));
  }

  /** An occurrence first found after the start is found one earlier in the tail, and the scan copies the head. */
  lemma FirstOccurrenceLater(s: string, from: string, to: string, i: nat)
    requires |from| > 0 && 0 < i && FirstAt(s, from, i)
    ensures i + |from| <= |s| && FirstAt(s[1..], from, i - 1)
    ensures ReplaceAll(s, from, to) == [s[0]] + ReplaceAll(s[1..], from, to)
  {
    assert !OccursAt(s, from, 0);
    assert s[..|from|] != from;
    ShiftOccurrences(s, from);
  }

  lemma Regroup(whole: string, front: string, head: string, a: string, to: string, tail: string)
    requires whole == head + (a + to + tail) && front == head + a
    ensures whole == front + to + tail
  {
  }

  lemma TailsAgree(s: string, from: string, to: string, i: nat)
    requires |from| > 0 && 0 < i && i + |from| <= |s|
    ensures ReplaceAll(s[1..][i - 1 + |from|..], from, to) == ReplaceAll(s[i + |from|..], from, to)
  {
    assert s[1..][i - 1 + |from|..] == s[i + |from|..];
  }

  /** How `s` splits around its first element, for the scan's step. */
  lemma HeadAndTail(s: string, i: nat, n: nat)
    requires 0 < i && i + n <= |s|
    ensures [s[0]] + s[1..][..i - 1] == s[..i]
    ensures s[1..][i - 1 + n..] == s[i + n..]
  {
  }

  /** Joining the pieces with the separator they were split at gives the text back. */
  lemma {:induction false} JoinSplit(s: string, p: string)
    requires |p| > 0
    ensures Join(Split(s, p), p) == s
    decreases |s|
  {
    match FirstOccurrence(s, p)
    case None =>
    case Some(i) =>
      SplitAt(s, p, i);
      AroundOccurrence(s, p, i);
      JoinSplit(s[i + |p|..], p);
  }

  /** Splitting at the leftmost occurrence `i`: the first piece, then the split of the rest. */
  lemma SplitAt(s: string, p: string, i: nat)
    requires |p| > 0 && FirstOccurrence(s, p) == Some(i)
    ensures i + |p| <= |s|
    ensures |Split(s, p)| > 1 && Split(s, p)[0] == s[..i] && Split(s, p)[1..] == Split(s[i + |p|..], p)
  {
    assert OccursAt(s, p, i);
    var rest := Split(s[i + |p|..], p);
    assert Split(s, p) == [s[..i]] + rest;
    assert ([s[..i]] + rest)[1..] == rest;
  }

  /** The text around an occurrence of `p` at `i`. */
  lemma AroundOccurrence(s: string, p: string, i: nat)
    requires OccursAt(s, p, i)
    ensures s == s[..i] + p + s[i + |p|..]
  {
    assert s == s[..i] + s[i..i + |p|] + s[i + |p|..];
  }

  /** No piece of a split holds the separator. */
  lemma {:induction false} SplitPiecesAvoidSeparator(s: string, p: string)
    requires |p| > 0
    ensures forall k :: 0 <= k < |Split(s, p)| ==> !Contains(Split(s, p)[k], p)
    decreases |s|
  {
    match FirstOccurrence(s, p)
    case None =>
    case Some(i) =>
      var rest := s[i + |p|..];
      SplitAt(s, p, i);
      SplitPiecesAvoidSeparator(rest, p);
      PrefixAvoids(s, p, i);
      forall k | 0 <= k < |Split(s, p)| ensures !Contains(Split(s, p)[k], p) {
        if k > 0 {
          assert Split(s, p)[k] == Split(rest, p)[k - 1];
        }
      }
  }

  /** The text before the leftmost occurrence holds no occurrence. */
  lemma PrefixAvoids(s: string, p: string, i: nat)
    requires |p| > 0 && FirstOccurrence(s, p) == Some(i)
    ensures !Contains(s[..i], p)
  {
    forall j: nat | OccursAt(s[..i], p, j) ensures false {
      assert s[..i][j..j + |p|] == s[j..j + |p|];
      assert OccursAt(s, p, j);
    }
  }

  /** Replacing a pattern by itself changes nothing. */
  lemma ReplaceByItself(s: string, p: string)
    requires |p| > 0
    ensures ReplaceAll(s, p, p) == s
  {
    ReplaceAllIsSplitJoin(s, p, p);
    JoinSplit(s, p);
  }

  /**
   * The file read for a note always ends in ".md": a path already ending in
   * ".md" is used as is, any other gets "/index.md" appended.
   */
  lemma NoteFileIsMarkdown(dataDir: string, username: string, path: string)
    ensures EndsWith(NoteFile(dataDir, username, path), ".md")
    ensures EndsWith(path, ".md") ==> NoteFile(dataDir, username, path) == dataDir + "/" + username + "/notes/" + path
    ensures !EndsWith(path, ".md") ==>
              NoteFile(dataDir, username, path) == dataDir + "/" + username + "/notes/" + path + "/index.md"
  {
    var f := NoteFile(dataDir, username, path);
    if EndsWith(path, ".md") {
      assert f[|f| - 3..] == path[|path| - 3..];
    } else {
      assert f[|f| - 3..] == "/index.md"[6..];
    }
  }

  /** A path of fewer than three bytes panics; an ASCII path of three or more characters does not. */
  lemma ShortPathPanics(path: string)
    ensures ByteLength(path) < 3 ==> !TailIsBytes(path, 3)
    ensures |path| >= 3 && (forall i :: 0 <= i < |path| ==> path[i] as int < 0x80) ==> TailIsBytes(path, 3)
  {
    if |path| >= 3 && (forall i :: 0 <= i < |path| ==> path[i] as int < 0x80) {
      var s1 := path[..|path| - 1];
      var s2 := s1[..|s1| - 1];
      var s3 := s2[..|s2| - 1];
      assert s1[|s1| - 1] == path[|path| - 2];
      assert s2[|s2| - 1] == path[|path| - 3];
      assert TailIsBytes(s3, 0);
      assert Utf8Width(s2[|s2| - 1]) == 1;
      assert TailIsBytes(s2, 1);
      assert Utf8Width(s1[|s1| - 1]) == 1;
      assert TailIsBytes(s1, 2);
      assert Utf8Width(path[|path| - 1]) == 1;
    }
    if TailIsBytes(path, 3) {
      TailNeedsBytes(path, 3);
    }
  }

  /** The length of the UTF-8 encoding of `s`, which Rust's `len` gives. */
  function ByteLength(s: string): nat
    decreases |s|
  {
    if s == [] then 0 else ByteLength(s[..|s| - 1]) + Utf8Width(s[|s| - 1])
  }

  /** A tail of `k` bytes can only be cut from a string of at least `k` bytes. */
  lemma {:induction false} TailNeedsBytes(s: string, k: nat)
    requires TailIsBytes(s, k)
    ensures k <= ByteLength(s)
    decreases |s|
  {
    if k > 0 {
      TailNeedsBytes(s[..|s| - 1], k - Utf8Width(s[|s| - 1]));
    }
  }
}
