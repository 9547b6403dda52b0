/**
 * The reading-view post-processor: find every `:name:` shortcode in the
 * rendered text, then rewrite the rendered tree shortcode by shortcode,
 * leaving code and math elements alone.
 */
module PostProcessor {
  import opened Wrappers
  import opened Strings

  /** The characters `[^ \n:]` admits after the second one. */
  predicate InnerChar(c: char) {
    c != ' ' && c != '\n' && c != ':'
  }

  /** `t` is one whole match of `[:][^\s:][^ \n:]*[:]`. */
  predicate IsShortcode(t: string) {
    && |t| >= 3
    && t[0] == ':' && t[|t| - 1] == ':'
    && !IsSpace(t[1]) && t[1] != ':'
    && forall i :: 2 <= i < |t| - 1 ==> InnerChar(t[i])
  }

  /** The end of the run of inner characters that starts at `k`. */
  function RunEnd(s: string, k: nat): (e: nat)
    requires k <= |s|
    decreases |s| - k
    ensures k <= e <= |s|
    ensures forall i :: k <= i < e ==> InnerChar(s[i])
    ensures e < |s| ==> !InnerChar(s[e])
  {
    if k == |s| || !InnerChar(s[k]) then k else RunEnd(s, k + 1)
  }

  /** The end (exclusive) of the match that starts at `p`, if there is one.
      Since the inner characters exclude `:`, there is at most one. */
  function MatchEnd(s: string, p: nat): (r: Option<nat>)
    ensures r.Some? ==> p < r.value <= |s| && IsShortcode(s[p..r.value])
  {
    if p + 3 <= |s| && s[p] == ':' && !IsSpace(s[p + 1]) && s[p + 1] != ':' then
      var q := RunEnd(s, p + 2);
      if q < |s| && s[q] == ':' then
        Some(q + 1)
      else
        None
    else
      None
  }

  /** A shortcode starting at `p` is the one `MatchEnd` reports. */
  lemma MatchEndFindsEveryShortcode(s: string, p: nat, e: nat)
    requires p <= e <= |s| && IsShortcode(s[p..e])
    ensures MatchEnd(s, p) == Some(e)
  {
    var q := RunEnd(s, p + 2);
    var t := s[p..e];
    assert forall i :: p + 2 <= i < e - 1 ==> InnerChar(s[i]) by {
      forall i | p + 2 <= i < e - 1 ensures InnerChar(s[i]) {
        assert s[i] == t[i - p];
      }
    }
    assert s[e - 1] == t[|t| - 1];
  }

  /** The global scan of `s` from `from`: the spans `[start, end)` of the
      matches, trying start positions left to right and resuming after each
      match. */
  function Scan(s: string, from: nat): (spans: seq<(nat, nat)>)
    decreases |s| - from
    ensures forall k :: 0 <= k < |spans| ==>
      from <= spans[k].0 < spans[k].1 <= |s| && IsShortcode(s[spans[k].0..spans[k].1])
    ensures forall i, j :: 0 <= i < j < |spans| ==> spans[i].1 <= spans[j].0
  {
    if from >= |s| then []
    else
      match MatchEnd(s, from)
      case Some(e) => [(from, e)] + Scan(s, e)
      case None => Scan(s, from + 1)
  }

  /** Position `x` is the start of one of `spans` or lies inside it. */
  predicate Covered(spans: seq<(nat, nat)>, x: nat) {
    exists k :: 0 <= k < |spans| && spans[k].0 <= x < spans[k].1
  }

  /** A position from `from` on where a match could start is covered by the
      scan from `from`. */
  lemma {:induction false} ScanCoversMatchStart(s: string, from: nat, x: nat)
    requires from <= x && MatchEnd(s, x).Some?
    decreases |s| - from
    ensures Covered(Scan(s, from), x)
  {
    assert x < |s|;
    var m := MatchEnd(s, from);
    if m.None? {
      assert x != from;
      assert Scan(s, from) == Scan(s, from + 1);
      ScanCoversMatchStart(s, from + 1, x);
    } else {
      var e0 := m.value;
      var rest := Scan(s, e0);
      assert Scan(s, from) == [(from, e0)] + rest;
      if x < e0 {
        assert Scan(s, from)[0] == (from, e0);
      } else {
        ScanCoversMatchStart(s, e0, x);
        var k :| 0 <= k < |rest| && rest[k].0 <= x < rest[k].1;
        assert Scan(s, from)[k + 1] == rest[k];
      }
    }
  }

  /** The scan misses no shortcode: every place where one starts is the start
      of a reported match or lies inside one. */
  lemma ScanMissesNothing(s: string, from: nat)
    ensures forall x: nat, e: nat :: from <= x <= e <= |s| && IsShortcode(s[x..e]) ==>
      Covered(Scan(s, from), x)
  {
    forall x: nat, e: nat | from <= x <= e <= |s| && IsShortcode(s[x..e])
      ensures Covered(Scan(s, from), x)
    {
      MatchEndFindsEveryShortcode(s, x, e);
      ScanCoversMatchStart(s, from, x);
    }
  }

  /** `innerText.match(shortcodeRegex)`, the empty sequence standing for `null`. */
  function Shortcodes(text: string): (r: seq<string>)
    ensures |r| == |Scan(text, 0)|
    ensures forall k :: 0 <= k < |r| ==> IsShortcode(r[k]) && |r[k]| >= 3
    ensures forall k :: 0 <= k < |r| ==> r[k] == text[Scan(text, 0)[k].0..Scan(text, 0)[k].1]
  {
    var spans := Scan(text, 0);
    seq(|spans|, k requires 0 <= k < |spans| => text[spans[k].0..spans[k].1])
  }

  /** The rendered tree: elements with a tag name and children, and text leaves. */
  datatype Node = Element(tag: string, children: seq<Node>) | Text(text: string)

  /** The tree with all text erased: element tags and the arity and order of children. */
  datatype Shape = ElementShape(tag: string, children: seq<Shape>) | TextShape

  function ShapeOf(n: Node): Shape {
    match n
    case Text(_) => TextShape
    case Element(tag, children) =>
      ElementShape(tag, seq(|children|, i requires 0 <= i < |children| => ShapeOf(children[i])))
  }

  /** An element whose lower-cased tag name contains `code` or `mjx`. */
  predicate IsSkipped(tag: string) {
    Includes(Lower(tag), "code") || Includes(Lower(tag), "mjx")
  }

  /** `emojiReplace`: skipped elements stay as they are with their whole
      subtree; elements with children recurse into each child; a node without
      children has the first occurrence of the shortcode in its text replaced
      by the looked-up emoji. */
  function EmojiReplace(shortcode: string, n: Node, lookup: map<string, string>): (r: Node)
    requires shortcode in lookup
    ensures n.Element? && IsSkipped(n.tag) ==> r == n
    ensures n.Text? && !Occurs(n.text, shortcode) ==> r == n
    ensures n.Text? && Occurs(n.text, shortcode) ==>
      exists i: nat :: OccursAt(n.text, shortcode, i) &&
        (forall j: nat :: j < i ==> !OccursAt(n.text, shortcode, j)) &&
        r == Text(n.text[..i] + lookup[shortcode] + n.text[i + |shortcode|..])
  {
    match n
    case Text(t) => Text(ReplaceFirst(t, shortcode, lookup[shortcode]))
    case Element(tag, children) =>
      if IsSkipped(tag) then n
      else if |children| > 0 then
        Element(tag, seq(|children|, i requires 0 <= i < |children| => EmojiReplace(shortcode, children[i], lookup)))
      else
        // an element without children has the empty string as its text
        var t := ReplaceFirst("", shortcode, lookup[shortcode]);
        if t == "" then n else Element(tag, [Text(t)])
  }

  /** A non-empty shortcode leaves the shape of the tree unchanged: only text changes. */
  lemma {:induction false} EmojiReplacePreservesShape(shortcode: string, n: Node, lookup: map<string, string>)
    requires shortcode in lookup && |shortcode| > 0
    ensures ShapeOf(EmojiReplace(shortcode, n, lookup)) == ShapeOf(n)
  {
    match n
    case Text(_) =>
    case Element(tag, children) =>
      if !IsSkipped(tag) {
        if |children| > 0 {
          forall i | 0 <= i < |children|
            ensures ShapeOf(EmojiReplace(shortcode, children[i], lookup)) == ShapeOf(children[i])
          {
            EmojiReplacePreservesShape(shortcode, children[i], lookup);
          }
        } else {
          assert !OccursAt("", shortcode, 0);
          assert !Occurs("", shortcode);
        }
      }
  }

  /** Some text that the rewrite reaches, outside skipped elements, contains `shortcode`. */
  predicate Mentions(n: Node, shortcode: string) {
    match n
    case Text(t) => Includes(t, shortcode)
    case Element(tag, children) =>
      !IsSkipped(tag) && exists i :: 0 <= i < |children| && Mentions(children[i], shortcode)
  }

  /** A tree that nowhere mentions the shortcode comes back unchanged. */
  lemma {:induction false} UnmentionedIsUnchanged(shortcode: string, n: Node, lookup: map<string, string>)
    requires shortcode in lookup && |shortcode| > 0
    requires !Mentions(n, shortcode)
    ensures EmojiReplace(shortcode, n, lookup) == n
  {
    match n
    case Text(_) =>
    case Element(tag, children) =>
      if !IsSkipped(tag) {
        if |children| > 0 {
          forall i | 0 <= i < |children|
            ensures EmojiReplace(shortcode, children[i], lookup) == children[i]
          {
            UnmentionedIsUnchanged(shortcode, children[i], lookup);
          }
        } else {
          assert !OccursAt("", shortcode, 0);
          assert !Occurs("", shortcode);
        }
      }
  }

  /** The node reached from `n` by following the child indices in `path`,
      entering only elements the rewrite descends into (not text leaves, not
      skipped elements); `None` when the walk cannot go on. */
  function Visit(n: Node, path: seq<nat>): Option<Node>
    decreases |path|
  {
    if path == [] then Some(n)
    else
      match n
      case Text(_) => None
      case Element(tag, children) =>
        if IsSkipped(tag) || path[0] >= |children| then None
        else Visit(children[path[0]], path[1..])
  }

  /** Every text leaf the rewrite reaches has the first occurrence of the
      shortcode replaced, and every skipped element it reaches keeps its whole
      subtree: along any path the rewrite keeps the tree's paths. */
  lemma {:induction false} EmojiReplaceReachesEveryLeaf(shortcode: string, n: Node, lookup: map<string, string>, path: seq<nat>)
    requires shortcode in lookup && |shortcode| > 0
    requires Visit(n, path).Some?
    decreases |path|
    ensures Visit(EmojiReplace(shortcode, n, lookup), path).Some?
    ensures Visit(n, path).value.Text? ==>
      Visit(EmojiReplace(shortcode, n, lookup), path).value ==
        Text(ReplaceFirst(Visit(n, path).value.text, shortcode, lookup[shortcode]))
    ensures Visit(n, path).value.Element? && IsSkipped(Visit(n, path).value.tag) ==>
      Visit(EmojiReplace(shortcode, n, lookup), path) == Visit(n, path)
  {
    if path != [] {
      var i := path[0];
      assert n.Element? && !IsSkipped(n.tag) && i < |n.children|;
      var r := EmojiReplace(shortcode, n, lookup);
      assert r.Element? && r.tag == n.tag && |r.children| == |n.children|;
      assert r.children[i] == EmojiReplace(shortcode, n.children[i], lookup);
      EmojiReplaceReachesEveryLeaf(shortcode, n.children[i], lookup, path[1..]);
    }
  }

  /** The shortcodes applied one after another, each over the whole tree. */
  function ReplaceAll(n: Node, shortcodes: seq<string>, lookup: map<string, string>): Node
    requires forall k :: 0 <= k < |shortcodes| ==> shortcodes[k] in lookup
    decreases |shortcodes|
  {
    if shortcodes == [] then n
    else ReplaceAll(EmojiReplace(shortcodes[0], n, lookup), shortcodes[1..], lookup)
  }

  /** The text of one leaf after each shortcode in turn has replaced its first occurrence. */
  function ReplaceAllText(t: string, shortcodes: seq<string>, lookup: map<string, string>): string
    requires forall k :: 0 <= k < |shortcodes| ==> shortcodes[k] in lookup
    decreases |shortcodes|
  {
    if shortcodes == [] then t
    else ReplaceAllText(ReplaceFirst(t, shortcodes[0], lookup[shortcodes[0]]), shortcodes[1..], lookup)
  }

  /** Applying non-empty shortcodes to the whole tree rewrites each reached
      text leaf as if the shortcodes were applied to that leaf alone, and
      leaves each reached skipped element untouched. */
  lemma {:induction false} ReplaceAllReachesEveryLeaf(n: Node, shortcodes: seq<string>, lookup: map<string, string>, path: seq<nat>)
    requires forall k :: 0 <= k < |shortcodes| ==> shortcodes[k] in lookup && |shortcodes[k]| > 0
    requires Visit(n, path).Some?
    decreases |shortcodes|
    ensures Visit(ReplaceAll(n, shortcodes, lookup), path).Some?
    ensures Visit(n, path).value.Text? ==>
      Visit(ReplaceAll(n, shortcodes, lookup), path).value ==
        Text(ReplaceAllText(Visit(n, path).value.text, shortcodes, lookup))
    ensures Visit(n, path).value.Element? && IsSkipped(Visit(n, path).value.tag) ==>
      Visit(ReplaceAll(n, shortcodes, lookup), path) == Visit(n, path)
  {
    if shortcodes != [] {
      var first := shortcodes[0];
      var rest := shortcodes[1..];
      assert forall k :: 0 <= k < |rest| ==> rest[k] == shortcodes[k + 1];
      EmojiReplaceReachesEveryLeaf(first, n, lookup, path);
      ReplaceAllReachesEveryLeaf(EmojiReplace(first, n, lookup), rest, lookup, path);
    }
  }

  /** `emojiProcessor`: scans the element's rendered text and, unless nothing
      matched, applies each match in turn to the whole tree.  The result has
      the shape of the input, and a skipped root comes back as it was. */
  method EmojiProcessor(root: Node, innerText: string, lookup: map<string, string>) returns (result: Node)
    requires forall k :: 0 <= k < |Shortcodes(innerText)| ==> Shortcodes(innerText)[k] in lookup
    ensures result == ReplaceAll(root, Shortcodes(innerText), lookup)
    ensures Shortcodes(innerText) == [] ==> result == root
    ensures ShapeOf(result) == ShapeOf(root)
    ensures root.Element? && IsSkipped(root.tag) ==> result == root
    ensures forall path :: Visit(root, path).Some? && Visit(root, path).value.Text? ==>
      Visit(result, path) == Some(Text(ReplaceAllText(Visit(root, path).value.text, Shortcodes(innerText), lookup)))
    ensures forall path ::
      Visit(root, path).Some? && Visit(root, path).value.Element? && IsSkipped(Visit(root, path).value.tag) ==>
        Visit(result, path) == Visit(root, path)
  {
    var matches := Shortcodes(innerText);
    if matches == [] {
      return root;
    }
    result := root;
    for k := 0 to |matches|
      invariant ReplaceAll(result, matches[k..], lookup) == ReplaceAll(root, matches, lookup)
      invariant ShapeOf(result) == ShapeOf(root)
      invariant root.Element? && IsSkipped(root.tag) ==> result == root
    {
      EmojiReplacePreservesShape(matches[k], result, lookup);
      assert matches[k..][1..] == matches[k + 1..];
      result := EmojiReplace(matches[k], result, lookup);
    }
    assert matches[|matches|..] == [];
    forall path | Visit(root, path).Some?
      ensures Visit(result, path).Some?
      ensures Visit(root, path).value.Text? ==>
        Visit(result, path).value == Text(ReplaceAllText(Visit(root, path).value.text, matches, lookup))
      ensures Visit(root, path).value.Element? && IsSkipped(Visit(root, path).value.tag) ==>
        Visit(result, path) == Visit(root, path)
    {
      ReplaceAllReachesEveryLeaf(root, matches, lookup, path);
    }
  }
}
