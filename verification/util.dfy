/**
 * Editor helpers: the guard that keeps suggestions out of code and math
 * blocks, and the segmentation of a shortcode into plain and highlighted runs.
 */
module Util {
  import opened Wrappers
  import opened Strings
  import opened Lists

  /** The `type` of the CodeMirror token at the cursor: a string, or anything
      that is not one (`null` for plain text). */
  datatype TokenType = NotAString | Name(name: string)

  /** `checkForInputBlock`: suggestions are allowed unless the token type is a
      string that mentions `code` (inline code, code blocks) or `math`. */
  function CheckForInputBlock(t: TokenType): (allowed: bool)
    ensures t.NotAString? ==> allowed
    ensures t.Name? ==> (allowed <==> !Occurs(t.name, "code") && !Occurs(t.name, "math"))
  {
    !t.Name? || (IndexOf(t.name, "code") == -1 && IndexOf(t.name, "math") == -1)
  }

  /** Both kinds of code token and the math token block suggestions; an
      ordinary token type does not. */
  lemma CodeAndMathTokensBlock()
    ensures !CheckForInputBlock(Name("inline-code"))
    ensures !CheckForInputBlock(Name("codeblock"))
    ensures !CheckForInputBlock(Name("math"))
    ensures CheckForInputBlock(Name("em"))
  {
    assert OccursAt("inline-code", "code", 7);
    assert OccursAt("codeblock", "code", 0);
    assert OccursAt("math", "math", 0);
    assert !Occurs("em", "code") by {
      forall i: nat ensures !OccursAt("em", "code", i) { }
    }
    assert !Occurs("em", "math") by {
      forall i: nat ensures !OccursAt("em", "math", i) { }
    }
  }

  /** One run of the highlighted shortcode: appended text or a highlight span. */
  datatype Segment = Plain(text: string) | Highlight(text: string)

  /** `r[k]`, `None` standing for `undefined` past the end. */
  function At(r: seq<int>, k: nat): (v: Option<int>)
    ensures k < |r| <==> v.Some?
    ensures k < |r| ==> v.value == r[k]
  {
    if k < |r| then Some(r[k]) else None
  }

  /** How many runs `slimHighlight` appends: the leading text, then two for
      every start of the loop, which steps through `r` two at a time. */
  function SegmentCount(r: seq<int>): (n: nat)
    ensures n % 2 == 1
    ensures |r| % 2 == 0 ==> n == |r| + 1
    ensures |r| % 2 == 1 ==> n == |r| + 2
  {
    if |r| % 2 == 0 then |r| + 1 else |r| + 2
  }

  /** Run `k` of the result: the slice of `str` from offset `k - 1` (from 0
      for the first run) to offset `k`, plain at even positions and
      highlighted at odd ones; a missing offset is `undefined`. */
  function SegmentAt(str: string, r: seq<int>, k: nat): Segment {
    var run := Slice(str, if k == 0 then Some(0) else At(r, k - 1), At(r, k));
    if k % 2 == 0 then Plain(run) else Highlight(run)
  }

  /** The first `n` runs. */
  function Runs(str: string, r: seq<int>, n: nat): (segs: seq<Segment>)
    ensures |segs| == n
  {
    if n == 0 then [] else Runs(str, r, n - 1) + [SegmentAt(str, r, n - 1)]
  }

  /** The children of the element `slimHighlight` builds, in order. */
  function HighlightSegments(str: string, r: seq<int>): (segs: seq<Segment>)
    ensures |segs| == SegmentCount(r)
  {
    Runs(str, r, SegmentCount(r))
  }

  /** Run `k` of the list is `SegmentAt(str, r, k)`. */
  lemma {:induction false} RunsAt(str: string, r: seq<int>, n: nat, k: nat)
    requires k < n
    ensures Runs(str, r, n)[k] == SegmentAt(str, r, k)
  {
    if k < n - 1 {
      RunsAt(str, r, n - 1, k);
    }
  }

  /** `slimHighlight`: the leading text `str.slice(0, r[0])`, then for every
      `i` below `|r|` in steps of two the span `str.slice(r[i], r[i+1])` and
      the text `str.slice(r[i+1], r[i+2])`. */
  method SlimHighlight(str: string, r: seq<int>) returns (segments: seq<Segment>)
    ensures segments == HighlightSegments(str, r)
  {
    segments := [Plain(Slice(str, Some(0), At(r, 0)))];
    assert segments == Runs(str, r, 1);
    var i := 0;
    while i < |r|
      invariant i % 2 == 0 && i + 1 <= SegmentCount(r)
      invariant segments == Runs(str, r, i + 1)
      decreases |r| - i
    {
      segments := segments + [Highlight(Slice(str, At(r, i), At(r, i + 1)))];
      assert segments == Runs(str, r, i + 2);
      segments := segments + [Plain(Slice(str, At(r, i + 1), At(r, i + 2)))];
      assert segments == Runs(str, r, i + 3);
      i := i + 2;
    }
  }

  /** The number of highlight spans in a segment list. */
  function HighlightCount(segs: seq<Segment>): nat {
    if segs == [] then 0
    else (if segs[0].Highlight? then 1 else 0) + HighlightCount(segs[1..])
  }

  lemma {:induction false} HighlightCountAppend(a: seq<Segment>, b: seq<Segment>)
    ensures HighlightCount(a + b) == HighlightCount(a) + HighlightCount(b)
    decreases |a|
  {
    if a != [] {
      assert (a + b)[0] == a[0];
      assert (a + b)[1..] == a[1..] + b;
      HighlightCountAppend(a[1..], b);
    } else {
      assert a + b == b;
    }
  }

  /** The first `m` runs hold `m / 2` highlight spans. */
  lemma {:induction false} HighlightCountPrefix(str: string, r: seq<int>, m: nat)
    ensures HighlightCount(Runs(str, r, m)) == m / 2
  {
    if m > 0 {
      var last := SegmentAt(str, r, m - 1);
      assert last.Highlight? <==> (m - 1) % 2 == 1;
      var front := Runs(str, r, m - 1);
      assert Runs(str, r, m) == front + [last];
      HighlightCountPrefix(str, r, m - 1);
      HighlightCountAppend(front, [last]);
      assert [last][1..] == [];
    }
  }

  /** The runs alternate, plain first and last, and there is one highlight
      span per pair of offsets (a lone last offset counting as a pair that
      runs to the end). */
  lemma SegmentsAlternate(str: string, r: seq<int>)
    ensures |HighlightSegments(str, r)| == 1 + 2 * ((|r| + 1) / 2)
    ensures forall k :: 0 <= k < |HighlightSegments(str, r)| ==>
      (HighlightSegments(str, r)[k].Plain? <==> k % 2 == 0)
    ensures HighlightCount(HighlightSegments(str, r)) == (|r| + 1) / 2
  {
    var segs := HighlightSegments(str, r);
    HighlightCountPrefix(str, r, |segs|);
    forall k | 0 <= k < |segs|
      ensures segs[k].Plain? <==> k % 2 == 0
    {
      RunsAt(str, r, |segs|, k);
    }
  }

  /** Offsets that slice `str` into runs: ascending and all within `[0, |str|]`. */
  predicate AscendingWithin(r: seq<int>, n: nat) {
    && (forall k :: 0 <= k < |r| ==> 0 <= r[k] <= n)
    && (forall a, b :: 0 <= a <= b < |r| ==> r[a] <= r[b])
  }

  /** The text of a segment list, read in order. */
  function Concat(segs: seq<Segment>): string {
    if segs == [] then "" else segs[0].text + Concat(segs[1..])
  }

  lemma {:induction false} ConcatAppend(a: seq<Segment>, b: seq<Segment>)
    ensures Concat(a + b) == Concat(a) + Concat(b)
    decreases |a|
  {
    if a != [] {
      assert (a + b)[0] == a[0];
      assert (a + b)[1..] == a[1..] + b;
      ConcatAppend(a[1..], b);
    } else {
      assert a + b == b;
    }
  }

  lemma ConcatSnoc(a: seq<Segment>, x: Segment)
    ensures Concat(a + [x]) == Concat(a) + x.text
  {
    ConcatAppend(a, [x]);
    assert [x][1..] == [];
  }

  /** Offset `k`, or the end of the string past the last offset. */
  function OffsetOrEnd(r: seq<int>, n: nat, k: nat): int {
    if k < |r| then r[k] else n
  }

  /** Where run `k` starts: at 0 for the leading text, else at offset `k - 1`. */
  function RunStart(r: seq<int>, k: nat): int
    requires k <= |r|
  {
    if k == 0 then 0 else r[k - 1]
  }

  /** With ascending offsets within the string, run `k` is the text between
      offset `k - 1` (or the start) and offset `k` (or the end). */
  lemma RunText(str: string, r: seq<int>, k: nat)
    requires AscendingWithin(r, |str|) && k <= |r|
    ensures 0 <= RunStart(r, k) <= OffsetOrEnd(r, |str|, k) <= |str|
    ensures SegmentAt(str, r, k).text == str[RunStart(r, k)..OffsetOrEnd(r, |str|, k)]
    ensures SegmentAt(str, r, k).Highlight? <==> k % 2 == 1
  {
    if 0 < k < |r| {
      assert r[k - 1] <= r[k];
    }
  }

  /** With even, ascending offsets within the string, the first `m + 1` runs
      read back the string up to offset `m`. */
  lemma {:induction false} PrefixReadsBack(str: string, r: seq<int>, m: nat)
    requires AscendingWithin(r, |str|) && |r| % 2 == 0
    requires m <= |r|
    ensures 0 <= OffsetOrEnd(r, |str|, m) <= |str|
    ensures Concat(Runs(str, r, m + 1)) == str[..OffsetOrEnd(r, |str|, m)]
  {
    var end := OffsetOrEnd(r, |str|, m);
    var seg := SegmentAt(str, r, m);
    assert Runs(str, r, m + 1) == Runs(str, r, m) + [seg];
    RunText(str, r, m);
    ConcatSnoc(Runs(str, r, m), seg);
    if m == 0 {
      assert Concat(Runs(str, r, 0)) == "";
    } else {
      PrefixReadsBack(str, r, m - 1);
      var start := OffsetOrEnd(r, |str|, m - 1);
      assert start == RunStart(r, m);
      assert str[..end] == str[..start] + str[start..end];
    }
  }

  /** With an even number of ascending offsets within the string, reading
      the runs in order gives back the string exactly. */
  lemma SegmentsReadBack(str: string, r: seq<int>)
    requires AscendingWithin(r, |str|) && |r| % 2 == 0
    ensures Concat(HighlightSegments(str, r)) == str
  {
    PrefixReadsBack(str, r, |r|);
    assert str[..|str|] == str;
  }

  /** With even, ascending offsets within the string, run `1 + 2k` is the
      highlight `str[r[2k]..r[2k+1]]` and run `2 + 2k` the text after it, up
      to the next offset or, after the last pair, to the end. */
  lemma SegmentsFollowOffsets(str: string, r: seq<int>)
    requires AscendingWithin(r, |str|) && |r| % 2 == 0
    ensures HighlightSegments(str, r)[0] == Plain(str[..if |r| == 0 then |str| else r[0]])
    ensures forall k :: 0 <= k < |r| / 2 ==>
      && 2 + 2 * k < |HighlightSegments(str, r)|
      && HighlightSegments(str, r)[1 + 2 * k] == Highlight(str[r[2 * k]..r[2 * k + 1]])
      && HighlightSegments(str, r)[2 + 2 * k] ==
         Plain(if 2 * k + 2 < |r| then str[r[2 * k + 1]..r[2 * k + 2]] else str[r[2 * k + 1]..])
  {
    var segs := HighlightSegments(str, r);
    RunText(str, r, 0);
    RunsAt(str, r, |segs|, 0);
    forall k | 0 <= k < |r| / 2
      ensures 2 + 2 * k < |segs|
      ensures segs[1 + 2 * k] == Highlight(str[r[2 * k]..r[2 * k + 1]])
      ensures segs[2 + 2 * k] ==
        Plain(if 2 * k + 2 < |r| then str[r[2 * k + 1]..r[2 * k + 2]] else str[r[2 * k + 1]..])
    {
      RunText(str, r, 1 + 2 * k);
      RunText(str, r, 2 + 2 * k);
      RunsAt(str, r, |segs|, 1 + 2 * k);
      RunsAt(str, r, |segs|, 2 + 2 * k);
    }
  }

  /** A lone last offset opens a highlight that runs to the end, and the
      plain text after it is `str.slice(undefined, undefined)`: the whole
      string again. */
  lemma OddOffsetsRepeatTheString(str: string, r: seq<int>)
    requires |r| % 2 == 1
    ensures |HighlightSegments(str, r)| == |r| + 2
    ensures HighlightSegments(str, r)[|r| + 1] == Plain(str)
  {
    RunsAt(str, r, |r| + 2, |r| + 1);
  }
}
