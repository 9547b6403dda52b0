/**
 * Sequence operations shared by the plugin: the insertion-ordered JavaScript
 * `Set` (`Dedup`), removal of one value, sub-sequences and `Array.prototype.slice`.
 */
module Lists {
  import opened Wrappers

  predicate NoDup<T(==)>(xs: seq<T>) {
    forall i, j :: 0 <= i < j < |xs| ==> xs[i] != xs[j]
  }

  /** `Array.from(new Set(xs))`: each value once, at its first occurrence;
      written as the loop that adds `xs` one value at a time to the set. */
  function Dedup<T(==)>(xs: seq<T>): (r: seq<T>)
    ensures NoDup(r)
    ensures |r| <= |xs|
  {
    if xs == [] then []
    else
      var d := Dedup(xs[..|xs| - 1]);
      if xs[|xs| - 1] in d then d else d + [xs[|xs| - 1]]
  }

  /** `Dedup` keeps exactly the values of its argument. */
  lemma {:induction false} DedupMembers<T>(xs: seq<T>)
    ensures forall x :: x in Dedup(xs) <==> x in xs
    ensures forall i :: 0 <= i < |Dedup(xs)| ==> Dedup(xs)[i] in xs
  {
    if xs != [] {
      var p := xs[..|xs| - 1];
      DedupMembers(p);
      assert xs == p + [xs[|xs| - 1]];
    }
  }

  /** Index of the first occurrence of `x` in `xs`. */
  function FirstIndex<T(==)>(xs: seq<T>, x: T): (i: nat)
    requires x in xs
    ensures i < |xs| && xs[i] == x
    ensures forall j :: 0 <= j < i ==> xs[j] != x
  {
    if xs[0] == x then 0 else 1 + FirstIndex(xs[1..], x)
  }

  lemma {:induction false} FirstIndexInPrefix<T>(xs: seq<T>, y: T, x: T)
    requires x in xs
    ensures FirstIndex(xs + [y], x) == FirstIndex(xs, x)
  {
    var i := FirstIndex(xs, x);
    var k := FirstIndex(xs + [y], x);
    assert (xs + [y])[i] == x;
    assert k <= i;
    assert xs[k] == x;
  }

  /** The values of `Dedup(xs)` come in the order of their first occurrence in `xs`. */
  lemma {:induction false} DedupFirstOccurrenceOrder<T>(xs: seq<T>)
    ensures forall i, j :: 0 <= i < j < |Dedup(xs)| ==>
      Dedup(xs)[i] in xs && Dedup(xs)[j] in xs &&
      FirstIndex(xs, Dedup(xs)[i]) < FirstIndex(xs, Dedup(xs)[j])
  {
    if xs != [] {
      var p := xs[..|xs| - 1];
      var y := xs[|xs| - 1];
      assert xs == p + [y];
      DedupFirstOccurrenceOrder(p);
      DedupMembers(p);
      DedupMembers(xs);
      var d := Dedup(p);
      var e := Dedup(xs);
      assert e == if y in d then d else d + [y];
      forall i, j | 0 <= i < j < |e|
        ensures e[i] in xs && e[j] in xs && FirstIndex(xs, e[i]) < FirstIndex(xs, e[j])
      {
        assert e[i] == d[i] && d[i] in p;
        FirstIndexInPrefix(p, y, d[i]);
        if j < |d| {
          assert e[j] == d[j] && d[j] in p;
          FirstIndexInPrefix(p, y, d[j]);
        } else {
          assert e[j] == y && y !in p;
          assert FirstIndex(xs, y) == |p|;
        }
      }
    } else {
      assert Dedup(xs) == [];
    }
  }

  /** A sequence without duplicates is its own `Dedup`. */
  lemma {:induction false} DedupOfNoDup<T>(xs: seq<T>)
    requires NoDup(xs)
    ensures Dedup(xs) == xs
  {
    if xs != [] {
      var p := xs[..|xs| - 1];
      assert NoDup(p);
      DedupOfNoDup(p);
      assert xs[|xs| - 1] !in p;
      assert p + [xs[|xs| - 1]] == xs;
    }
  }

  /** `xs` with every occurrence of `x` removed. */
  function Without<T(==)>(xs: seq<T>, x: T): (r: seq<T>)
    ensures x !in r
    ensures |r| <= |xs|
  {
    if xs == [] then []
    else
      var w := Without(xs[..|xs| - 1], x);
      if xs[|xs| - 1] == x then w else w + [xs[|xs| - 1]]
  }

  lemma {:induction false} WithoutMembers<T>(xs: seq<T>, x: T)
    ensures forall y :: y in Without(xs, x) <==> y in xs && y != x
  {
    if xs != [] {
      var p := xs[..|xs| - 1];
      WithoutMembers(p, x);
      assert xs == p + [xs[|xs| - 1]];
    }
  }

  lemma {:induction false} WithoutKeepsNoDup<T>(xs: seq<T>, x: T)
    requires NoDup(xs)
    ensures NoDup(Without(xs, x))
  {
    if xs != [] {
      var p := xs[..|xs| - 1];
      assert NoDup(p);
      WithoutKeepsNoDup(p, x);
      WithoutMembers(p, x);
      assert xs[|xs| - 1] !in p;
    }
  }

  /** Adding one value to the set appends it unless it is already there. */
  lemma DedupSnoc<T>(xs: seq<T>, y: T)
    ensures Dedup(xs + [y]) == if y in Dedup(xs) then Dedup(xs) else Dedup(xs) + [y]
  {
    assert (xs + [y])[..|xs + [y]| - 1] == xs;
  }

  lemma WithoutSnoc<T>(xs: seq<T>, y: T, x: T)
    ensures Without(xs + [y], x) == if y == x then Without(xs, x) else Without(xs, x) + [y]
  {
    assert (xs + [y])[..|xs + [y]| - 1] == xs;
  }

  /** Putting `s` in front and de-duplicating keeps `s` first and the other
      values in their de-duplicated order. */
  lemma {:induction false} DedupCons<T>(s: T, h: seq<T>)
    ensures Dedup([s] + h) == [s] + Dedup(Without(h, s))
  {
    if h == [] {
      DedupSnoc([], s);
      assert [s] + h == [] + [s];
    } else {
      var p := h[..|h| - 1];
      var y := h[|h| - 1];
      var w := Without(p, s);
      var dw := Dedup(w);
      assert ([s] + dw) + [y] == [s] + (dw + [y]);
      assert h == p + [y];
      assert [s] + h == ([s] + p) + [y];
      DedupCons(s, p);
      var d1 := Dedup([s] + p);
      assert d1 == [s] + dw;
      DedupSnoc([s] + p, y);
      WithoutSnoc(p, y, s);
      if y == s {
        assert y in d1;
      } else {
        DedupSnoc(w, y);
        assert Without(h, s) == w + [y];
        if y in dw {
          assert y in d1;
        } else {
          assert y !in d1;
        }
      }
    }
  }

  /** `a` is obtained from `b` by deleting elements. */
  predicate IsSubsequence<T(==)>(a: seq<T>, b: seq<T>)
    decreases |b|
  {
    if a == [] then true
    else if b == [] then false
    else (a[0] == b[0] && IsSubsequence(a[1..], b[1..])) || IsSubsequence(a, b[1..])
  }

  /** JavaScript's relative index: negative counts from the end, both clamped to `[0, n]`. */
  function RelativeIndex(k: int, n: nat): (r: nat)
    ensures r <= n
    ensures 0 <= k <= n ==> r == k
    ensures k > n ==> r == n
    ensures k < 0 && n + k >= 0 ==> r == n + k
    ensures k < 0 && n + k < 0 ==> r == 0
  {
    if k < 0 then (if n + k < 0 then 0 else n + k)
    else if k > n then n
    else k
  }

  /** `xs.slice(start, end)` where `None` stands for `undefined` (start 0, end `|xs|`). */
  function Slice<T>(xs: seq<T>, start: Option<int>, end: Option<int>): (r: seq<T>)
    ensures |r| <= |xs|
  {
    var a := if start.Some? then RelativeIndex(start.value, |xs|) else 0;
    var b := if end.Some? then RelativeIndex(end.value, |xs|) else |xs|;
    if a <= b then xs[a..b] else []
  }

  /** `slice` within bounds is the plain subsequence; a missing end runs to
      the end, a missing start begins at 0, and a start of 0 keeps a prefix
      whose length is the end counted from the back when negative. */
  lemma SliceCases<T>(xs: seq<T>, start: Option<int>, end: Option<int>)
    ensures start.Some? && end.Some? && 0 <= start.value <= end.value <= |xs| ==>
      Slice(xs, start, end) == xs[start.value..end.value]
    ensures start.Some? && end.None? && 0 <= start.value <= |xs| ==> Slice(xs, start, end) == xs[start.value..]
    ensures start.None? && end.None? ==> Slice(xs, start, end) == xs
    ensures start == Some(0) && end.Some? ==> Slice(xs, start, end) == xs[..RelativeIndex(end.value, |xs|)]
    ensures start.Some? && end.Some? && RelativeIndex(end.value, |xs|) <= RelativeIndex(start.value, |xs|) ==>
      Slice(xs, start, end) == []
  {
  }
}
