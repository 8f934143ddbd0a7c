/** Order-preserving filtering and counting over sequences, as `Array.prototype.filter`
    and `.filter(..).length` do. */
module Seqs {

  /** `a` can be obtained from `b` by deleting elements, keeping order. */
  ghost predicate IsSubseq<T>(a: seq<T>, b: seq<T>)
    decreases |b|
  {
    if b == [] then a == []
    else (a != [] && a[0] == b[0] && IsSubseq(a[1..], b[1..])) || IsSubseq(a, b[1..])
  }

  /** `xs.filter(p)`. */
  function Filter<T>(xs: seq<T>, p: T -> bool): (r: seq<T>)
    ensures |r| <= |xs|
    ensures forall k :: 0 <= k < |r| ==> r[k] in xs && p(r[k])
    ensures forall k :: 0 <= k < |xs| && p(xs[k]) ==> xs[k] in r
    decreases |xs|
  {
    if xs == [] then []
    else (if p(xs[0]) then [xs[0]] else []) + Filter(xs[1..], p)
  }

  /** The number of elements satisfying `p`, `xs.filter(p).length`. */
  function Count<T>(xs: seq<T>, p: T -> bool): (n: nat)
    ensures n <= |xs|
    ensures n == 0 <==> forall k :: 0 <= k < |xs| ==> !p(xs[k])
    ensures n == |xs| <==> forall k :: 0 <= k < |xs| ==> p(xs[k])
    decreases |xs|
  {
    if xs == [] then 0
    else (if p(xs[0]) then 1 else 0) + Count(xs[1..], p)
  }

  /** Filtering keeps the passing elements in their original order. */
  lemma {:induction false} FilterIsSubseq<T>(xs: seq<T>, p: T -> bool)
    ensures IsSubseq(Filter(xs, p), xs)
    decreases |xs|
  {
    if xs != [] {
      FilterIsSubseq(xs[1..], p);
      if p(xs[0]) {
        assert Filter(xs, p) == [xs[0]] + Filter(xs[1..], p);
        assert Filter(xs, p)[1..] == Filter(xs[1..], p);
      } else {
        assert Filter(xs, p) == Filter(xs[1..], p);
      }
    }
  }

  /** Filtering with a predicate every element passes changes nothing. */
  lemma {:induction false} FilterAll<T>(xs: seq<T>, p: T -> bool)
    requires forall k :: 0 <= k < |xs| ==> p(xs[k])
    ensures Filter(xs, p) == xs
    decreases |xs|
  {
    if xs != [] {
      FilterAll(xs[1..], p);
    }
  }

  /** Filtering distributes over concatenation. */
  lemma {:induction false} FilterAppend<T>(a: seq<T>, b: seq<T>, p: T -> bool)
    ensures Filter(a + b, p) == Filter(a, p) + Filter(b, p)
    decreases |a|
  {
    if a == [] {
      assert a + b == b;
    } else {
      var h := if p(a[0]) then [a[0]] else [];
      FilterAppend(a[1..], b, p);
      FilterHead(a + b, p);
      assert (a + b)[1..] == a[1..] + b;
      assert Filter(a, p) == h + Filter(a[1..], p);
      Assoc(h, Filter(a[1..], p), Filter(b, p));
    }
  }

  /** Filtering a non-empty sequence: its head, if it passes, then the rest filtered. */
  lemma FilterHead<T>(xs: seq<T>, p: T -> bool)
    requires xs != []
    ensures Filter(xs, p) == (if p(xs[0]) then [xs[0]] else []) + Filter(xs[1..], p)
  {
  }

  /** Concatenation is associative. */
  lemma Assoc<T>(a: seq<T>, b: seq<T>, c: seq<T>)
    ensures a + b + c == a + (b + c)
  {
  }

  /** The filtered length is the count. */
  lemma {:induction false} FilterCount<T>(xs: seq<T>, p: T -> bool)
    ensures |Filter(xs, p)| == Count(xs, p)
    decreases |xs|
  {
    if xs != [] {
      FilterCount(xs[1..], p);
    }
  }

  /** The front of `xs + ys` is `xs`. */
  lemma PrefixOfAppend<T>(xs: seq<T>, ys: seq<T>)
    ensures (xs + ys)[..|xs|] == xs
  {
  }

  /** Counting distributes over concatenation. */
  lemma CountAppend<T>(a: seq<T>, b: seq<T>, p: T -> bool)
    ensures Count(a + b, p) == Count(a, p) + Count(b, p)
  {
    FilterAppend(a, b, p);
    FilterCount(a + b, p);
    FilterCount(a, p);
    FilterCount(b, p);
  }

  /** Appending one element adds one to the count exactly when it passes. */
  lemma CountSnoc<T>(xs: seq<T>, x: T, p: T -> bool)
    ensures Count(xs + [x], p) == Count(xs, p) + (if p(x) then 1 else 0)
  {
    CountAppend(xs, [x], p);
    assert Count([x], p) == (if p(x) then 1 else 0) + Count([], p);
  }

  /** Leaving out an element the filter drops does not change the filter. */
  lemma {:induction false} FilterSkip<T>(xs: seq<T>, i: nat, p: T -> bool)
    requires i < |xs| && !p(xs[i])
    ensures Filter(xs[..i] + xs[i + 1..], p) == Filter(xs, p)
    decreases i
  {
    FilterHead(xs, p);
    if i == 0 {
      assert xs[..0] + xs[1..] == xs[1..];
    } else {
      var rest := xs[1..];
      FilterSkip(rest, i - 1, p);
      var ys := xs[..i] + xs[i + 1..];
      assert ys[0] == xs[0];
      assert ys[1..] == rest[..i - 1] + rest[i..];
      FilterHead(ys, p);
    }
  }

  /** The first element kept is the first element that passes. */
  lemma {:induction false} FilterFirst<T>(xs: seq<T>, p: T -> bool) returns (i: nat)
    requires Filter(xs, p) != []
    ensures i < |xs| && xs[i] == Filter(xs, p)[0]
    ensures forall j :: 0 <= j < i ==> !p(xs[j])
    decreases |xs|
  {
    FilterHead(xs, p);
    if p(xs[0]) {
      i := 0;
    } else {
      var rest := FilterFirst(xs[1..], p);
      i := rest + 1;
    }
  }

  /** Filtering a sequence extended by one element. */
  lemma FilterSnoc<T>(xs: seq<T>, x: T, p: T -> bool)
    ensures Filter(xs + [x], p) == Filter(xs, p) + (if p(x) then [x] else [])
  {
    FilterAppend(xs, [x], p);
    assert Filter([x], p) == (if p(x) then [x] else []) + Filter([], p);
  }

  /** A non-empty sequence is its front followed by its last element. */
  lemma SplitLast<T>(xs: seq<T>)
    requires xs != []
    ensures xs == xs[..|xs| - 1] + [xs[|xs| - 1]]
  {
  }

  /** The count of a non-empty sequence is the count of all but its last
      element, plus one if the last element passes. */
  lemma CountLast<T>(xs: seq<T>, p: T -> bool)
    requires xs != []
    ensures Count(xs, p) == Count(xs[..|xs| - 1], p) + (if p(xs[|xs| - 1]) then 1 else 0)
  {
    SplitLast(xs);
    CountSnoc(xs[..|xs| - 1], xs[|xs| - 1], p);
  }

  /** Filtering twice is filtering once by the conjunction. */
  lemma {:induction false} FilterFilter<T>(xs: seq<T>, p: T -> bool, q: T -> bool, pq: T -> bool)
    requires forall x :: pq(x) == (p(x) && q(x))
    ensures Filter(Filter(xs, p), q) == Filter(xs, pq)
    decreases |xs|
  {
    if xs != [] {
      FilterFilter(xs[1..], p, q, pq);
      var fp := Filter(xs, p);
      if p(xs[0]) {
        assert fp == [xs[0]] + Filter(xs[1..], p);
        assert fp[0] == xs[0] && fp[1..] == Filter(xs[1..], p);
        assert Filter(fp, q) == (if q(xs[0]) then [xs[0]] else []) + Filter(fp[1..], q);
      } else {
        assert fp == Filter(xs[1..], p);
      }
    }
  }

  /** Filters by predicates that agree everywhere give the same result. */
  lemma {:induction false} FilterCongruent<T>(xs: seq<T>, p: T -> bool, q: T -> bool)
    requires forall x :: p(x) == q(x)
    ensures Filter(xs, p) == Filter(xs, q)
    decreases |xs|
  {
    if xs != [] {
      FilterCongruent(xs[1..], p, q);
    }
  }

  /** Counting after filtering is counting by the conjunction. */
  lemma CountFilter<T>(xs: seq<T>, p: T -> bool, q: T -> bool, pq: T -> bool)
    requires forall x :: pq(x) == (p(x) && q(x))
    ensures Count(Filter(xs, p), q) == Count(xs, pq)
  {
    FilterFilter(xs, p, q, pq);
    FilterCount(Filter(xs, p), q);
    FilterCount(xs, pq);
  }

  /** Replacing one element changes the count by what the two elements
      contribute. */
  lemma CountUpdate<T>(xs: seq<T>, i: nat, y: T, p: T -> bool)
    requires i < |xs|
    ensures Count(xs[i := y], p) + (if p(xs[i]) then 1 else 0) == Count(xs, p) + (if p(y) then 1 else 0)
  {
    assert xs == xs[..i] + [xs[i]] + xs[i + 1..];
    assert xs[i := y] == xs[..i] + [y] + xs[i + 1..];
    CountAppend(xs[..i] + [xs[i]], xs[i + 1..], p);
    CountAppend(xs[..i] + [y], xs[i + 1..], p);
    CountSnoc(xs[..i], xs[i], p);
    CountSnoc(xs[..i], y, p);
  }

  /** A sequence that differs from `xs` at most at `i` is `xs` with `i` replaced. */
  lemma ReplacedAt<T>(xs: seq<T>, ys: seq<T>, i: nat)
    requires i < |xs| == |ys|
    requires forall k :: 0 <= k < |xs| && k != i ==> ys[k] == xs[k]
    ensures ys == xs[i := ys[i]]
  {
  }

  /** The distinct elements in order of first appearance,
      `Array.from(new Set(xs))`. */
  function Dedup<T(==)>(xs: seq<T>): (r: seq<T>)
    ensures |r| <= |xs|
    ensures forall k :: 0 <= k < |r| ==> r[k] in xs
    ensures forall k :: 0 <= k < |xs| ==> xs[k] in r
    ensures forall i, j :: 0 <= i < j < |r| ==> r[i] != r[j]
    decreases |xs|
  {
    if xs == [] then []
    else
      var init := Dedup(xs[..|xs| - 1]);
      assert forall k :: 0 <= k < |xs| - 1 ==> xs[k] == xs[..|xs| - 1][k];
      if xs[|xs| - 1] in init then init else init + [xs[|xs| - 1]]
  }

  /** Appending an element appends it to the distinct elements when it is new. */
  lemma DedupSnoc<T>(xs: seq<T>, x: T)
    ensures Dedup(xs + [x]) == if x in Dedup(xs) then Dedup(xs) else Dedup(xs) + [x]
  {
    assert (xs + [x])[..|xs|] == xs;
  }

  /** A sequence of one repeated element deduplicates to that element. */
  lemma {:induction false} DedupConstant<T>(xs: seq<T>, x: T)
    requires |xs| > 0 && forall k :: 0 <= k < |xs| ==> xs[k] == x
    ensures Dedup(xs) == [x]
    decreases |xs|
  {
    var init := xs[..|xs| - 1];
    if init != [] {
      DedupConstant(init, x);
    }
  }

  /** Two different elements stay as they are. */
  lemma DedupPair<T>(a: T, b: T)
    requires a != b
    ensures Dedup([a, b]) == [a, b]
  {
    assert [a][..0] == [];
    assert Dedup([a]) == [a];
    assert [a, b][..1] == [a];
  }

  /** The set of elements of a sequence. */
  function Elements<T>(xs: seq<T>): set<T> {
    set x | x in xs
  }

  /** A sequence without repeats has as many elements as its set. */
  lemma {:induction false} DistinctSize<T>(r: seq<T>)
    requires forall i, j :: 0 <= i < j < |r| ==> r[i] != r[j]
    ensures |Elements(r)| == |r|
    decreases |r|
  {
    if r != [] {
      var rest := r[1..];
      assert forall i, j :: 0 <= i < j < |rest| ==> rest[i] == r[i + 1] && rest[j] == r[j + 1];
      DistinctSize(rest);
      assert Elements(r) == {r[0]} + Elements(rest);
      assert r[0] !in Elements(rest);
    }
  }

  /** The distinct elements number as many as the set of elements: the
      `size` of `new Set(xs)`. */
  lemma DedupSize<T>(xs: seq<T>)
    ensures |Dedup(xs)| == |Elements(xs)|
  {
    var r := Dedup(xs);
    assert Elements(r) == Elements(xs);
    DistinctSize(r);
  }
}
