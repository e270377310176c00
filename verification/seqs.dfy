/** Order-preserving sequence operations shared by the three scripts:
    `Array.prototype.filter`, de-duplication in first-occurrence order (both
    `Array.from(new Set(xs))` and the `includes`/`push` idiom), and the
    subsequence relation used to say that a result keeps its input's order. */
module Seqs {

  predicate NoDuplicates<T(==)>(xs: seq<T>) {
    forall i, j :: 0 <= i < j < |xs| ==> xs[i] != xs[j]
  }

  /** `a` can be obtained from `b` by deleting elements, keeping the order of
      the rest (matching greedily from the front decides this). */
  predicate SubsequenceOf<T(==)>(a: seq<T>, b: seq<T>)
    decreases |b|
  {
    if |a| == 0 then true
    else if |b| == 0 then false
    else if a[0] == b[0] then SubsequenceOf(a[1..], b[1..])
    else SubsequenceOf(a, b[1..])
  }

  lemma {:induction false} SubsequenceOfSelf<T>(xs: seq<T>)
    ensures SubsequenceOf(xs, xs)
    decreases |xs|
  {
    if |xs| > 0 {
      SubsequenceOfSelf(xs[1..]);
    }
  }

  /** `xs.filter(p)`: the elements satisfying `p`; `FilterCounts` and
      `FilterKeepsOrder` say each is kept as often as in `xs` and in its
      original order. */
  function Filter<T(==,!new)>(xs: seq<T>, p: T -> bool): (r: seq<T>)
    ensures |r| <= |xs|
    ensures forall i :: 0 <= i < |r| ==> p(r[i])
    ensures forall x :: x in r <==> x in xs && p(x)
    decreases |xs|
  {
    if |xs| == 0 then []
    else
      var rest := Filter(xs[1..], p);
      if p(xs[0]) then [xs[0]] + rest else rest
  }

  /** Every element passing `p` is kept as often as it occurs; the rest are
      dropped. */
  lemma {:induction false} FilterCounts<T(!new)>(xs: seq<T>, p: T -> bool, x: T)
    ensures multiset(Filter(xs, p))[x] == if p(x) then multiset(xs)[x] else 0
    decreases |xs|
  {
    if |xs| > 0 {
      FilterCounts(xs[1..], p, x);
      assert xs == [xs[0]] + xs[1..];
    }
  }

  /** The kept elements stay in their original order. */
  lemma {:induction false} FilterKeepsOrder<T(!new)>(xs: seq<T>, p: T -> bool)
    ensures SubsequenceOf(Filter(xs, p), xs)
    decreases |xs|
  {
    if |xs| > 0 {
      FilterKeepsOrder(xs[1..], p);
      var rest := Filter(xs[1..], p);
      if p(xs[0]) {
        assert ([xs[0]] + rest)[1..] == rest;
      } else {
        assert rest == [] || rest[0] != xs[0];
      }
    }
  }

  lemma {:induction false} FilterAppend<T(!new)>(a: seq<T>, b: seq<T>, p: T -> bool)
    ensures Filter(a + b, p) == Filter(a, p) + Filter(b, p)
    decreases |a|
  {
    if |a| == 0 {
      assert a + b == b;
    } else {
      assert (a + b)[1..] == a[1..] + b;
      FilterAppend(a[1..], b, p);
    }
  }

  /** Filtering keeps everything exactly when every element passes. */
  lemma {:induction false} FilterKeepsAll<T(!new)>(xs: seq<T>, p: T -> bool)
    ensures Filter(xs, p) == xs <==> forall i :: 0 <= i < |xs| ==> p(xs[i])
    decreases |xs|
  {
    if |xs| > 0 {
      FilterKeepsAll(xs[1..], p);
      if !p(xs[0]) {
        assert |Filter(xs, p)| < |xs|;
      }
    }
  }

  /** Filtering a second time by the same predicate changes nothing. */
  lemma FilterIdempotent<T(!new)>(xs: seq<T>, p: T -> bool)
    ensures Filter(Filter(xs, p), p) == Filter(xs, p)
  {
    FilterKeepsAll(Filter(xs, p), p);
  }

  /** `xs.map(f)`: `f` applied to each element, in order. */
  function Map<T, U>(xs: seq<T>, f: T -> U): (r: seq<U>)
    ensures |r| == |xs|
    ensures forall i :: 0 <= i < |xs| ==> r[i] == f(xs[i])
  {
    seq(|xs|, i requires 0 <= i < |xs| => f(xs[i]))
  }

  lemma MapAppend<T, U>(a: seq<T>, b: seq<T>, f: T -> U)
    ensures Map(a + b, f) == Map(a, f) + Map(b, f)
  {
  }

  /** Filtering then mapping a sequence extended by one element. */
  lemma FilterMapSnoc<T(!new), U>(xs: seq<T>, x: T, p: T -> bool, f: T -> U)
    ensures Map(Filter(xs + [x], p), f) == Map(Filter(xs, p), f) + (if p(x) then [f(x)] else [])
  {
    FilterAppend(xs, [x], p);
    MapAppend(Filter(xs, p), Filter([x], p), f);
    assert Filter([x], p) == if p(x) then [x] else [];
  }

  /** `acc.includes(x) ? acc : [...acc, x]`, and likewise `Set.prototype.add`
      on an insertion-ordered set. */
  function AddIfAbsent<T(==)>(acc: seq<T>, x: T): seq<T> {
    if x in acc then acc else acc + [x]
  }

  /** The position where `x` first occurs in `xs`. */
  function FirstIndex<T(==)>(xs: seq<T>, x: T): (i: nat)
    requires x in xs
    ensures i < |xs| && xs[i] == x && x !in xs[..i]
  {
    if xs[0] == x then 0
    else
      var i := FirstIndex(xs[1..], x);
      assert xs[..i + 1] == [xs[0]] + xs[1..][..i];
      i + 1
  }

  lemma FirstIndexOfPrefix<T>(xs: seq<T>, x: T, n: nat)
    requires n <= |xs| && x in xs[..n]
    ensures FirstIndex(xs[..n], x) == FirstIndex(xs, x)
  {
    var i := FirstIndex(xs[..n], x);
    var k := FirstIndex(xs, x);
    assert xs[..n][..i] == xs[..i];
  }

  /** The distinct elements of `xs`, each once, ordered by first occurrence:
      folding `AddIfAbsent` over `xs` from the left. */
  function Distinct<T(==,!new)>(xs: seq<T>): (r: seq<T>)
    ensures |r| <= |xs|
    ensures NoDuplicates(r)
    ensures forall x :: x in r <==> x in xs
    ensures forall i, j :: 0 <= i < j < |r| ==> FirstIndex(xs, r[i]) < FirstIndex(xs, r[j])
    decreases |xs|
  {
    if |xs| == 0 then []
    else
      var init := xs[..|xs| - 1];
      var x := xs[|xs| - 1];
      var d := Distinct(init);
      assert xs == init + [x];
      DistinctStep(init, x, d);
      AddIfAbsent(d, x)
  }

  lemma DistinctStep<T>(init: seq<T>, x: T, d: seq<T>)
    requires NoDuplicates(d)
    requires forall y :: y in d <==> y in init
    requires forall i, j :: 0 <= i < j < |d| ==> FirstIndex(init, d[i]) < FirstIndex(init, d[j])
    ensures var xs := init + [x];
            var r := AddIfAbsent(d, x);
            && NoDuplicates(r)
            && (forall y :: y in r <==> y in xs)
            && (forall i, j :: 0 <= i < j < |r| ==> FirstIndex(xs, r[i]) < FirstIndex(xs, r[j]))
  {
    var xs := init + [x];
    var r := AddIfAbsent(d, x);
    forall y | y in init
      ensures FirstIndex(xs, y) == FirstIndex(init, y)
    {
      PrefixOfSnoc(init, x);
      FirstIndexOfPrefix(xs, y, |init|);
    }
    if x !in init {
      assert xs[|init|] == x;
      assert x !in xs[..|init|] by { PrefixOfSnoc(init, x); }
      assert FirstIndex(xs, x) == |init|;
      assert forall i :: 0 <= i < |d| ==> FirstIndex(xs, d[i]) < |init|;
    }
  }

  lemma PrefixOfSnoc<T>(init: seq<T>, x: T)
    ensures (init + [x])[..|init|] == init
  {
  }

  /** A sequence without repeats is its own de-duplication. */
  lemma {:induction false} DistinctOfDistinct<T(!new)>(xs: seq<T>)
    requires NoDuplicates(xs)
    ensures Distinct(xs) == xs
    decreases |xs|
  {
    if |xs| > 0 {
      var init := xs[..|xs| - 1];
      var x := xs[|xs| - 1];
      LastIsNew(xs);
      DistinctOfDistinct(init);
      DistinctUnfold(xs);
      SnocOfLast(xs);
    }
  }

  lemma SnocOfLast<T>(xs: seq<T>)
    requires |xs| > 0
    ensures xs[..|xs| - 1] + [xs[|xs| - 1]] == xs
  {
  }

  /** Without repeats, the last element is new and the rest has no repeats. */
  lemma LastIsNew<T>(xs: seq<T>)
    requires |xs| > 0 && NoDuplicates(xs)
    ensures NoDuplicates(xs[..|xs| - 1]) && xs[|xs| - 1] !in xs[..|xs| - 1]
  {
    var init := xs[..|xs| - 1];
    forall i, j | 0 <= i < j < |init|
      ensures init[i] != init[j]
    {
      assert init[i] == xs[i] && init[j] == xs[j];
    }
    forall k | 0 <= k < |init|
      ensures init[k] != xs[|xs| - 1]
    {
      assert init[k] == xs[k];
    }
  }

  lemma DistinctUnfold<T(!new)>(xs: seq<T>)
    requires |xs| > 0
    ensures Distinct(xs) == AddIfAbsent(Distinct(xs[..|xs| - 1]), xs[|xs| - 1])
  {
  }

  /** De-duplicating twice is the same as de-duplicating once. */
  lemma DistinctIdempotent<T(!new)>(xs: seq<T>)
    ensures Distinct(Distinct(xs)) == Distinct(xs)
  {
    DistinctOfDistinct(Distinct(xs));
  }

  /** Appending an element extends the de-duplication the way the
      `includes`/`push` loop does. */
  lemma DistinctSnoc<T(!new)>(xs: seq<T>, x: T)
    ensures Distinct(xs + [x]) == AddIfAbsent(Distinct(xs), x)
  {
    assert (xs + [x])[..|xs|] == xs;
  }
}
