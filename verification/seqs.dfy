/** Sequence vocabulary shared by the pipeline's list comprehensions and
    insertion-ordered dictionaries. */
module Seqs {

  /** `[f(x) for x in xs]`: the projection the pipeline applies to file
      records to get their names. */
  function Map<T, U>(xs: seq<T>, f: T -> U): (ys: seq<U>)
    ensures |ys| == |xs|
    ensures forall k :: 0 <= k < |xs| ==> ys[k] == f(xs[k])
  {
    seq(|xs|, k requires 0 <= k < |xs| => f(xs[k]))
  }

  /** `a` is an order-preserving subsequence of `b`: `a` is `b` with some
      elements dropped (greedy matching is complete for this relation). */
  predicate IsSubseq<T(==)>(a: seq<T>, b: seq<T>)
    decreases |b|
  {
    if |a| == 0 then true
    else if |b| == 0 then false
    else if a[0] == b[0] then IsSubseq(a[1..], b[1..])
    else IsSubseq(a, b[1..])
  }

  /** Prepending an element to the longer sequence keeps a subsequence a subsequence. */
  lemma {:induction false} SubseqCons<T>(a: seq<T>, b: seq<T>, x: T)
    requires IsSubseq(a, b)
    ensures IsSubseq(a, [x] + b)
    decreases |b|, 1
  {
    var c := [x] + b;
    assert c[1..] == b;
    if |a| > 0 && a[0] == x {
      SubseqTail(a, b);
    }
  }

  /** Dropping the first element of a subsequence keeps it a subsequence. */
  lemma {:induction false} SubseqTail<T>(a: seq<T>, b: seq<T>)
    requires |a| > 0 && IsSubseq(a, b)
    ensures IsSubseq(a[1..], b)
    decreases |b|, 0
  {
    assert |b| > 0;
    if a[0] == b[0] {
      SubseqCons(a[1..], b[1..], b[0]);
      assert [b[0]] + b[1..] == b;
    } else {
      SubseqTail(a, b[1..]);
      SubseqCons(a[1..], b[1..], b[0]);
      assert [b[0]] + b[1..] == b;
    }
  }

  /** Python's `[x for x in xs if p(x)]`. */
  function Filter<T(!new)>(xs: seq<T>, p: T -> bool): (r: seq<T>)
    ensures |r| <= |xs|
    ensures forall k :: 0 <= k < |r| ==> p(r[k]) && r[k] in xs
    ensures forall k :: 0 <= k < |xs| && p(xs[k]) ==> xs[k] in r
    ensures forall x :: multiset(r)[x] == if p(x) then multiset(xs)[x] else 0
  {
    if |xs| == 0 then []
    else
      assert xs == [xs[0]] + xs[1..];
      if p(xs[0]) then [xs[0]] + Filter(xs[1..], p)
      else Filter(xs[1..], p)
  }

  /** Filtering distributes over concatenation. */
  lemma {:induction false} FilterAppend<T(!new)>(a: seq<T>, b: seq<T>, p: T -> bool)
    ensures Filter(a + b, p) == Filter(a, p) + Filter(b, p)
  {
    if |a| > 0 {
      assert (a + b)[0] == a[0] && (a + b)[1..] == a[1..] + b;
      FilterAppend(a[1..], b, p);
    } else {
      assert a + b == b;
    }
  }

  /** A filtered list keeps the relative order of what it keeps. */
  lemma {:induction false} FilterIsSubseq<T(!new)>(xs: seq<T>, p: T -> bool)
    ensures IsSubseq(Filter(xs, p), xs)
  {
    if |xs| > 0 {
      FilterIsSubseq(xs[1..], p);
      if !p(xs[0]) {
        SubseqCons(Filter(xs[1..], p), xs[1..], xs[0]);
        assert [xs[0]] + xs[1..] == xs;
      }
    }
  }

  /** Every element of a subsequence occurs in the sequence. */
  lemma {:induction false} SubseqElements<T>(a: seq<T>, b: seq<T>, k: nat)
    requires IsSubseq(a, b) && k < |a|
    ensures a[k] in b
    decreases |b|
  {
    assert |b| > 0;
    if a[0] == b[0] {
      if k > 0 {
        SubseqElements(a[1..], b[1..], k - 1);
      }
    } else {
      SubseqElements(a, b[1..], k);
    }
  }

  /** Filtering by a predicate every element satisfies keeps everything. */
  lemma {:induction false} FilterKeepsAll<T(!new)>(xs: seq<T>, p: T -> bool)
    requires forall k :: 0 <= k < |xs| ==> p(xs[k])
    ensures Filter(xs, p) == xs
  {
    if |xs| > 0 {
      FilterKeepsAll(xs[1..], p);
    }
  }

  /** Python's `xs[:n]` for `n >= 0`. */
  function Take<T>(xs: seq<T>, n: nat): (r: seq<T>)
    ensures |r| == if n <= |xs| then n else |xs|
    ensures r == xs[..|r|]
  {
    if n <= |xs| then xs[..n] else xs
  }

  /** Where Python's slice bound `x` lands in a sequence of length `len`: a
      negative bound counts from the end, and both kinds are clamped. */
  function SliceBound(len: nat, x: int): (b: nat)
    ensures b <= len
    ensures 0 <= x ==> b == if x < len then x else len
    ensures x < 0 ==> b == if len + x < 0 then 0 else len + x
  {
    if x < 0 then (if len + x < 0 then 0 else len + x) else if x < len then x else len
  }

  /** Python's `xs[lo:hi]`: the elements from bound `lo` up to bound `hi`, none
      when `hi` does not lie after `lo`. */
  function Slice<T>(xs: seq<T>, lo: int, hi: int): (r: seq<T>)
    ensures var a, b := SliceBound(|xs|, lo), SliceBound(|xs|, hi);
      && |r| == (if a < b then b - a else 0)
      && forall k :: 0 <= k < |r| ==> r[k] == xs[a + k]
  {
    var a, b := SliceBound(|xs|, lo), SliceBound(|xs|, hi);
    if a < b then xs[a..b] else []
  }

  /** A prefix is a subsequence. */
  lemma {:induction false} TakeIsSubseq<T>(xs: seq<T>, n: nat)
    ensures IsSubseq(Take(xs, n), xs)
  {
    var t := Take(xs, n);
    if |t| > 0 {
      TakeIsSubseq(xs[1..], n - 1);
      assert t[1..] == Take(xs[1..], n - 1);
    }
  }

  /** Subsequences compose. */
  lemma {:induction false} SubseqTrans<T>(a: seq<T>, b: seq<T>, c: seq<T>)
    requires IsSubseq(a, b) && IsSubseq(b, c)
    ensures IsSubseq(a, c)
    decreases |c|
  {
    if |a| > 0 {
      assert |b| > 0 && |c| > 0;
      if b[0] == c[0] {
        if a[0] == b[0] {
          SubseqTrans(a[1..], b[1..], c[1..]);
        } else {
          SubseqTrans(a, b[1..], c[1..]);
          SubseqCons(a, c[1..], c[0]);
          assert [c[0]] + c[1..] == c;
        }
      } else {
        SubseqTrans(a, b, c[1..]);
        SubseqCons(a, c[1..], c[0]);
        assert [c[0]] + c[1..] == c;
      }
    }
  }

  /** Filtering by a predicate no element satisfies keeps nothing. */
  lemma {:induction false} FilterDropsAll<T(!new)>(xs: seq<T>, p: T -> bool)
    requires forall k :: 0 <= k < |xs| ==> !p(xs[k])
    ensures Filter(xs, p) == []
  {
    if |xs| > 0 {
      FilterDropsAll(xs[1..], p);
    }
  }

  /** The elements of `xs` occur at most once each. */
  predicate Distinct<T(==)>(xs: seq<T>) {
    forall i, j :: 0 <= i < j < |xs| ==> xs[i] != xs[j]
  }

  /** Position of the first occurrence of `x` in `xs`. */
  function FirstIndex<T(==)>(xs: seq<T>, x: T): (i: nat)
    requires x in xs
    ensures i < |xs| && xs[i] == x
    ensures forall j :: 0 <= j < i ==> xs[j] != x
  {
    if xs[0] == x then 0 else 1 + FirstIndex(xs[1..], x)
  }

  /** Any position holding the first occurrence of `x` is `FirstIndex`. */
  lemma {:induction false} FirstIndexUnique<T>(xs: seq<T>, x: T, i: nat)
    requires i < |xs| && xs[i] == x
    requires forall j :: 0 <= j < i ==> xs[j] != x
    ensures FirstIndex(xs, x) == i
    decreases i
  {
    if i > 0 {
      assert xs[0] != x;
      assert forall j :: 0 <= j < i - 1 ==> xs[1..][j] == xs[j + 1];
      FirstIndexUnique(xs[1..], x, i - 1);
    }
  }

  /** `keys` lists the distinct elements of `xs` in the order in which they
      first appear there: the key order of a Python dict filled from `xs`. */
  predicate InFirstAppearanceOrder<T(==)>(keys: seq<T>, xs: seq<T>) {
    && Distinct(keys)
    && (forall k :: 0 <= k < |keys| ==> keys[k] in xs)
    && (forall k :: 0 <= k < |xs| ==> xs[k] in keys)
    && forall i, j :: 0 <= i < j < |keys| ==> FirstIndex(xs, keys[i]) < FirstIndex(xs, keys[j])
  }

  /** A non-empty sequence is its prefix plus its last element, as a multiset
      and for membership. */
  lemma SplitLast<T>(xs: seq<T>)
    requires |xs| > 0
    ensures multiset(xs) == multiset(xs[..|xs| - 1]) + multiset{xs[|xs| - 1]}
    ensures forall y :: y in xs <==> y in xs[..|xs| - 1] || y == xs[|xs| - 1]
  {
    assert xs == xs[..|xs| - 1] + [xs[|xs| - 1]];
  }

  /** Extending `xs` by its last element extends the first-appearance order of
      the prefix by that element exactly when it is new. */
  lemma FirstAppearanceAppend<T>(keys: seq<T>, xs: seq<T>)
    requires |xs| > 0
    requires InFirstAppearanceOrder(keys, xs[..|xs| - 1])
    ensures var x := xs[|xs| - 1];
      InFirstAppearanceOrder(if x in keys then keys else keys + [x], xs)
  {
    var pre := xs[..|xs| - 1];
    var x := xs[|xs| - 1];
    assert xs == pre + [x];
    if x in keys {
      FirstAppearanceSeen(keys, pre, x);
    } else {
      FirstAppearanceNew(keys, pre, x);
    }
  }

  /** Appending an element keeps the first occurrence of every element of the prefix. */
  lemma FirstIndexAppend<T>(pre: seq<T>, x: T, y: T)
    requires y in pre
    ensures y in pre + [x] && FirstIndex(pre + [x], y) == FirstIndex(pre, y)
  {
    var i := FirstIndex(pre, y);
    assert (pre + [x])[i] == y;
    assert forall j :: 0 <= j < i ==> (pre + [x])[j] == pre[j];
    FirstIndexUnique(pre + [x], y, i);
  }

  lemma FirstAppearanceSeen<T>(keys: seq<T>, pre: seq<T>, x: T)
    requires InFirstAppearanceOrder(keys, pre) && x in keys
    ensures InFirstAppearanceOrder(keys, pre + [x])
  {
    var xs := pre + [x];
    forall k | 0 <= k < |keys|
      ensures keys[k] in xs && FirstIndex(xs, keys[k]) == FirstIndex(pre, keys[k])
    {
      FirstIndexAppend(pre, x, keys[k]);
    }
    forall k | 0 <= k < |xs| ensures xs[k] in keys {
      if k < |pre| {
        assert xs[k] == pre[k];
      }
    }
  }

  lemma FirstAppearanceNew<T>(keys: seq<T>, pre: seq<T>, x: T)
    requires InFirstAppearanceOrder(keys, pre) && x !in keys
    ensures InFirstAppearanceOrder(keys + [x], pre + [x])
  {
    var xs := pre + [x];
    var ks := keys + [x];
    assert x !in pre;
    forall k | 0 <= k < |keys|
      ensures keys[k] in xs && FirstIndex(xs, keys[k]) == FirstIndex(pre, keys[k])
    {
      FirstIndexAppend(pre, x, keys[k]);
    }
    assert forall j :: 0 <= j < |pre| ==> xs[j] == pre[j];
    FirstIndexUnique(xs, x, |pre|);
    forall k | 0 <= k < |xs| ensures xs[k] in ks {
      if k < |pre| {
        assert xs[k] == pre[k];
      }
    }
    forall i, j | 0 <= i < j < |ks|
      ensures ks[i] != ks[j] && FirstIndex(xs, ks[i]) < FirstIndex(xs, ks[j])
    {
      assert ks[i] == keys[i];
      if j < |keys| {
        assert ks[j] == keys[j];
      }
    }
    assert forall k :: 0 <= k < |ks| ==> ks[k] in xs;
  }

  /** The distinct elements of `xs` in the order of their first appearance,
      built the way a Python dict collects keys while scanning `xs`. */
  function Dedup<T(==)>(xs: seq<T>): seq<T>
  {
    if |xs| == 0 then []
    else
      var d := Dedup(xs[..|xs| - 1]);
      if xs[|xs| - 1] in d then d else d + [xs[|xs| - 1]]
  }

  /** `Dedup` lists each element of `xs` once, ordered by first occurrence. */
  lemma {:induction false} DedupOrder<T>(xs: seq<T>)
    ensures InFirstAppearanceOrder(Dedup(xs), xs)
  {
    if |xs| > 0 {
      DedupOrder(xs[..|xs| - 1]);
      FirstAppearanceAppend(Dedup(xs[..|xs| - 1]), xs);
    }
  }
}
