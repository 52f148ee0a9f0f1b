/** Python's insertion-ordered `dict`, as a sequence of (key, value) entries
    whose keys are distinct and kept in first-insertion order. */
module OrderedMap {
  import opened Wrappers
  import opened Seqs

  type Entries<K, V> = seq<(K, V)>

  function Keys<K, V>(m: Entries<K, V>): (ks: seq<K>)
    ensures |ks| == |m|
  {
    if |m| == 0 then [] else [m[0].0] + Keys(m[1..])
  }

  /** Python's `d.get(k)`. */
  function Get<K(==), V>(m: Entries<K, V>, k: K): (r: Option<V>)
    ensures r.None? <==> k !in Keys(m)
  {
    if |m| == 0 then None
    else if m[0].0 == k then Some(m[0].1)
    else Get(m[1..], k)
  }

  /** With distinct keys, looking up the key of an entry finds that entry's value. */
  lemma {:induction false} GetEntry<K, V>(m: Entries<K, V>, i: nat)
    requires Distinct(Keys(m)) && i < |m|
    ensures Get(m, m[i].0) == Some(m[i].1)
  {
    if i > 0 {
      assert Keys(m)[0] != Keys(m)[i];
      assert Keys(m[1..]) == Keys(m)[1..];
      GetEntry(m[1..], i - 1);
    }
  }

  /** Python's `d[k] = v`: afterwards `k` maps to `v` and every other key keeps
      its value. */
  function Put<K(==, !new), V>(m: Entries<K, V>, k: K, v: V): (m': Entries<K, V>)
    ensures Get(m', k) == Some(v)
    ensures forall j :: j != k ==> Get(m', j) == Get(m, j)
  {
    if |m| == 0 then [(k, v)]
    else if m[0].0 == k then [(k, v)] + m[1..]
    else [m[0]] + Put(m[1..], k, v)
  }

  /** An existing key keeps its position under `Put`; a new key is appended
      at the end, which is what makes a Python dict insertion-ordered. */
  lemma {:induction false} PutKeys<K(!new), V>(m: Entries<K, V>, k: K, v: V)
    ensures k in Keys(m) ==> Keys(Put(m, k, v)) == Keys(m)
    ensures k !in Keys(m) ==> Keys(Put(m, k, v)) == Keys(m) + [k]
  {
    if |m| > 0 && m[0].0 != k {
      PutKeys(m[1..], k, v);
      assert ([m[0]] + Put(m[1..], k, v))[1..] == Put(m[1..], k, v);
    } else if |m| > 0 {
      assert ([(k, v)] + m[1..])[1..] == m[1..];
    }
  }

  /** Putting under a key never breaks key distinctness. */
  lemma PutDistinct<K(!new), V>(m: Entries<K, V>, k: K, v: V)
    requires Distinct(Keys(m))
    ensures Distinct(Keys(Put(m, k, v)))
  {
    PutKeys(m, k, v);
  }

  /** The counting idiom `d[x] = d.get(x, 0) + 1` applied to each element of
      `xs` in turn, starting from an empty dict. */
  function CountOccurrences<K(==, !new)>(xs: seq<K>): Entries<K, nat>
  {
    if |xs| == 0 then []
    else
      var m := CountOccurrences(xs[..|xs| - 1]);
      var x := xs[|xs| - 1];
      Put(m, x, Get(m, x).GetOr(0) + 1)
  }

  /** The counting dict holds, for every element of `xs` and nothing else, its
      number of occurrences. */
  lemma {:induction false} CountOccurrencesValues<K(!new)>(xs: seq<K>)
    ensures forall x :: Get(CountOccurrences(xs), x) == if x in xs then Some(multiset(xs)[x]) else None
  {
    if |xs| > 0 {
      CountOccurrencesValues(xs[..|xs| - 1]);
      CountStep(xs);
    }
  }

  /** One step of the counting idiom: if the dict holds the counts of all but
      the last element, counting the last one gives the counts of all of `xs`. */
  lemma CountStep<K(!new)>(xs: seq<K>)
    requires |xs| > 0
    requires var pre := xs[..|xs| - 1];
      forall y :: Get(CountOccurrences(pre), y) == if y in pre then Some(multiset(pre)[y]) else None
    ensures forall y :: Get(CountOccurrences(xs), y) == if y in xs then Some(multiset(xs)[y]) else None
  {
    var pre := xs[..|xs| - 1];
    var x := xs[|xs| - 1];
    var m := CountOccurrences(pre);
    var m' := Put(m, x, Get(m, x).GetOr(0) + 1);
    assert m' == CountOccurrences(xs);
    SplitLast(xs);
    forall y
      ensures Get(m', y) == if y in xs then Some(multiset(xs)[y]) else None
    {
      if y != x {
        assert Get(m', y) == Get(m, y);
      } else if x in pre {
        assert Get(m, x) == Some(multiset(pre)[x]);
      } else {
        assert multiset(pre)[x] == 0;
      }
    }
  }

  /** The counting dict collects its keys the way `Dedup` does. */
  lemma {:induction false} CountOccurrencesDedup<K(!new)>(xs: seq<K>)
    ensures Keys(CountOccurrences(xs)) == Dedup(xs)
  {
    if |xs| > 0 {
      var pre := xs[..|xs| - 1];
      var x := xs[|xs| - 1];
      var m := CountOccurrences(pre);
      var v := Get(m, x).GetOr(0) + 1;
      assert Put(m, x, v) == CountOccurrences(xs);
      CountOccurrencesDedup(pre);
      PutKeys(m, x, v);
    }
  }

  /** The counting dict's keys are the distinct elements of `xs` in
      first-appearance order. */
  lemma CountOccurrencesKeys<K(!new)>(xs: seq<K>)
    ensures InFirstAppearanceOrder(Keys(CountOccurrences(xs)), xs)
  {
    CountOccurrencesDedup(xs);
    DedupOrder(xs);
  }

  /** Entry `i` of a dict carries the `i`-th key. */
  lemma {:induction false} KeysIndex<K, V>(m: Entries<K, V>, i: nat)
    requires i < |m|
    ensures Keys(m)[i] == m[i].0
  {
    if i > 0 {
      KeysIndex(m[1..], i - 1);
    }
  }

  /** Python's `max(d, key=d.get)` as an index: the first entry whose value is
      maximal, since `max` replaces its candidate only on a strictly larger value. */
  function FirstMaxIndex<K>(m: Entries<K, nat>): (i: nat)
    requires |m| > 0
    ensures i < |m|
    ensures forall j :: 0 <= j < |m| ==> m[j].1 <= m[i].1
    ensures forall j :: 0 <= j < i ==> m[j].1 < m[i].1
  {
    if |m| == 1 then 0
    else
      var b := FirstMaxIndex(m[..|m| - 1]);
      if m[|m| - 1].1 > m[b].1 then |m| - 1 else b
  }

  /** All the lists held as values, concatenated in key order. */
  function Flatten<K, V>(m: Entries<K, seq<V>>): seq<V> {
    if |m| == 0 then [] else m[0].1 + Flatten(m[1..])
  }

  /** Replacing the list under `k` by `v` swaps the old list's elements for
      those of `v` in the flattened values and disturbs nothing else. */
  lemma {:induction false} PutFlatten<K(!new), V>(m: Entries<K, seq<V>>, k: K, v: seq<V>)
    ensures multiset(Flatten(Put(m, k, v))) + multiset(Get(m, k).GetOr([]))
         == multiset(Flatten(m)) + multiset(v)
  {
    if |m| == 0 {
      assert Put(m, k, v) == [(k, v)];
      assert [(k, v)][1..] == [];
      assert Flatten(Put(m, k, v)) == v;
    } else if m[0].0 != k {
      var rest := Put(m[1..], k, v);
      assert Put(m, k, v) == [m[0]] + rest;
      assert ([m[0]] + rest)[1..] == rest;
      assert multiset(Flatten(Put(m, k, v))) == multiset(m[0].1) + multiset(Flatten(rest));
      assert multiset(Flatten(m)) == multiset(m[0].1) + multiset(Flatten(m[1..]));
      var prev := Get(m[1..], k).GetOr([]);
      assert Get(m, k).GetOr([]) == prev;
      PutFlatten(m[1..], k, v);
      var head, tail := multiset(m[0].1), multiset(Flatten(m[1..]));
      calc {
        multiset(Flatten(Put(m, k, v))) + multiset(Get(m, k).GetOr([]));
        (head + multiset(Flatten(rest))) + multiset(prev);
        head + (multiset(Flatten(rest)) + multiset(prev));
        head + (tail + multiset(v));
        (head + tail) + multiset(v);
        multiset(Flatten(m)) + multiset(v);
      }
    } else {
      assert Put(m, k, v) == [(k, v)] + m[1..];
      assert ([(k, v)] + m[1..])[1..] == m[1..];
      assert multiset(Flatten(Put(m, k, v))) == multiset(v) + multiset(Flatten(m[1..]));
      assert multiset(Flatten(m)) == multiset(m[0].1) + multiset(Flatten(m[1..]));
    }
  }
}
