/** The "Recipients" listing shown with a draft message: related files grouped
    under their owners in an insertion-ordered dict. */
module Recipients {
  import opened Wrappers
  import opened Seqs
  import opened OrderedMap

  /** A related file together with the owner resolved for it. */
  datatype Owned = Owned(filename: string, owner: string)

  function Owners(xs: seq<Owned>): (os: seq<string>)
    ensures |os| == |xs|
    ensures forall k :: 0 <= k < |xs| ==> os[k] == xs[k].owner
  {
    if |xs| == 0 then [] else Owners(xs[..|xs| - 1]) + [xs[|xs| - 1].owner]
  }

  function Filenames(xs: seq<Owned>): (fs: seq<string>)
    ensures |fs| == |xs|
    ensures forall k :: 0 <= k < |xs| ==> fs[k] == xs[k].filename
  {
    if |xs| == 0 then [] else Filenames(xs[..|xs| - 1]) + [xs[|xs| - 1].filename]
  }

  /** Reference: the filenames of the files owned by `o`, in their original
      relative order. */
  function FilesOf(xs: seq<Owned>, o: string): (fs: seq<string>)
    ensures |fs| == multiset(Owners(xs))[o]
  {
    if |xs| == 0 then []
    else
      var pre := xs[..|xs| - 1];
      assert Owners(xs) == Owners(pre) + [xs[|xs| - 1].owner];
      FilesOf(pre, o) + if xs[|xs| - 1].owner == o then [xs[|xs| - 1].filename] else []
  }

  /** The grouping loop: `owners.setdefault(r["owner"], []).append(r["filename"])`
      for each related file in turn. */
  function GroupByOwner(xs: seq<Owned>): Entries<string, seq<string>> {
    if |xs| == 0 then []
    else
      var g := GroupByOwner(xs[..|xs| - 1]);
      var r := xs[|xs| - 1];
      Put(g, r.owner, Get(g, r.owner).GetOr([]) + [r.filename])
  }

  /** Owners are listed in the order they first own a related file. */
  lemma {:induction false} GroupByOwnerKeys(xs: seq<Owned>)
    ensures Keys(GroupByOwner(xs)) == Dedup(Owners(xs))
  {
    if |xs| > 0 {
      var pre := xs[..|xs| - 1];
      var r := xs[|xs| - 1];
      var g := GroupByOwner(pre);
      var v := Get(g, r.owner).GetOr([]) + [r.filename];
      assert Put(g, r.owner, v) == GroupByOwner(xs);
      assert Owners(xs) == Owners(pre) + [r.owner];
      assert Owners(xs)[..|xs| - 1] == Owners(pre);
      GroupByOwnerKeys(pre);
      PutKeys(g, r.owner, v);
    }
  }

  lemma GroupByOwnerOrder(xs: seq<Owned>)
    ensures InFirstAppearanceOrder(Keys(GroupByOwner(xs)), Owners(xs))
  {
    GroupByOwnerKeys(xs);
    DedupOrder(Owners(xs));
  }

  /** Each owner's list holds exactly that owner's files in their original
      order, and nobody else appears. */
  lemma {:induction false} GroupByOwnerValue(xs: seq<Owned>, o: string)
    ensures Get(GroupByOwner(xs), o) == if o in Owners(xs) then Some(FilesOf(xs, o)) else None
  {
    if |xs| > 0 {
      var pre := xs[..|xs| - 1];
      var r := xs[|xs| - 1];
      var g := GroupByOwner(pre);
      var v := Get(g, r.owner).GetOr([]) + [r.filename];
      assert Put(g, r.owner, v) == GroupByOwner(xs);
      assert Owners(xs) == Owners(pre) + [r.owner];
      GroupByOwnerValue(pre, o);
      if o != r.owner {
        assert Get(GroupByOwner(xs), o) == Get(g, o);
        assert o in Owners(xs) <==> o in Owners(pre);
        assert FilesOf(pre, o) + [] == FilesOf(pre, o);
        assert FilesOf(xs, o) == FilesOf(pre, o);
      } else {
        assert FilesOf(xs, o) == FilesOf(pre, o) + [r.filename];
        if o !in Owners(pre) {
          assert multiset(Owners(pre))[o] == 0;
        }
      }
    }
  }

  lemma GroupByOwnerValues(xs: seq<Owned>)
    ensures forall o :: Get(GroupByOwner(xs), o)
                      == if o in Owners(xs) then Some(FilesOf(xs, o)) else None
  {
    forall o {
      GroupByOwnerValue(xs, o);
    }
  }

  /** Every related file is listed exactly once across all owners. */
  lemma {:induction false} GroupByOwnerListsEachFileOnce(xs: seq<Owned>)
    ensures multiset(Flatten(GroupByOwner(xs))) == multiset(Filenames(xs))
  {
    if |xs| > 0 {
      var pre := xs[..|xs| - 1];
      var r := xs[|xs| - 1];
      var g := GroupByOwner(pre);
      var old_ := Get(g, r.owner).GetOr([]);
      assert Put(g, r.owner, old_ + [r.filename]) == GroupByOwner(xs);
      assert Filenames(xs) == Filenames(pre) + [r.filename];
      GroupByOwnerListsEachFileOnce(pre);
      PutFlatten(g, r.owner, old_ + [r.filename]);
      var flat, prev, last := multiset(Flatten(g)), multiset(old_), multiset([r.filename]);
      calc {
        multiset(Flatten(GroupByOwner(xs))) + prev;
        flat + multiset(old_ + [r.filename]);
        flat + (prev + last);
        (flat + last) + prev;
      }
      MultisetCancel(multiset(Flatten(GroupByOwner(xs))), flat + last, prev);
    }
  }

  /** Multiset addition cancels. */
  lemma MultisetCancel<T>(a: multiset<T>, b: multiset<T>, c: multiset<T>)
    requires a + c == b + c
    ensures a == b
  {
    forall x ensures a[x] == b[x] {
      assert (a + c)[x] == (b + c)[x];
    }
  }
}
