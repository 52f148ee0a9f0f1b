/** `rank_related_files` of crisk.py: the post-processing of the scoring
    service's ranked list. */
module Relatedness {
  import opened Seqs

  /** One `{"filename": ..., "score": ...}` element of the service's `results`. */
  datatype Ranked = Ranked(filename: string, score: real)

  /** At most this many non-staged results are considered. */
  const MaxRelated := 10

  /** A considered result must score strictly above this. */
  const ScoreThreshold: real := 0.3

  /** The condition `r["filename"] not in staged_files`. */
  function Unstaged(staged: seq<string>): Ranked -> bool {
    (x: Ranked) => x.filename !in staged
  }

  /** `[r for r in results if r["filename"] not in staged_files]`: every
      non-staged result, as often as it occurs, in order. */
  function DropStaged(results: seq<Ranked>, staged: seq<string>): (r: seq<Ranked>)
    ensures forall k :: 0 <= k < |r| ==> r[k].filename !in staged
    ensures forall x :: multiset(r)[x] == if x.filename !in staged then multiset(results)[x] else 0
    ensures IsSubseq(r, results)
  {
    FilterIsSubseq(results, Unstaged(staged));
    Filter(results, Unstaged(staged))
  }

  predicate Relevant(x: Ranked) {
    x.score > ScoreThreshold
  }

  /** The related files of one ranking call: nothing unless the service
      answered 200; otherwise the non-staged results, cut to the first ten,
      and only then those scoring above the threshold. */
  function RankRelated(status: int, results: seq<Ranked>, staged: seq<string>): (related: seq<Ranked>)
    ensures status != 200 ==> related == []
    ensures |related| <= MaxRelated
    ensures forall k :: 0 <= k < |related| ==> related[k].filename !in staged && related[k].score > ScoreThreshold
    ensures IsSubseq(related, results)
  {
    if status != 200 then []
    else
      var candidates := DropStaged(results, staged);
      var top := Take(candidates, MaxRelated);
      FilterIsSubseq(top, Relevant);
      TakeIsSubseq(candidates, MaxRelated);
      SubseqTrans(Filter(top, Relevant), top, candidates);
      SubseqTrans(Filter(top, Relevant), candidates, results);
      Filter(top, Relevant)
  }

  /** A one-pass reading of the same rule: walking the results in order and
      counting the non-staged ones seen so far, a result is kept iff it is not
      staged, fewer than ten non-staged results precede it, and it scores
      above the threshold. */
  function SelectInOnePass(results: seq<Ranked>, staged: seq<string>, seen: nat): seq<Ranked> {
    if |results| == 0 then []
    else
      var x := results[0];
      if x.filename in staged then SelectInOnePass(results[1..], staged, seen)
      else (if seen < MaxRelated && Relevant(x) then [x] else [])
           + SelectInOnePass(results[1..], staged, seen + 1)
  }

  /** The three-stage pipeline of the source agrees with the one-pass rule. */
  lemma RankRelatedIsOnePass(results: seq<Ranked>, staged: seq<string>)
    ensures RankRelated(200, results, staged) == SelectInOnePass(results, staged, 0)
  {
    var candidates := DropStaged(results, staged);
    OnePassOnCandidates(results, staged, 0);
    TruncateThenFilter(candidates, staged, 0);
  }

  /** Skipping staged results first does not change the one-pass rule. */
  lemma {:induction false} OnePassOnCandidates(results: seq<Ranked>, staged: seq<string>, seen: nat)
    ensures SelectInOnePass(results, staged, seen) == SelectInOnePass(DropStaged(results, staged), staged, seen)
  {
    if |results| > 0 {
      var x := results[0];
      OnePassOnCandidates(results[1..], staged, if x.filename in staged then seen else seen + 1);
      var d := DropStaged(results, staged);
      if x.filename !in staged {
        assert d == [x] + DropStaged(results[1..], staged);
        assert d[1..] == DropStaged(results[1..], staged);
      }
    }
  }

  /** On a list without staged entries, the one-pass rule from `seen` keeps the
      relevant entries among the first `10 - seen`. */
  lemma {:induction false} TruncateThenFilter(candidates: seq<Ranked>, staged: seq<string>, seen: nat)
    requires forall k :: 0 <= k < |candidates| ==> candidates[k].filename !in staged
    ensures SelectInOnePass(candidates, staged, seen)
         == Filter(Take(candidates, if seen <= MaxRelated then MaxRelated - seen else 0), Relevant)
  {
    if |candidates| > 0 {
      TruncateThenFilter(candidates[1..], staged, seen + 1);
      if seen < MaxRelated {
        assert Take(candidates, MaxRelated - seen)[1..] == Take(candidates[1..], MaxRelated - seen - 1);
      }
    }
  }

  /** Ten weak unstaged results use up the cut of ten: nothing after them is
      reported, however strong. */
  lemma TruncationPrecedesThreshold(weak: seq<Ranked>, rest: seq<Ranked>, staged: seq<string>)
    requires |weak| == MaxRelated
    requires forall k :: 0 <= k < |weak| ==> weak[k].filename !in staged && !Relevant(weak[k])
    ensures RankRelated(200, weak + rest, staged) == []
  {
    FilterAppend(weak, rest, Unstaged(staged));
    FilterKeepsAll(weak, Unstaged(staged));
    var candidates := DropStaged(weak + rest, staged);
    assert candidates == weak + Filter(rest, Unstaged(staged));
    assert Take(candidates, MaxRelated) == weak;
    FilterDropsAll(weak, Relevant);
  }

  /** A non-staged result scoring above the threshold that leads the list is
      reported first. */
  lemma StrongLeaderReported(x: Ranked, rest: seq<Ranked>, staged: seq<string>)
    requires x.filename !in staged && Relevant(x)
    ensures var related := RankRelated(200, [x] + rest, staged);
      |related| > 0 && related[0] == x
  {
    var results := [x] + rest;
    assert results[0] == x && results[1..] == rest;
    var candidates := DropStaged(results, staged);
    assert candidates == [x] + Filter(rest, Unstaged(staged));
    var top := Take(candidates, MaxRelated);
    assert top[0] == x;
    assert Filter(top, Relevant) == [x] + Filter(top[1..], Relevant);
  }

  /** A staged result is dropped whatever its score, and a result at or below
      the threshold is dropped whatever its file. */
  lemma StagedAndWeakResultsDropped(status: int, results: seq<Ranked>, staged: seq<string>, x: Ranked)
    requires x.filename in staged || x.score <= ScoreThreshold
    ensures x !in RankRelated(status, results, staged)
  {
  }
}
