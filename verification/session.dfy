/** What the two `check` commands share: the outside effects they perform, in
    order, the report they end with, and the reading of the draft prompt. */
module Session {
  import opened Wrappers
  import opened PyStr
  import opened OrderedMap
  import opened Recipients
  import opened Seqs
  import Inspector
  import Ownership

  /** An interaction with the outside world, in the order the command makes
      it: a `git` query, a network request, a blame run or the terminal prompt. */
  datatype Effect =
    | StagedDiff
    | StagedList
    | RemoteUrl
    | HeadRevision
    | TrackedFiles
    | RankRequest
    | BackendPost
    | Blame(path: string)
    | Prompt
    | DraftRequest

  /** One printed line of the impact report. */
  datatype ReportedFile = ReportedFile(filename: string, score: real, owner: string)

  /** The draft message and the recipients listing printed under it. */
  datatype Draft = Draft(message: string, recipients: Entries<string, seq<string>>)

  /** Where a run stops. */
  datatype Outcome =
    | Usage
    | NotAuthenticated
    | NoStagedChanges
    | BackendFailed
    | Isolated
    | Reported(files: seq<ReportedFile>, draft: Option<Draft>)

  datatype Run = Run(exitCode: int, outcome: Outcome, effects: seq<Effect>)

  /** `input(...).strip().lower() == 'y'`, where `None` is end of input
      (`EOFError`), which counts as a refusal. */
  predicate ReplyAccepts(reply: Option<string>) {
    reply.Some? && Lower(Strip(reply.value)) == "y"
  }

  /** A single `y` or `Y`, with any whitespace around it, is an acceptance;
      an empty reply and end of input are not. */
  lemma ReplySpellings(pre: string, post: string)
    requires AllSpace(pre) && AllSpace(post)
    ensures ReplyAccepts(Some(pre + "y" + post))
    ensures ReplyAccepts(Some(pre + "Y" + post))
    ensures !ReplyAccepts(Some(""))
    ensures !ReplyAccepts(None)
  {
    StripSingle(pre, 'y', post);
    StripSingle(pre, 'Y', post);
    assert Lower("Y") == "y";
    StripAllSpace("");
  }

  /** The owner lookup of each related file, one blame run per file. */
  function Blames(paths: seq<string>): (effects: seq<Effect>)
    ensures |effects| == |paths|
    ensures forall k :: 0 <= k < |paths| ==> effects[k] == Blame(paths[k])
  {
    seq(|paths|, k requires 0 <= k < |paths| => Blame(paths[k]))
  }

  /** No blame run among `effects`. */
  predicate NoOwnerLookup(effects: seq<Effect>) {
    forall k :: 0 <= k < |effects| ==> !effects[k].Blame?
  }

  /** The report lines for the related files, in order: each file's owner is
      what `get_file_owner` gives for its blame run. */
  function Report(paths: seq<string>, scores: seq<real>,
                  blame: string -> Inspector.ProcessResult): (files: seq<ReportedFile>)
    requires |scores| == |paths|
    ensures |files| == |paths|
    ensures forall k :: 0 <= k < |paths| ==>
      files[k] == ReportedFile(paths[k], scores[k], Ownership.FileOwner(blame(paths[k])))
  {
    seq(|paths|, k requires 0 <= k < |paths| =>
      ReportedFile(paths[k], scores[k], Ownership.FileOwner(blame(paths[k]))))
  }

  function AsOwned(files: seq<ReportedFile>): (xs: seq<Owned>)
    ensures |xs| == |files|
    ensures forall k :: 0 <= k < |files| ==> xs[k] == Owned(files[k].filename, files[k].owner)
  {
    seq(|files|, k requires 0 <= k < |files| => Owned(files[k].filename, files[k].owner))
  }

  /** The recipients listing of a report: owners in the order they first own a
      reported file, each with exactly their files in report order, and every
      reported file listed once. */
  lemma RecipientsOfReport(files: seq<ReportedFile>)
    ensures var g := GroupByOwner(AsOwned(files));
      && InFirstAppearanceOrder(Keys(g), Owners(AsOwned(files)))
      && (forall o :: Get(g, o) == if o in Owners(AsOwned(files)) then Some(FilesOf(AsOwned(files), o)) else None)
      && multiset(Flatten(g)) == multiset(Filenames(AsOwned(files)))
  {
    GroupByOwnerOrder(AsOwned(files));
    GroupByOwnerValues(AsOwned(files));
    GroupByOwnerListsEachFileOnce(AsOwned(files));
  }
}
