/** `main` in crisk.py: the stand-alone `check` command, which ranks related
    files itself and asks a language model for the draft. The ranking request,
    the blame runs and the draft text are inputs. */
module LocalCheck {
  import opened Wrappers
  import opened Inspector
  import opened Snapshot
  import opened Relatedness
  import opened Recipients
  import opened Session

  /** The answers the outside world gives one run of the command. */
  datatype Workspace = Workspace(
    stagedDiff: string,                      // stdout of `git diff --cached`
    stagedNames: string,                     // stdout of `git diff --cached --name-only`
    trackedFiles: string,                    // stdout of `git ls-files`
    read: string -> Option<string>,          // reading a tracked file
    rankStatus: int,                         // status of the ranking request
    rankResults: seq<Ranked>,                // its `results` list, `[]` when absent
    blame: string -> ProcessResult,          // `git blame --porcelain <path>`
    reply: Option<string>,                   // the prompt's answer, `None` on end of input
    draftText: string)                       // what the language model wrote

  const UsageExit := 1

  /** The queries made before owners are looked up, in order. */
  const Queries := [StagedDiff, StagedList, TrackedFiles, RankRequest]

  /** The command line asks for `check`. */
  predicate IsCheckCommand(argv: seq<string>) {
    |argv| >= 2 && argv[1] == "check"
  }

  /** `"--draft" in sys.argv`: anywhere on the command line. */
  predicate AutoDraft(argv: seq<string>) {
    "--draft" in argv
  }

  /** The related files `main` reports, given the workspace. */
  function Related(w: Workspace): (related: seq<Ranked>)
    ensures |related| <= MaxRelated
    ensures forall k :: 0 <= k < |related| ==>
      related[k].filename !in ParseFileList(w.stagedNames) && related[k].score > ScoreThreshold
  {
    RankRelated(w.rankStatus, w.rankResults, ParseFileList(w.stagedNames))
  }

  function Paths(related: seq<Ranked>): seq<string> {
    Seqs.Map(related, (r: Ranked) => r.filename)
  }

  function Scores(related: seq<Ranked>): (scores: seq<real>)
    ensures |scores| == |related|
    ensures forall k :: 0 <= k < |related| ==> scores[k] == related[k].score
  {
    seq(|related|, k requires 0 <= k < |related| => related[k].score)
  }

  /** The effects once owners are looked up: the queries, one blame run per
      related file, the prompt unless `--draft` was given, and the draft request
      when a draft is wanted. */
  function ReportEffects(paths: seq<string>, autoDraft: bool, drafting: bool): (effects: seq<Effect>)
    ensures |effects| == |Queries| + |paths| + (if autoDraft then 0 else 1) + (if drafting then 1 else 0)
    ensures effects[..|Queries|] == Queries
    ensures effects[|Queries|..|Queries| + |paths|] == Blames(paths)
    ensures Prompt in effects <==> !autoDraft
    ensures DraftRequest in effects <==> drafting
    ensures !autoDraft ==> effects[|Queries| + |paths|] == Prompt
    ensures drafting ==> effects[|effects| - 1] == DraftRequest
  {
    var effects := Queries + Blames(paths) + (if autoDraft then [] else [Prompt])
                    + (if drafting then [DraftRequest] else []);
    assert effects[..|Queries|] == Queries;
    assert effects[|Queries|..|Queries| + |paths|] == Blames(paths);
    assert Prompt !in Queries + Blames(paths);
    assert DraftRequest !in Queries + Blames(paths) + (if autoDraft then [] else [Prompt]);
    effects
  }

  /** Steps 4 to 6 of `main`, reached with a non-empty list of related files
      (`Related(w)` in `Main`):
      owners are looked up, the report is printed, and a draft is requested
      and shown when `--draft` was given or the prompt was accepted. */
  function ReportRun(autoDraft: bool, related: seq<Ranked>, w: Workspace): (run: Run)
    requires related != []
    ensures run.exitCode == 0 && run.outcome.Reported?
    ensures |run.outcome.files| == |related|
    ensures forall k :: 0 <= k < |related| ==>
      run.outcome.files[k] == ReportedFile(related[k].filename, related[k].score,
                                           Ownership.FileOwner(w.blame(related[k].filename)))
    ensures |run.effects|
         == |Queries| + |related| + (if autoDraft then 0 else 1)
            + (if autoDraft || ReplyAccepts(w.reply) then 1 else 0)
    ensures run.effects[..|Queries|] == Queries
    ensures run.effects[|Queries|..|Queries| + |related|] == Blames(Paths(related))
    ensures Prompt in run.effects <==> !autoDraft
    ensures DraftRequest in run.effects <==> autoDraft || ReplyAccepts(w.reply)
    ensures !autoDraft ==> run.effects[|Queries| + |related|] == Prompt
    ensures autoDraft || ReplyAccepts(w.reply) ==> run.effects[|run.effects| - 1] == DraftRequest
    ensures run.outcome.draft.Some? <==> autoDraft || ReplyAccepts(w.reply)
    ensures run.outcome.draft.Some? ==>
      run.outcome.draft.value == Draft(w.draftText, GroupByOwner(AsOwned(run.outcome.files)))
  {
    var paths := Paths(related);
    var files := Report(paths, Scores(related), w.blame);
    var drafting := autoDraft || ReplyAccepts(w.reply);
    var draft := if drafting then Some(Draft(w.draftText, GroupByOwner(AsOwned(files)))) else None;
    Run(0, Reported(files, draft), ReportEffects(paths, autoDraft, drafting))
  }

  /** `main()`, given `sys.argv`. Running to the end exits with status 0. */
  function Main(argv: seq<string>, w: Workspace): (run: Run)
    ensures run.exitCode == 0 <==> run.outcome.Isolated? || run.outcome.Reported?
    ensures run.exitCode == 0 || run.exitCode == 1
    ensures run.outcome.Usage? <==> !IsCheckCommand(argv)
    ensures run.outcome.Usage? ==> run.effects == []
    ensures run.outcome.NoStagedChanges? <==>
      IsCheckCommand(argv) && (w.stagedDiff == "" || ParseFileList(w.stagedNames) == [])
    ensures run.outcome.NoStagedChanges? ==> run.effects == [StagedDiff, StagedList]
    ensures run.outcome.Isolated? <==>
      IsCheckCommand(argv) && w.stagedDiff != "" && ParseFileList(w.stagedNames) != [] && Related(w) == []
    ensures run.outcome.Isolated? ==> run.effects == Queries
    ensures run.outcome.Reported? <==>
      IsCheckCommand(argv) && w.stagedDiff != "" && ParseFileList(w.stagedNames) != [] && Related(w) != []
    ensures !run.outcome.NotAuthenticated? && !run.outcome.BackendFailed?
    ensures !run.outcome.Reported? ==> NoOwnerLookup(run.effects)
    ensures run.outcome.Reported? ==> Related(w) != [] && run == ReportRun(AutoDraft(argv), Related(w), w)
  {
    assert NoOwnerLookup(Queries) && NoOwnerLookup([StagedDiff, StagedList]) && NoOwnerLookup([]);
    if !IsCheckCommand(argv) then Run(UsageExit, Usage, [])
    else
      var autoDraft := AutoDraft(argv);
      var diff := w.stagedDiff;
      var staged := ParseFileList(w.stagedNames);
      if diff == "" || staged == [] then Run(1, NoStagedChanges, [StagedDiff, StagedList])
      else
        var related := Related(w);
        if related == [] then Run(0, Isolated, Queries)
        else
          ReportRun(autoDraft, related, w)
  }
}
