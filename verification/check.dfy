/** `run_check` in crisk/check.py: the packaged `crisk check` command, from the
    login check to the draft message, over a workspace whose every outside
    answer is given. */
module Check {
  import opened Wrappers
  import opened PyStr
  import opened Inspector
  import opened Snapshot
  import opened Backend
  import opened Recipients
  import opened Session

  /** The answers the outside world gives one run of the command. */
  datatype Workspace = Workspace(
    tokenFile: Option<string>,               // contents of the token file, `None` if it does not exist
    stagedDiff: string,                      // stdout of `git diff --cached`
    stagedNames: string,                     // stdout of `git diff --cached --name-only`
    remote: ProcessResult,                   // `git remote get-url origin`
    head: ProcessResult,                     // `git rev-parse HEAD`
    trackedFiles: string,                    // stdout of `git ls-files`
    read: string -> Option<string>,          // reading a tracked file
    backendUrl: string,                      // `CRISK_BACKEND_URL` or its default
    payloadSize: int,                        // length of the serialised payload
    http: HttpOutcome,                       // how the POST ended
    blame: string -> ProcessResult,          // `git blame --porcelain <path>`
    reply: Option<string>)                   // the prompt's answer, `None` on end of input

  /** `load_token`: the stripped contents of the token file, if it exists. */
  function LoadToken(tokenFile: Option<string>): (token: Option<string>)
    ensures token.Some? <==> tokenFile.Some?
    ensures token.Some? ==> exists i :: StripsTo(tokenFile.value, i, token.value)
    ensures token.Some? && |token.value| > 0 ==>
      !IsSpace(token.value[0]) && !IsSpace(token.value[|token.value| - 1])
  {
    match tokenFile
    case None => None
    case Some(text) => Some(Strip(text))
  }

  /** `is_authenticated`: a token file whose contents are not all whitespace. */
  predicate IsAuthenticated(tokenFile: Option<string>) {
    var token := LoadToken(tokenFile);
    token.Some? && |token.value| > 0
  }

  lemma AuthenticatedIffNotBlank(tokenFile: Option<string>)
    ensures IsAuthenticated(tokenFile) <==> tokenFile.Some? && !AllSpace(tokenFile.value)
  {
    if tokenFile.Some? {
      var t := tokenFile.value;
      var i: nat :| StripsTo(t, i, Strip(t));
      if AllSpace(t) {
        StripAllSpace(t);
      } else {
        var k :| 0 <= k < |t| && !IsSpace(t[k]);
        var r := Strip(t);
        assert StripsTo(t, i, r);
        assert forall j :: 0 <= j < |t| && !(i <= j < i + |r|) ==> IsSpace(t[j]);
        assert |r| > 0;
      }
    }
  }

  /** The queries made before the backend is called, in order. */
  const Queries := [StagedDiff, StagedList, RemoteUrl, HeadRevision, TrackedFiles, BackendPost]

  /** The effects of a run that reaches the report: the queries, one blame
      run per related file in order, then the prompt unless `--draft` was given. */
  function ReportEffects(paths: seq<string>, autoDraft: bool): (effects: seq<Effect>)
    ensures |effects| == |Queries| + |paths| + (if autoDraft then 0 else 1)
    ensures effects[..|Queries|] == Queries
    ensures effects[|Queries|..|Queries| + |paths|] == Blames(paths)
    ensures Prompt in effects <==> !autoDraft
    ensures !autoDraft ==> effects[|effects| - 1] == Prompt
  {
    var effects := Queries + Blames(paths) + (if autoDraft then [] else [Prompt]);
    assert effects[..|Queries|] == Queries;
    assert effects[|Queries|..|Queries| + |paths|] == Blames(paths);
    assert Prompt !in Queries + Blames(paths);
    effects
  }

  function Paths(related: seq<BackendFile>): seq<string> {
    Seqs.Map(related, (f: BackendFile) => f.filename)
  }

  function Scores(related: seq<BackendFile>): (scores: seq<real>)
    ensures |scores| == |related|
    ensures forall k :: 0 <= k < |related| ==> scores[k] == DisplayScore(related[k])
  {
    seq(|related|, k requires 0 <= k < |related| => DisplayScore(related[k]))
  }

  /** The backend call `run_check` makes once the staged change is known. */
  function CallOf(w: Workspace): Call {
    var staged := ParseFileList(w.stagedNames);
    AnalyzeViaBackend(LoadToken(w.tokenFile), w.backendUrl, w.stagedDiff,
                      CodebaseFiles(w.trackedFiles, w.read, PackagedExclusions), staged,
                      OptionalQuery(w.remote), OptionalQuery(w.head), w.payloadSize, w.http)
  }

  /** A logged-in run sends its request, and the call's result is the
      classification of how the POST ended. */
  lemma AuthenticatedCallSent(w: Workspace)
    requires IsAuthenticated(w.tokenFile)
    ensures CallOf(w).request.Some? && CallOf(w).result == Classify(w.http)
  {
  }

  /** Steps 5 to 7 of `run_check`, reached with a non-empty list of related
      files: owners are looked up, the report is printed and the draft is
      shown when there is one and it is wanted. */
  function ReportRun(autoDraft: bool, analysis: Analysis, w: Workspace): (run: Run)
    requires analysis.relatedFiles.Some? && analysis.relatedFiles.value != []
    ensures run.exitCode == 0 && run.outcome.Reported?
    ensures |run.outcome.files| == |analysis.relatedFiles.value|
    ensures forall k :: 0 <= k < |analysis.relatedFiles.value| ==>
      var f := analysis.relatedFiles.value[k];
      run.outcome.files[k] == ReportedFile(f.filename, DisplayScore(f), Ownership.FileOwner(w.blame(f.filename)))
    ensures |run.effects| == |Queries| + |analysis.relatedFiles.value| + (if autoDraft then 0 else 1)
    ensures run.effects[..|Queries|] == Queries
    ensures run.effects[|Queries|..|Queries| + |analysis.relatedFiles.value|]
         == Blames(Paths(analysis.relatedFiles.value))
    ensures Prompt in run.effects <==> !autoDraft
    ensures !autoDraft ==> run.effects[|run.effects| - 1] == Prompt
    ensures run.outcome.draft.Some? <==>
      analysis.draftMessage.GetOr("") != "" && (autoDraft || ReplyAccepts(w.reply))
    ensures run.outcome.draft.Some? ==>
      run.outcome.draft.value
        == Draft(analysis.draftMessage.GetOr(""), GroupByOwner(AsOwned(run.outcome.files)))
  {
    var related := analysis.relatedFiles.value;
    var paths := Paths(related);
    var files := Report(paths, Scores(related), w.blame);
    var message := analysis.draftMessage.GetOr("");
    var shown := message != "" && (autoDraft || ReplyAccepts(w.reply));
    var draft := if shown then Some(Draft(message, GroupByOwner(AsOwned(files)))) else None;
    Run(0, Reported(files, draft), ReportEffects(paths, autoDraft))
  }

  /** `run_check(auto_draft)`. */
  function RunCheck(autoDraft: bool, w: Workspace): (run: Run)
    ensures run.exitCode == 0 <==> run.outcome.Isolated? || run.outcome.Reported?
    ensures run.exitCode == 0 || run.exitCode == 1
    ensures !run.outcome.Usage?
    ensures run.outcome.NotAuthenticated? <==> !IsAuthenticated(w.tokenFile)
    ensures run.outcome.NotAuthenticated? ==> run.effects == []
    ensures run.outcome.NoStagedChanges? <==>
      IsAuthenticated(w.tokenFile) && (w.stagedDiff == "" || ParseFileList(w.stagedNames) == [])
    ensures run.outcome.NoStagedChanges? ==> run.effects == [StagedDiff, StagedList]
    ensures run.outcome.BackendFailed? <==>
      && IsAuthenticated(w.tokenFile) && w.stagedDiff != "" && ParseFileList(w.stagedNames) != []
      && !(Classify(w.http).Analysed? && NonEmpty(Classify(w.http).analysis))
    ensures run.outcome.BackendFailed? ==> run.effects == Queries
    ensures run.outcome.Isolated? || run.outcome.Reported? ==>
      && IsAuthenticated(w.tokenFile) && w.stagedDiff != "" && ParseFileList(w.stagedNames) != []
      && CallOf(w).request.Some?
      && w.http.Response? && w.http.status == 200 && w.http.json.Some? && NonEmpty(w.http.json.value)
    ensures run.outcome.Isolated? <==>
      && IsAuthenticated(w.tokenFile) && w.stagedDiff != "" && ParseFileList(w.stagedNames) != []
      && Classify(w.http).Analysed? && NonEmpty(Classify(w.http).analysis)
      && Classify(w.http).analysis.relatedFiles.GetOr([]) == []
    ensures run.outcome.Isolated? ==> run.effects == Queries
    ensures run.outcome.Reported? <==>
      && IsAuthenticated(w.tokenFile) && w.stagedDiff != "" && ParseFileList(w.stagedNames) != []
      && Classify(w.http).Analysed? && NonEmpty(Classify(w.http).analysis)
      && Classify(w.http).analysis.relatedFiles.GetOr([]) != []
    ensures !run.outcome.Reported? ==> NoOwnerLookup(run.effects)
    ensures run.outcome.Reported? ==>
      && w.http.json.value.relatedFiles.Some? && w.http.json.value.relatedFiles.value != []
      && run == ReportRun(autoDraft, w.http.json.value, w)
  {
    assert NoOwnerLookup(Queries) && NoOwnerLookup([StagedDiff, StagedList]) && NoOwnerLookup([]);
    if !IsAuthenticated(w.tokenFile) then Run(1, NotAuthenticated, [])
    else
      AuthenticatedCallSent(w);
      var diff := w.stagedDiff;
      var staged := ParseFileList(w.stagedNames);
      if diff == "" || staged == [] then Run(1, NoStagedChanges, [StagedDiff, StagedList])
      else
        var result := CallOf(w).result;
        if !(result.Analysed? && NonEmpty(result.analysis)) then Run(1, BackendFailed, Queries)
        else
          var related := result.analysis.relatedFiles.GetOr([]);
          if related == [] then Run(0, Isolated, Queries)
          else ReportRun(autoDraft, result.analysis, w)
  }
}
