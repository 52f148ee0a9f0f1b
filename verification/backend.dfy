/** `analyze_via_backend` in crisk/check.py: the authenticated POST of the
    staged change and the codebase to the analysis service, and how its answer
    is classified. The HTTP exchange itself is an input. */
module Backend {
  import opened Wrappers
  import opened PyStr
  import opened OrderedMap
  import opened Logger
  import opened Seqs
  import Inspector
  import Snapshot

  /** One element of the service's `related_files` list; `score` and
      `relevance` are `None` when the key is absent. */
  datatype BackendFile = BackendFile(filename: string, score: Option<real>, relevance: Option<real>)

  /** The decoded JSON object of a 200 answer: the two keys the pipeline reads,
      `None` when absent, and whether any other key is present. */
  datatype Analysis = Analysis(
    relatedFiles: Option<seq<BackendFile>>,
    draftMessage: Option<string>,
    hasOtherKeys: bool)

  /** How the POST ended: an answer, whose body may or may not decode to a JSON
      object, or one of the exceptions `requests` raises. */
  datatype HttpOutcome =
    | Response(status: int, text: string, json: Option<Analysis>)
    | ConnectionError
    | Timeout
    | OtherFailure

  /** The JSON payload; `gitRemote` and `gitHash` are `None` when the key is
      left out. */
  datatype Payload = Payload(
    diff: string,
    codebase: seq<Snapshot.Entry>,
    stagedFiles: seq<string>,
    gitRemote: Option<string>,
    gitHash: Option<string>)

  datatype Request = Request(url: string, headers: Entries<string, string>, payload: Payload)

  /** What the call amounts to. Every case but `Analysed` is the function's
      `None`. */
  datatype BackendResult =
    | NoToken
    | AuthExpired
    | HttpError(status: int)
    | Unreachable
    | TimedOut
    | Failed
    | Analysed(analysis: Analysis)

  /** The exchange: the request, when one was sent, the records `log_request`
      and `log_response` wrote about it, and the result. */
  datatype Call = Call(request: Option<Request>, log: seq<Record>, result: BackendResult)

  const AnalyzePath := "/api/analyze"

  /** Python's truthiness of an optional string. */
  predicate Present(s: Option<string>) {
    s.Some? && s.value != ""
  }

  /** A decoded answer is truthy when the dict has at least one key. */
  predicate NonEmpty(a: Analysis) {
    a.relatedFiles.Some? || a.draftMessage.Some? || a.hasOtherKeys
  }

  /** `r.get("score", r.get("relevance", 0))`. */
  function DisplayScore(f: BackendFile): (s: real)
    ensures f.score.Some? ==> s == f.score.value
    ensures f.score.None? && f.relevance.Some? ==> s == f.relevance.value
    ensures f.score.None? && f.relevance.None? ==> s == 0.0
  {
    match f.score
    case Some(v) => v
    case None => f.relevance.GetOr(0.0)
  }

  /** The four headers, the token sent three times over. */
  function AuthHeaders(token: string): (headers: Entries<string, string>)
    ensures Keys(headers) == ["Authorization", "authorization", "x-auth-token", "Content-Type"]
    ensures Get(headers, "Authorization") == Some("Bearer " + token)
    ensures Get(headers, "authorization") == Some("Bearer " + token)
    ensures Get(headers, "x-auth-token") == Some(token)
    ensures Get(headers, "Content-Type") == Some("application/json")
  {
    var h := [ ("Authorization", "Bearer " + token),
               ("authorization", "Bearer " + token),
               ("x-auth-token", token),
               ("Content-Type", "application/json") ];
    assert h[1..] == [h[1], h[2], h[3]];
    assert h[1..][1..] == [h[2], h[3]];
    assert h[1..][1..][1..] == [h[3]];
    assert h[1..][1..][1..][1..] == [];
    assert "authorization"[0] != "Authorization"[0];
    assert "x-auth-token"[0] != "Authorization"[0] && "x-auth-token"[0] != "authorization"[0];
    assert "Content-Type"[0] != "x-auth-token"[0] && "Content-Type"[1] != "Authorization"[1];
    assert "Content-Type"[0] != "authorization"[0];
    assert Keys(h[1..][1..][1..]) == ["Content-Type"];
    assert Keys(h[1..][1..]) == ["x-auth-token", "Content-Type"];
    assert Keys(h[1..]) == ["authorization", "x-auth-token", "Content-Type"];
    assert Get(h[1..][1..][1..], "Content-Type") == Some("application/json");
    assert Get(h[1..][1..], "Content-Type") == Some("application/json");
    assert Get(h[1..], "Content-Type") == Some("application/json");
    assert Get(h[1..][1..], "x-auth-token") == Some(token);
    assert Get(h[1..], "x-auth-token") == Some(token);
    h
  }

  /** The payload dict: the optional git facts are added only when truthy. */
  function BuildPayload(diff: string, codebase: seq<Snapshot.Entry>, staged: seq<string>,
                        gitRemote: Option<string>, gitHash: Option<string>): (p: Payload)
    ensures p.diff == diff && p.codebase == codebase && p.stagedFiles == staged
    ensures p.gitRemote.Some? <==> Present(gitRemote)
    ensures p.gitHash.Some? <==> Present(gitHash)
    ensures p.gitRemote.Some? ==> p.gitRemote == gitRemote
    ensures p.gitHash.Some? ==> p.gitHash == gitHash
  {
    Payload(diff, codebase, staged,
            if Present(gitRemote) then gitRemote else None,
            if Present(gitHash) then gitHash else None)
  }

  /** The classification of the answer: 401 is an expired login, any other
      status but 200 an error, and a 200 body that does not decode is a
      failure caught by the catch-all handler. */
  function Classify(outcome: HttpOutcome): (r: BackendResult)
    ensures r.Analysed? <==> outcome.Response? && outcome.status == 200 && outcome.json.Some?
    ensures r.Analysed? ==> r.analysis == outcome.json.value
    ensures r == AuthExpired <==> outcome.Response? && outcome.status == 401
    ensures r.HttpError? <==> outcome.Response? && outcome.status != 200 && outcome.status != 401
    ensures r.HttpError? ==> r.status == outcome.status
    ensures r != NoToken
  {
    match outcome
    case Response(status, _, json) =>
      if status == 401 then AuthExpired
      else if status != 200 then HttpError(status)
      else if json.Some? then Analysed(json.value)
      else Failed
    case ConnectionError => Unreachable
    case Timeout => TimedOut
    case OtherFailure => Failed
  }

  /** The body handed to `log_response`: the first 1000 characters of a
      non-empty answer text, `None` for an empty one. */
  function CallerBody(text: string): (body: Option<string>)
    ensures body.None? <==> text == ""
    ensures body.Some? ==> StartsWith(text, body.value) && |body.value| == Min(|text|, 1000)
  {
    if text != "" then Some(Take(text, 1000)) else None
  }

  function Min(a: int, b: int): int {
    if a < b then a else b
  }

  /** `analyze_via_backend`. `token` is what `load_token` returned;
      `payloadSize` is the length of the serialised payload, whose JSON encoding
      is outside the model. */
  function AnalyzeViaBackend(token: Option<string>, backendUrl: string, diff: string,
                             codebase: seq<Snapshot.Entry>, staged: seq<string>,
                             gitRemote: Option<string>, gitHash: Option<string>,
                             payloadSize: int, outcome: HttpOutcome): (call: Call)
    ensures !Present(token) ==> call == Call(None, [], NoToken)
    ensures Present(token) ==>
      && call.request.Some?
      && call.request.value.url == backendUrl + AnalyzePath
      && call.request.value.headers == AuthHeaders(token.value)
      && call.request.value.payload == BuildPayload(diff, codebase, staged, gitRemote, gitHash)
      && call.result == Classify(outcome)
    ensures Present(token) && outcome.Response? ==>
      call.log == RequestLog("POST", backendUrl + AnalyzePath, AuthHeaders(token.value), Some(payloadSize))
                  + ResponseLog(outcome.status, CallerBody(outcome.text), None)
    ensures Present(token) && !outcome.Response? ==>
      call.log == RequestLog("POST", backendUrl + AnalyzePath, AuthHeaders(token.value), Some(payloadSize))
  {
    if !Present(token) then Call(None, [], NoToken)
    else
      var url := backendUrl + AnalyzePath;
      var headers := AuthHeaders(token.value);
      var payload := BuildPayload(diff, codebase, staged, gitRemote, gitHash);
      var sent := RequestLog("POST", url, headers, Some(payloadSize));
      var answered := if outcome.Response? then ResponseLog(outcome.status, CallerBody(outcome.text), None) else [];
      Call(Some(Request(url, headers, payload)), sent + answered, Classify(outcome))
  }

  /** A result is handed back only for a 200 answer that decodes. */
  lemma ResultOnlyOn200(token: Option<string>, backendUrl: string, diff: string,
                        codebase: seq<Snapshot.Entry>, staged: seq<string>,
                        gitRemote: Option<string>, gitHash: Option<string>,
                        payloadSize: int, outcome: HttpOutcome)
    ensures var call := AnalyzeViaBackend(token, backendUrl, diff, codebase, staged,
                                          gitRemote, gitHash, payloadSize, outcome);
      (call.result.Analysed?
       <==> Present(token) && outcome.Response? && outcome.status == 200 && outcome.json.Some?)
  {
  }

  /** What the call logs about an answer is what it would log had it passed
      the whole text: the cut to 1000 characters changes nothing. */
  lemma ResponseLogIgnoresCut(status: int, text: string)
    ensures ResponseLog(status, CallerBody(text), None)
         == ResponseLog(status, if text != "" then Some(text) else None, None)
  {
    CallerCutIsRedundant(status, text);
  }

  /** The request log redacts both spellings of the authorization header, yet
      writes the token itself in full under `x-auth-token`. */
  lemma LoggedHeadersLeakToken(token: string, backendUrl: string, payloadSize: int)
    ensures var safe := RedactHeaders(AuthHeaders(token));
      && HeadersDump(Debug, safe) in RequestLog("POST", backendUrl + AnalyzePath, AuthHeaders(token), Some(payloadSize))
      && Get(safe, "x-auth-token") == Some(token)
      && Get(safe, "Authorization") == Some(Take("Bearer " + token, RedactedPrefix) + Ellipsis)
  {
    var log := RequestLog("POST", backendUrl + AnalyzePath, AuthHeaders(token), Some(payloadSize));
    var i :| 0 <= i < |log| && log[i].HeadersDump?;
    RedactedAuthHeaders(token);
  }

  /** What survives redaction of the three headers the backend call sends. */
  lemma RedactedAuthHeaders(token: string)
    ensures Get(RedactHeaders(AuthHeaders(token)), "x-auth-token") == Some(token)
    ensures Get(RedactHeaders(AuthHeaders(token)), "Authorization")
         == Some(Take("Bearer " + token, RedactedPrefix) + Ellipsis)
  {
    AuthorizationSpellings("Authorization", "Bearer " + token);
    OtherHeadersNotRedacted();
    RedactHeadersGet(AuthHeaders(token), "x-auth-token");
    RedactHeadersGet(AuthHeaders(token), "Authorization");
  }
}
