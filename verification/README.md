# crisk change-impact check, modelled in Dafny

crisk is a command-line tool run after `git add`. It reads the staged change,
collects the repository's tracked files into a corpus, and finds the other
files the change is likely to affect. It does this either by asking the crisk
analysis backend (the packaged `crisk check`, `run_check` in crisk/check.py) or
by calling a ranking service itself (the stand-alone `python crisk.py check`,
`main` in crisk.py). For each affected file it names an owner: the dominant
`author-mail` address of `git blame --porcelain`. It prints the report and can
show a draft message for those owners, with the files grouped by owner. Its
neighbour ask.py turns one blamed line into an author, a commit subject and a
numbered code snippet. The logger in crisk/logger.py records the HTTP traffic
and redacts the authorization header.

The model is pure Dafny functions and lemmas. Everything the tool gets from
outside is a parameter of a `Workspace` datatype:

- a `git` invocation whose failure changes the result (`git blame` in both
  copies of `get_file_owner` and in ask.py, `git remote get-url`,
  `git rev-parse HEAD`, and `git show` in ask.py) is a `ProcessResult`: the
  exit status and the output, or an exception raised before the command ran;
- the staged diff, the staged list and `git ls-files` are plain output
  strings, because the code reads their `stdout` without checking the exit
  status or catching an exception;
- reading a file is a function from path to `Option<string>`;
- the backend POST is an `HttpOutcome`, and the ranking request of crisk.py is
  its status code and its `results` list;
- the token file is an `Option<string>`, `None` when it does not exist;
- the terminal prompt's answer is an `Option<string>`, where `None` is end of
  input.

A run is a `Run`: the exit status, where it stopped (`Outcome`), and the
ordered list of outside effects it performed (`Effect`).

Modules, bottom-up:

- `Wrappers`: `Option` and `Result`.
- `PyStr`: the Python `str` operations the code uses. These are `strip`,
  `lstrip`, `rstrip`, `rstrip(c)`, `split(c)`, `join`, `split()[0]`, ASCII
  `lower` and `str(int)`.
- `Seqs`: projection, filter, `xs[:n]`, full Python slicing with negative bounds, first
  index, first-appearance order, dedup.
- `OrderedMap`: an insertion-ordered Python dict as a sequence of pairs. It
  covers `get`, item assignment, the counting idiom and `max(d, key=d.get)`.
- `Inspector`: how the output of `git` queries is read.
- `Porcelain`: the `author-mail` lines of blame output.
- `Ownership`: `get_file_owner`.
- `Snapshot`: `get_codebase_files`, in both copies.
- `Relatedness`: `rank_related_files`.
- `Recipients`: the group-by-owner loop.
- `Logger`: `log_request`, `log_response` and `log_cache`.
- `Backend`: `analyze_via_backend`.
- `Session`: effects, report and prompt, shared by both commands.
- `Check`: `run_check`.
- `LocalCheck`: `main`.
- `Ask`: `get_blame_info`.

Behaviour of the code worth knowing:

- An owner is chosen by counting `author-mail` header lines. Porcelain output
  prints these headers only on a commit's first appearance, so the count is of
  commits, not of lines.
- `rank_related_files` does not sort. It cuts the non-staged results to the
  first ten and only then applies the 0.3 threshold, so any ten weak results
  at the head hide everything behind them
  (`Relatedness.TruncationPrecedesThreshold`).
- Only the packaged copy of `get_codebase_files` skips `.lock` files.
- The request log redacts `Authorization` and `authorization` but writes the
  token in full under `x-auth-token` (`Backend.LoggedHeadersLeakToken`).
- The caller's 1000-character cut of the response body has no effect, because
  the logger already cuts at 500 (`Logger.CallerCutIsRedundant`).

## Model

| member | source | states |
|---|---|---|
| PyStr.LStrip | crisk/auth.py:42 | The result is the suffix of the input left after its leading whitespace. Everything removed is whitespace, and the result does not start with whitespace. |
| PyStr.RStrip | crisk/auth.py:42 | The result is the prefix of the input left before its trailing whitespace. Everything removed is whitespace, and the result does not end with whitespace. |
| PyStr.Strip | crisk/auth.py:42 | The result sits inside the input with only whitespace around it. It neither starts nor ends with whitespace. |
| PyStr.StripTrailingNewline | crisk/check.py:35 | A string whose ends are not whitespace, followed by one newline, strips back to itself. |
| PyStr.StripAllSpace | crisk/auth.py:55 | A whitespace-only string strips to the empty string. |
| PyStr.LStripSpacePrefix | crisk/auth.py:42 | Leading whitespace before a non-whitespace character is exactly what `lstrip` removes. |
| PyStr.RStripSpaceSuffix | crisk/auth.py:42 | Trailing whitespace after a non-whitespace character is exactly what `rstrip` removes. |
| PyStr.StripSingle | crisk/check.py:318 | One non-whitespace character padded with whitespace strips to itself. |
| PyStr.IndexOf | crisk/check.py:112 | The position found holds the character, and no earlier position does. |
| PyStr.IndexOfUnique | crisk/check.py:112 | A position that holds the character with none before it is the one `IndexOf` finds. |
| PyStr.Split | crisk/check.py:110 | `split(sep)` gives at least one piece, and no piece contains the separator. |
| PyStr.JoinSplit | crisk/check.py:110 | Joining the pieces of a split with the separator gives the string back. |
| PyStr.SplitJoin | crisk/check.py:110 | Splitting a join of separator-free parts gives the parts back. |
| PyStr.RStripChar | crisk/check.py:112 | `rstrip(c)` removes exactly the trailing run of `c`. The result is a prefix of the input and does not end in `c`. |
| PyStr.Lower | crisk/logger.py:58 | `lower()` keeps the length of the string and leaves no ASCII capital. Each character is kept, or is a capital turned into its small letter. |
| PyStr.NonSpaceSpan | ask.py:42 | The length of the leading non-whitespace run, followed by whitespace or the end. |
| PyStr.FirstField | ask.py:42 | `split()[0]` fails exactly on an all-whitespace line. Otherwise it is the first field: non-empty, non-whitespace, with only whitespace before it and whitespace or the end after it. |
| PyStr.FirstFieldOfSuffix | ask.py:42 | The non-whitespace run at the head of the `lstrip` of a line is that line's first field. |
| PyStr.NatToString | crisk/logger.py:61 | `str(n)` of a natural number is a non-empty string of decimal digits whose decimal value is `n`. It has no leading zero unless it is `0`. |
| Seqs.Filter | crisk.py:110 | A list comprehension with a condition keeps exactly the elements that satisfy it. Each such element occurs as often as in the input, and every other element does not occur. |
| Seqs.FilterIsSubseq | crisk.py:110 | A filtered list keeps the original relative order. |
| Seqs.FilterKeepsAll | crisk/check.py:35 | A filter that every element passes leaves the list unchanged. |
| Seqs.FilterDropsAll | crisk.py:113 | A filter that no element passes leaves nothing. |
| Seqs.FilterAppend | crisk.py:110 | Filtering a concatenation gives the concatenation of the filtered parts. |
| Seqs.Take | crisk.py:113 | `xs[:n]` is the prefix of length `min(n, len(xs))`. |
| Seqs.TakeIsSubseq | crisk.py:113 | `xs[:n]` keeps the original order. |
| Seqs.SliceBound | ask.py:62 | A Python slice bound, including a negative one counted from the end, lands within the sequence. |
| Seqs.Slice | ask.py:62 | `xs[lo:hi]` has length `max(0, b - a)` for the resolved bounds `a` and `b`, and holds `xs[a + k]` at position `k`. |
| Seqs.FirstIndex | crisk/check.py:307 | The first index of an element holds it, and no earlier index does. |
| Seqs.FirstIndexUnique | crisk/check.py:307 | An index holding the element with none before it is the first index. |
| Seqs.FirstAppearanceAppend | crisk/check.py:304-309 | Appending a key the first time it is seen keeps a key list in first-appearance order. |
| Seqs.DedupOrder | crisk/check.py:304-309 | Dropping repeats leaves the distinct elements in first-appearance order. |
| OrderedMap.Get | crisk/check.py:113 | `d.get(k)` is missing exactly when `k` is not a key. |
| OrderedMap.GetEntry | crisk/check.py:113 | With distinct keys, looking up an entry's key finds that entry's value. |
| OrderedMap.Put | crisk/check.py:113 | After `d[k] = v`, `k` maps to `v` and every other key keeps its value. |
| OrderedMap.PutKeys | crisk/check.py:113 | An existing key keeps its position. A new key is appended at the end. |
| OrderedMap.PutDistinct | crisk/check.py:113 | Assigning under a key never makes keys repeat. |
| OrderedMap.CountOccurrencesValues | crisk/check.py:109-113 | The counting dict maps every element to its number of occurrences, and holds nothing else. |
| OrderedMap.CountStep | crisk/check.py:113 | Counting one more element turns the counts of the prefix into the counts of the whole sequence. |
| OrderedMap.CountOccurrencesDedup | crisk/check.py:109-113 | The counting dict's keys are the elements without repeats, in order. |
| OrderedMap.CountOccurrencesKeys | crisk/check.py:109-113 | The counting dict's keys are the distinct elements, in first-appearance order. |
| OrderedMap.KeysIndex | crisk/check.py:119 | Entry `i` of a dict carries the `i`-th key. |
| OrderedMap.FirstMaxIndex | crisk/check.py:119 | `max(d, key=d.get)` picks an entry whose value no other entry exceeds. Every earlier entry is strictly smaller, so ties go to the first. |
| OrderedMap.PutFlatten | crisk/check.py:309 | Replacing the list under a key swaps its elements for the new ones in the concatenated values. Nothing else changes. |
| Inspector.ParseFileList | crisk/check.py:29-35 | Every staged path is non-empty and has no newline. Blank output gives no paths. |
| Inspector.ParseFileListRoundTrip | crisk/check.py:29-35 | Reading back the newline-terminated listing of non-empty paths gives exactly those paths. This needs paths without newlines and outer ends that are not whitespace. |
| Inspector.JoinEnds | crisk/check.py:35 | Joining non-empty parts starts with the first part's first character and ends with the last part's last character. |
| Inspector.OptionalQuery | crisk/check.py:38-63 | The remote URL or head hash exists exactly when the query ran and exited 0. It is then the stripped output. An exception gives `None`. |
| Porcelain.ExtractEmail | crisk/check.py:112 | `split("<")[1].rstrip(">")` is the text right after the first `<`. It has no `<` and no trailing `>`, and only `>` characters follow it up to the next `<` or the end. |
| Porcelain.EmailInPiece | crisk/check.py:112 | A prefix of the second piece followed only by `>` characters sits right after the first `<`. |
| Porcelain.SplitSecondPiece | crisk/check.py:112 | With a `<` in the line, the split has a second piece: the text from after the first `<` up to the next `<` or the end. |
| Ownership.AuthorKeys | crisk/check.py:110-112 | One key is counted per `author-mail` line. There are none exactly when no line is an `author-mail` line. |
| Ownership.AuthorKeysOfMailLines | crisk/check.py:110-113 | The counted keys are the `author-mail` lines' keys, one for one and in order. Each key is the address after the first `<`, or `unknown` for a line without `<`. |
| Ownership.MostFrequent | crisk/check.py:119 | The owner occurs at least as often as any other key. Among keys tied at that count, it appears first. |
| Ownership.MostFrequentSpec | crisk/check.py:109-119 | The first maximal entry of the counting dict is a most frequent key, and among ties it appears first. |
| Ownership.CountAt | crisk/check.py:109-113 | Each entry of the counting dict holds the number of occurrences of its key. |
| Ownership.FileOwner | crisk/check.py:97-121 | The owner is `unknown` when blame raises, fails, or has no `author-mail` line. Otherwise it is the most frequent address, with ties going to the first seen. |
| Snapshot.BuildCorpus | crisk/check.py:75-92 | Every kept entry is admitted and holds what reading its path gives. Entries keep the listing's order, and every admitted path is kept. |
| Snapshot.BuildCorpusCounts | crisk/check.py:75-92 | Each admitted path is in the corpus exactly as often as it is listed. A path that is not admitted is not in the corpus. |
| Snapshot.CodebaseFiles | crisk/check.py:66-94 | No corpus entry has an empty name or an excluded suffix. Each holds at most 50000 characters of its file's content, in listing order. Every admitted path of the `git ls-files` output appears exactly as often as it is listed, and nothing else appears. |
| Snapshot.PackagedDropsLockFiles | crisk/check.py:79 | The packaged corpus is the stand-alone corpus with its `.lock` entries filtered out. |
| Snapshot.ExclusionsDifferByLock | crisk.py:61 | The packaged exclusion list is the stand-alone list plus `.lock`. |
| Snapshot.SuffixListAppend | crisk/check.py:79 | A path ends with a suffix from a list plus one more exactly when it ends with one from the list or with the extra suffix. |
| Snapshot.SameCorpusWithoutLockFiles | crisk.py:47-76 | When no path ends in `.lock`, both copies build the same corpus. |
| Relatedness.DropStaged | crisk.py:110 | No staged file remains and the order is kept. Every result for an unstaged file occurs as often as in the service's list. |
| Relatedness.RankRelated | crisk.py:102-113 | Nothing is related unless the service answered 200. At most ten results come back, in order, none staged and each scoring above 0.3. |
| Relatedness.RankRelatedIsOnePass | crisk.py:110-113 | The three stages agree with a one-pass rule. A result is kept if it is not staged, fewer than ten unstaged results come before it, and it scores above 0.3. |
| Relatedness.OnePassOnCandidates | crisk.py:110 | Removing staged results first does not change the one-pass selection. |
| Relatedness.TruncateThenFilter | crisk.py:113 | Without staged entries, the one-pass rule keeps the relevant results among the first ten. |
| Relatedness.TruncationPrecedesThreshold | crisk.py:113 | Any ten unstaged results scoring at most 0.3 at the head of the list leave nothing related, whatever follows them. |
| Relatedness.StrongLeaderReported | crisk.py:110-113 | An unstaged result scoring above 0.3 at the head of the list is reported, and comes first. |
| Relatedness.StagedAndWeakResultsDropped | crisk.py:110-113 | A result for a staged file, or one scoring 0.3 or less, is never related, whatever the rest of the list holds. |
| Recipients.FilesOf | crisk/check.py:304-309 | Reference definition: an owner's files in report order, as many as the times the owner occurs. |
| Recipients.GroupByOwnerKeys | crisk/check.py:304-309 | The grouped owners are the owners without repeats. |
| Recipients.GroupByOwnerOrder | crisk/check.py:304-309 | Owners are listed in the order they first own a file. |
| Recipients.GroupByOwnerValue | crisk/check.py:304-309 | An owner's list is exactly that owner's files in report order. Someone who owns nothing is absent. |
| Recipients.GroupByOwnerValues | crisk/check.py:304-309 | The per-owner statement holds for every owner at once. |
| Recipients.GroupByOwnerListsEachFileOnce | crisk/check.py:304-309 | Across all owners, every reported file is listed exactly once. |
| Logger.RedactValue | crisk/logger.py:58 | An authorization value keeps its first twenty characters plus `...`, even when shorter. Every other value is unchanged. |
| Logger.RedactHeadersKeys | crisk/logger.py:58 | Redaction keeps the dict's key list. |
| Logger.RedactHeadersGet | crisk/logger.py:58 | A lookup in the redacted dict finds the redacted form of the original value. An absent key stays absent. |
| Logger.AuthorizationSpellings | crisk/logger.py:58 | Any 13-character key that matches `authorization` or `AUTHORIZATION` at each position, in any mix, is an authorization key. Its value is cut to the first twenty characters plus `...`. |
| Logger.OtherHeadersNotRedacted | crisk/logger.py:58 | `x-auth-token` and `Content-Type` are not authorization keys. |
| Logger.RequestLog | crisk/logger.py:53-61 | Exactly these records, in order: the request line, then the redacted headers exactly when the headers are non-empty, then `  Payload size: <n> bytes` with the decimal byte count exactly when the size is present and non-zero. Nothing else is written. |
| Logger.LoggedBody | crisk/logger.py:70-73 | A body under 500 characters is logged verbatim. A longer one is cut to its first 500 characters plus `...`. |
| Logger.ResponseLog | crisk/logger.py:64-73 | A non-empty error gives one error line only. Otherwise the status line comes first, then a body line exactly when the body is non-empty. |
| Logger.CallerCutIsRedundant | crisk/check.py:177 | Cutting the body to 1000 characters before logging never changes the records. |
| Logger.CacheLog | crisk/logger.py:76-82 | The whole line: `CACHE: <action> - <key>` without `hit`, otherwise `CACHE HIT: <action> - <key>` or `CACHE MISS: <action> - <key>`. |
| Backend.DisplayScore | crisk/check.py:287 | The displayed score is `score` when present, otherwise `relevance`, otherwise 0. |
| Backend.AuthHeaders | crisk/check.py:142-147 | The four headers, in order. Both authorization spellings carry `Bearer <token>`, and `x-auth-token` carries the bare token. |
| Backend.BuildPayload | crisk/check.py:149-161 | The payload carries the diff, corpus and staged list. The remote and hash appear exactly when they are non-empty. |
| Backend.Classify | crisk/check.py:177-209 | Only a 200 answer that decodes yields an analysis. 401 means the login expired. Any other status is an error carrying that status. Connection errors, timeouts and other failures give no result. |
| Backend.CallerBody | crisk/check.py:177 | The logged body is missing exactly for an empty answer. Otherwise it is the answer's first `min(len, 1000)` characters. |
| Backend.AnalyzeViaBackend | crisk/check.py:124-209 | An empty or missing token sends nothing and logs nothing. Otherwise one POST goes to `<backend>/api/analyze` with the auth headers and payload. The request is logged, followed by the response when there is one, and the result is the classification of the answer. |
| Backend.ResultOnlyOn200 | crisk/check.py:132-195 | The call returns an analysis exactly when a token is present and a 200 answer decodes. |
| Backend.ResponseLogIgnoresCut | crisk/check.py:177 | What the call logs about an answer equals what it would log for the whole text. |
| Backend.LoggedHeadersLeakToken | crisk/check.py:142-167 | The logged headers redact `Authorization` but hold the full token under `x-auth-token`. |
| Backend.RedactedAuthHeaders | crisk/check.py:142-147 | After redaction the backend headers keep the bare token under `x-auth-token`, and only the first twenty characters of `Bearer <token>` plus `...` under `Authorization`. |
| Session.ReplySpellings | crisk/check.py:318-319 | `y` or `Y` with any surrounding whitespace accepts. An empty reply and end of input do not. |
| Session.RecipientsOfReport | crisk/check.py:304-315 | In the recipients listing, owners appear in first-ownership order, each with exactly their files, and every reported file is listed once. |
| Check.LoadToken | crisk/auth.py:39-43 | There is a token exactly when the token file exists. It is the file's contents with surrounding whitespace stripped. |
| Check.AuthenticatedIffNotBlank | crisk/auth.py:52-55 | Logged in exactly when the token file exists and is not all whitespace. |
| Check.ReportEffects | crisk/check.py:248-318 | The effects are exactly, in order: the queries, one blame per related file, then the prompt as the last effect exactly when `--draft` was not given. |
| Check.AuthenticatedCallSent | crisk/check.py:132-177 | A logged-in run sends its request, and its result is the classification of the answer. |
| Check.ReportRun | crisk/check.py:277-342 | Exit 0. Each related file is reported in order with its score and owner. The effects are exactly the queries, one blame per related file, and the prompt last exactly without `--draft`. The draft is shown exactly when the message is non-empty and either `--draft` was given or the reply accepts, with recipients grouped by owner. |
| Check.RunCheck | crisk/check.py:212-342 | It never ends in a usage error. Not logged in (exit 1, no effects), no staged change (exit 1), backend failure (exit 1), isolated change (exit 0) and full report (exit 0) each happen exactly in their own case. The backend fails exactly when a logged-in run with a staged change gets no non-empty analysis. A full report happens exactly when the analysis also lists a related file, and it is then `ReportRun`. No owner is looked up unless the report is reached. |
| LocalCheck.Related | crisk.py:212 | At most ten related files, none staged, each scoring above 0.3. |
| LocalCheck.ReportEffects | crisk.py:194-247 | The effects are exactly, in order: the queries, one blame per related file, the prompt exactly without `--draft`, and the draft request as the last effect exactly when drafting. |
| LocalCheck.ReportRun | crisk.py:219-267 | Exit 0. Each related file is reported with its score and owner. The effects are exactly the queries, the blames, the prompt exactly without `--draft`, and then the draft request, which comes last. It is requested, and the draft shown, exactly when `--draft` was given or the reply accepts, with recipients grouped by owner. |
| LocalCheck.Main | crisk.py:180-267 | Usage exit 1 unless the command is `check`. Exit 1 with no staged change. Exit 0 for an isolated change or a full report, and a full report happens exactly when there is a staged change and a related file. It never needs a login or the backend, and looks up no owner before the report. |
| Ask.WindowStart | ask.py:57 | `max(1, n - 10)`: at least 1, and either 1 or `n - 10`. |
| Ask.ContextWindow | ask.py:56-68 | Snippet line `k` is file line `start + k` with that line's text. Only line `n` carries `>>>`. For `n >= 1` the window holds at most 21 lines and stops at `n + 10` or at the end of the file. |
| Ask.CountMarkedNone | ask.py:67 | A window without the marker counts no marked lines. |
| Ask.CountMarkedOne | ask.py:67 | A window marked at exactly one position counts one marked line. |
| Ask.MarkedOnceIffInFile | ask.py:56-68 | The marker appears exactly once when `n` is a line of the file, and never otherwise. |
| Ask.TargetLineShown | ask.py:56-68 | A target line of the file appears in the snippet, marked, with its own text. |
| Ask.RenderSnippet | ask.py:65-68 | An empty window renders as the empty snippet, and a one-line window as that line's rendering. |
| Ask.RenderSnippetAppend | ask.py:66-68 | Rendering works line by line: a window split in two renders as the two renderings joined. |
| Ask.TargetLineRendered | ask.py:56-68 | For a line `n` of the file, the rendered snippet is the rendering of the lines before it, then line `n` marked `>>>` with its number and text, then the rendering of the lines after it. |
| Ask.FirstAuthorMail | ask.py:44-49 | The first `author-mail` line, or none when there is no such line. |
| Ask.AuthorEmail | ask.py:44-49 | No `author-mail` line gives no author. When the first such line has a `<`, the author is the address after it, as `ExtractEmail` reads it. When it has no `<`, the result is `IndexError`. |
| Ask.BlameLines | ask.py:41 | The stripped blame output splits into at least one line. No line holds a newline, and joining the lines with newlines gives the stripped output back. |
| Ask.ParseBlame | ask.py:41-49 | Parsing fails with `IndexError` exactly on an all-whitespace first line. Otherwise the hash is that line's first field and the author comes from `AuthorEmail`, whose error is passed on. |
| Ask.GetBlameInfo | ask.py:23-77 | The call succeeds exactly when blame ran and exited 0, its output parses, `git show` ran and the file could be read. Each failure gives its own error exactly in its own case: blame not run, blame failed, parse error, show not run, file unreadable. On success the result echoes the path and line number. It holds the parsed hash and author, the stripped subject from `git show`, and the rendered window of the file's lines. |

## Left out

- Running `git`, reading files, the network and the terminal are not modelled. Their results are inputs: `ProcessResult`, `read`, `HttpOutcome` and `reply`.
- JSON is not modelled. The payload's serialised length is an input (`payloadSize`), and a 200 answer's decoded object is an input (`Analysis`, or `None` when the body does not decode).
- A decoded JSON value that is not an object, or `null` values inside it, are not modelled. An absent key is `None`, and `related_files` entries are assumed to carry `filename`.
- The missing-key `KeyError`s of crisk.py are not modelled: `r["filename"]` and `r["score"]` in ranking results are assumed present.
- `generate_draft_message` (crisk.py:143-177) and `generate_magic_question` and `send_slack_message` (ask.py:80 onward) call a language model or Slack. The draft text is an input (`draftText`).
- The API-key checks at import time (crisk.py:17-24, ask.py:15-20) run before any function and only stop the program.
- The OAuth login flow, `save_token`, `delete_token`, `logout`, `get_config_dir` and the CLI entry point are outside the modelled core.
- `get_staged_diff`, `get_staged_files` and `get_codebase_files`: if `subprocess.run` itself raises, the exception escapes uncaught (crisk/check.py:20-35, 68, crisk.py:31-50). The model takes their output as given strings, so it does not have this path.
- `rank_related_files`: an exception from `requests.post` (crisk.py:100) or from `response.json()` on a 200 answer (crisk.py:107) escapes uncaught. The model takes the status and the `results` list as given.
- `load_token`: an exception from `TOKEN_FILE.read_text()` (crisk/auth.py:42) escapes uncaught. The model has only a missing file and a readable one.
- `get_staged_diff` is an input string. `get_git_remote` and `get_git_hash` are modelled by `Inspector.OptionalQuery`.
- Printed output is not modelled: banners, emoji and the `:.2f` score format. The report is the sequence of `ReportedFile` values instead.
- `setup_logger`, the log file handler, timestamps, `log_separator`, `log_error`, `log_info` and `log_debug` are not modelled.
- Backend.AnalyzeViaBackend: `call.log` holds only the `log_request` and `log_response` records. The `log_info`/`log_error` lines around them are left out, including the first 20 characters of the token in "Token loaded".
- Logger.RequestLog: the headers record holds the redacted entries, not the text of Python's dict `repr`.
- PyStr.Lower: only ASCII letters are lower-cased. Python also lower-cases other letters; this matters only for header keys and the prompt reply.
- Ask.ContextWindow: the window's length is stated only for `n >= 1`. For smaller `n` the contents and numbering are still stated element by element.
- Scores are `real` values. Rounding to two decimals at print time is left out.
