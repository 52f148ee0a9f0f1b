/** The repository queries of the pipeline. Each `git` invocation is outside the
    model; what it produced is an input, and this module states how the
    pipeline reads it. */
module Inspector {
  import opened Wrappers
  import opened PyStr
  import Seqs

  /** What `subprocess.run(..., capture_output=True, text=True)` gave back:
      the exit status and decoded standard output, or an exception the call
      raised: the command could not start (for instance, no `git` on the
      PATH), or its output did not decode as text. */
  datatype ProcessResult = Completed(returnCode: int, stdout: string) | Raised

  /** Python's truthiness of a string: only the empty string is false. */
  predicate Truthy(s: string) {
    |s| > 0
  }

  /** The file-list parse of `get_staged_files`:
      `[f for f in stdout.strip().split('\n') if f]`. */
  function ParseFileList(stdout: string): (paths: seq<string>)
    ensures forall k :: 0 <= k < |paths| ==> |paths[k]| > 0 && '\n' !in paths[k]
    ensures AllSpace(stdout) ==> paths == []
  {
    Seqs.Filter(Split(Strip(stdout), '\n'), Truthy)
  }

  /** `git diff --cached --name-only` prints each path followed by a newline;
      reading that output back yields exactly the listed paths, provided no path
      is empty, contains a newline, or (first and last) begins or ends with
      whitespace, which `strip()` would remove. */
  lemma ParseFileListRoundTrip(paths: seq<string>)
    requires |paths| > 0
    requires forall k :: 0 <= k < |paths| ==> |paths[k]| > 0 && '\n' !in paths[k]
    requires !IsSpace(paths[0][0]) && !IsSpace(paths[|paths| - 1][|paths[|paths| - 1]| - 1])
    ensures ParseFileList(Join(paths, '\n') + "\n") == paths
  {
    var j := Join(paths, '\n');
    JoinEnds(paths, '\n');
    StripTrailingNewline(j);
    SplitJoin(paths, '\n');
    Seqs.FilterKeepsAll(paths, Truthy);
  }

  lemma {:induction false} JoinEnds(parts: seq<string>, sep: char)
    requires |parts| > 0
    requires forall k :: 0 <= k < |parts| ==> |parts[k]| > 0
    ensures var j := Join(parts, sep);
      |j| > 0 && j[0] == parts[0][0] && j[|j| - 1] == parts[|parts| - 1][|parts[|parts| - 1]| - 1]
  {
    if |parts| > 1 {
      JoinEnds(parts[1..], sep);
    }
  }

  /** `get_git_remote` and `get_git_hash`: the stripped output of a successful
      query, otherwise `None`; a raised exception is swallowed. */
  function OptionalQuery(run: ProcessResult): (r: Option<string>)
    ensures r.Some? <==> run.Completed? && run.returnCode == 0
    ensures r.Some? ==> r.value == Strip(run.stdout)
  {
    match run
    case Completed(rc, out) => if rc == 0 then Some(Strip(out)) else None
    case Raised => None
  }
}
