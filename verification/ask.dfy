/** `get_blame_info` in ask.py: who last touched one line of a file, the
    subject of that commit, and the surrounding code with line numbers. The
    two `git` runs and the file read are inputs. */
module Ask {
  import opened Wrappers
  import opened PyStr
  import opened Seqs
  import opened Inspector
  import opened Porcelain

  /** Lines shown on either side of the target line. */
  const ContextRadius := 10

  const TargetMarker := ">>>"
  const PlainMarker := "   "

  /** One line of the code snippet. */
  datatype SnippetLine = SnippetLine(marker: string, number: int, text: string)

  /** The dict `get_blame_info` returns. `authorEmail` is `None` when the blame
      output has no `author-mail` line. */
  datatype BlameInfo = BlameInfo(
    authorEmail: Option<string>,
    commitHash: string,
    commitMsg: string,
    codeSnippet: string,
    filePath: string,
    lineNumber: int)

  /** The exception `get_blame_info` raises instead of returning. */
  datatype BlameError =
    | BlameNotRun              // running `git blame` raised
    | BlameFailed(returnCode: int)  // `git blame` exited non-zero
    | NoCommitHash             // `lines[0].split()[0]`: `IndexError`
    | MalformedAuthorMail      // `line.split("<")[1]`: `IndexError`
    | ShowNotRun               // running `git show` raised
    | FileUnreadable           // `open(file_path)` or `f.readlines()` raised

  /** `max(1, n - 10)`, the first line number shown. */
  function WindowStart(n: int): (start: int)
    ensures start >= 1
    ensures start >= n - ContextRadius
    ensures start == 1 || start == n - ContextRadius
  {
    if n - ContextRadius > 1 then n - ContextRadius else 1
  }

  /** `all_lines[start-1:n+10]` numbered from `start`, the line numbered `n`
      carrying the `>>>` marker. For `n < -10` the upper bound is negative and
      Python counts it from the end of the file. */
  function ContextWindow(lines: seq<string>, n: int): (window: seq<SnippetLine>)
    ensures forall k :: 0 <= k < |window| ==>
      && window[k].number == WindowStart(n) + k
      && 0 <= WindowStart(n) - 1 + k < |lines|
      && window[k].text == lines[WindowStart(n) - 1 + k]
    ensures forall k :: 0 <= k < |window| ==>
      && (window[k].marker == TargetMarker <==> window[k].number == n)
      && (window[k].marker == TargetMarker || window[k].marker == PlainMarker)
    ensures n >= 1 ==> |window| <= 2 * ContextRadius + 1
    ensures n >= 1 ==> forall k :: 0 <= k < |window| ==> window[k].number <= n + ContextRadius
    ensures n >= 1 ==>
      |window| == if WindowStart(n) <= |lines|
                  then (if n + ContextRadius < |lines| then n + ContextRadius else |lines|) - WindowStart(n) + 1
                  else 0
  {
    var start := WindowStart(n);
    var shown := Slice(lines, start - 1, n + ContextRadius);
    assert SliceBound(|lines|, start - 1) == if start - 1 < |lines| then start - 1 else |lines|;
    seq(|shown|, k requires 0 <= k < |shown| =>
      SnippetLine(if start + k == n then TargetMarker else PlainMarker, start + k, shown[k]))
  }

  /** How many lines of `window` carry the `>>>` marker. */
  function CountMarked(window: seq<SnippetLine>): nat {
    if |window| == 0 then 0
    else (if window[0].marker == TargetMarker then 1 else 0) + CountMarked(window[1..])
  }

  lemma {:induction false} CountMarkedNone(window: seq<SnippetLine>)
    requires forall k :: 0 <= k < |window| ==> window[k].marker != TargetMarker
    ensures CountMarked(window) == 0
  {
    if |window| > 0 {
      CountMarkedNone(window[1..]);
    }
  }

  lemma {:induction false} CountMarkedOne(window: seq<SnippetLine>, j: nat)
    requires j < |window| && window[j].marker == TargetMarker
    requires forall k :: 0 <= k < |window| && k != j ==> window[k].marker != TargetMarker
    ensures CountMarked(window) == 1
  {
    if j == 0 {
      CountMarkedNone(window[1..]);
    } else {
      CountMarkedOne(window[1..], j - 1);
    }
  }

  /** The marker appears exactly once when `n` names a line of the file, and
      not at all otherwise. */
  lemma MarkedOnceIffInFile(lines: seq<string>, n: int)
    ensures CountMarked(ContextWindow(lines, n)) == if 1 <= n <= |lines| then 1 else 0
  {
    var w := ContextWindow(lines, n);
    var start := WindowStart(n);
    if 1 <= n <= |lines| {
      var j := n - start;
      assert 0 <= j <= ContextRadius;
      assert j < |w|;
      CountMarkedOne(w, j);
    } else {
      CountMarkedNone(w);
    }
  }

  /** A target line of the file is in the window with its own text. */
  lemma TargetLineShown(lines: seq<string>, n: int)
    requires 1 <= n <= |lines|
    ensures exists k :: (0 <= k < |ContextWindow(lines, n)|
      && ContextWindow(lines, n)[k] == SnippetLine(TargetMarker, n, lines[n - 1]))
  {
    var w := ContextWindow(lines, n);
    var k := n - WindowStart(n);
    assert k < |w|;
    assert w[k] == SnippetLine(TargetMarker, n, lines[n - 1]);
  }

  /** `f"{marker} {i}: {line}"`; `line` keeps the newline `readlines` left on it. */
  function RenderLine(line: SnippetLine): string {
    line.marker + " " + IntToString(line.number) + ": " + line.text
  }

  /** The `code_snippet` string: the rendered lines, concatenated. */
  function RenderSnippet(window: seq<SnippetLine>): (snippet: string)
    ensures |window| == 0 ==> snippet == ""
    ensures |window| == 1 ==> snippet == RenderLine(window[0])
  {
    if |window| == 0 then "" else RenderLine(window[0]) + RenderSnippet(window[1..])
  }

  /** Rendering works line by line: a window split in two renders as the two
      renderings one after the other. */
  lemma {:induction false} RenderSnippetAppend(a: seq<SnippetLine>, b: seq<SnippetLine>)
    ensures RenderSnippet(a + b) == RenderSnippet(a) + RenderSnippet(b)
  {
    if |a| > 0 {
      var h := RenderLine(a[0]);
      assert (a + b)[0] == a[0] && (a + b)[1..] == a[1..] + b;
      assert RenderSnippet(a + b) == h + RenderSnippet(a[1..] + b);
      RenderSnippetAppend(a[1..], b);
      assert h + (RenderSnippet(a[1..]) + RenderSnippet(b)) == (h + RenderSnippet(a[1..])) + RenderSnippet(b);
    } else {
      assert a + b == b;
    }
  }

  /** The snippet of a target line of the file contains that line's
      rendering, `>>> n: <text>`. */
  lemma TargetLineRendered(lines: seq<string>, n: int)
    requires 1 <= n <= |lines|
    ensures exists k :: (0 <= k < |ContextWindow(lines, n)|
      && RenderSnippet(ContextWindow(lines, n))
         == RenderSnippet(ContextWindow(lines, n)[..k])
            + RenderLine(SnippetLine(TargetMarker, n, lines[n - 1]))
            + RenderSnippet(ContextWindow(lines, n)[k + 1..]))
  {
    var w := ContextWindow(lines, n);
    var k := n - WindowStart(n);
    TargetLineShown(lines, n);
    assert k < |w| && w[k] == SnippetLine(TargetMarker, n, lines[n - 1]);
    assert w == w[..k] + [w[k]] + w[k + 1..];
    RenderSnippetAppend(w[..k] + [w[k]], w[k + 1..]);
    RenderSnippetAppend(w[..k], [w[k]]);
  }

  /** Index of the first `author-mail` line, if any. */
  function FirstAuthorMail(lines: seq<string>): (j: Option<nat>)
    ensures j.None? <==> forall k :: 0 <= k < |lines| ==> !IsAuthorMail(lines[k])
    ensures j.Some? ==> j.value < |lines| && IsAuthorMail(lines[j.value])
    ensures j.Some? ==> forall k :: 0 <= k < j.value ==> !IsAuthorMail(lines[k])
  {
    if |lines| == 0 then None
    else if IsAuthorMail(lines[0]) then Some(0)
    else match FirstAuthorMail(lines[1..])
      case None => None
      case Some(j) => Some(j + 1)
  }

  /** The author loop: the address on the first `author-mail` line, `None` when
      there is none, an error when that line has no `<`. */
  function AuthorEmail(lines: seq<string>): (r: Result<Option<string>, BlameError>)
    ensures r.Err? ==> r.error == MalformedAuthorMail
    ensures FirstAuthorMail(lines).None? ==> r == Ok(None)
    ensures FirstAuthorMail(lines).Some? ==>
      var line := lines[FirstAuthorMail(lines).value];
      && ('<' !in line ==> r == Err(MalformedAuthorMail))
      && ('<' in line ==> r.Ok? && r.value.Some? && exists n: nat :: IsEmailAt(line, r.value.value, n))
    ensures FirstAuthorMail(lines).Some? && '<' in lines[FirstAuthorMail(lines).value] ==>
      r == Ok(Some(ExtractEmail(lines[FirstAuthorMail(lines).value])))
  {
    match FirstAuthorMail(lines)
    case None => Ok(None)
    case Some(j) =>
      if '<' in lines[j] then Ok(Some(ExtractEmail(lines[j]))) else Err(MalformedAuthorMail)
  }

  /** The lines of a blame run's stripped output. */
  function BlameLines(out: string): (lines: seq<string>)
    ensures |lines| >= 1
    ensures forall k :: 0 <= k < |lines| ==> '\n' !in lines[k]
    ensures Join(lines, '\n') == Strip(out)
  {
    JoinSplit(Strip(out), '\n');
    Split(Strip(out), '\n')
  }

  /** Reading a successful blame run: the commit hash is the first field of
      the first line of the stripped output, and the author comes from the first
      `author-mail` line. */
  function ParseBlame(out: string): (r: Result<(string, Option<string>), BlameError>)
    ensures AllSpace(BlameLines(out)[0]) <==> r == Err(NoCommitHash)
    ensures r.Ok? ==> exists i :: IsFirstField(BlameLines(out)[0], i, r.value.0)
    ensures r.Ok? ==> AuthorEmail(BlameLines(out)) == Ok(r.value.1)
    ensures r.Err? && !AllSpace(BlameLines(out)[0]) ==> AuthorEmail(BlameLines(out)) == Err(r.error)
  {
    var lines := BlameLines(out);
    match FirstField(lines[0])
    case None => Err(NoCommitHash)
    case Some(hash) =>
      match AuthorEmail(lines)
      case Err(e) => Err(e)
      case Ok(author) => Ok((hash, author))
  }

  /** `get_blame_info(file_path, line_number)`: `blame` is the run of
      `git blame -L n,n --porcelain`, `show` the run of `git show -s --format=%s`
      for a commit, and `file` the lines `readlines` gives, `None` when the file
      cannot be opened. */
  function GetBlameInfo(filePath: string, n: int, blame: ProcessResult,
                        show: string -> ProcessResult, file: Option<seq<string>>): (r: Result<BlameInfo, BlameError>)
    ensures blame.Raised? ==> r == Err(BlameNotRun)
    ensures blame.Completed? && blame.returnCode != 0 ==> r == Err(BlameFailed(blame.returnCode))
    ensures r.Ok? ==> r.value.filePath == filePath && r.value.lineNumber == n
    ensures r.Ok? ==>
      && blame.Completed? && blame.returnCode == 0
      && ParseBlame(blame.stdout) == Ok((r.value.commitHash, r.value.authorEmail))
      && show(r.value.commitHash).Completed?
      && r.value.commitMsg == Strip(show(r.value.commitHash).stdout)
      && file.Some?
      && r.value.codeSnippet == RenderSnippet(ContextWindow(file.value, n))
    ensures blame.Completed? && blame.returnCode == 0 && ParseBlame(blame.stdout).Err? ==>
      r == Err(ParseBlame(blame.stdout).error)
    ensures r == Err(FileUnreadable) ==> file.None?
    ensures r == Err(BlameNotRun) <==> blame.Raised?
    ensures r.Err? && r.error.BlameFailed? <==> blame.Completed? && blame.returnCode != 0
    ensures r.Ok? <==>
      && blame.Completed? && blame.returnCode == 0 && ParseBlame(blame.stdout).Ok?
      && show(ParseBlame(blame.stdout).value.0).Completed? && file.Some?
    ensures r == Err(ShowNotRun) <==>
      && blame.Completed? && blame.returnCode == 0 && ParseBlame(blame.stdout).Ok?
      && show(ParseBlame(blame.stdout).value.0).Raised?
    ensures r == Err(FileUnreadable) <==>
      && blame.Completed? && blame.returnCode == 0 && ParseBlame(blame.stdout).Ok?
      && show(ParseBlame(blame.stdout).value.0).Completed? && file.None?
  {
    match blame
    case Raised => Err(BlameNotRun)
    case Completed(rc, out) =>
      if rc != 0 then Err(BlameFailed(rc))
      else
        match ParseBlame(out)
        case Err(e) => Err(e)
        case Ok(parsed) =>
          var (hash, author) := parsed;
          match show(hash)
          case Raised => Err(ShowNotRun)
          case Completed(_, subject) =>
            match file
            case None => Err(FileUnreadable)
            case Some(all) =>
              Ok(BlameInfo(author, hash, Strip(subject),
                           RenderSnippet(ContextWindow(all, n)), filePath, n))
  }
}
