/** `get_codebase_files`: the in-memory corpus sent for relatedness scoring,
    built from the `git ls-files` listing. The two copies of the function differ
    only in their suffix exclusion list. */
module Snapshot {
  import opened Wrappers
  import opened PyStr
  import opened Seqs

  /** One `{"filename": ..., "content": ...}` element of the corpus. */
  datatype Entry = Entry(filename: string, content: string)

  /** The largest content length, in characters, a file may have to be included. */
  const MaxContentLength := 50000

  /** Suffixes excluded by crisk/check.py. */
  const PackagedExclusions: seq<string> :=
    [".png", ".jpg", ".jpeg", ".gif", ".ico", ".pdf", ".zip", ".tar", ".gz", ".lock"]

  /** Suffixes excluded by crisk.py: the same list without `.lock`. */
  const LocalExclusions: seq<string> :=
    [".png", ".jpg", ".jpeg", ".gif", ".ico", ".pdf", ".zip", ".tar", ".gz"]

  /** `any(path.endswith(ext) for ext in exts)`. */
  predicate HasExcludedSuffix(path: string, exts: seq<string>) {
    exists k :: 0 <= k < |exts| && EndsWith(path, exts[k])
  }

  /** A listed path makes it into the corpus: it is non-empty, has no excluded
      suffix, can be read, and its content is within the ceiling. */
  predicate Admitted(path: string, read: string -> Option<string>, exts: seq<string>) {
    && path != ""
    && !HasExcludedSuffix(path, exts)
    && read(path).Some?
    && |read(path).value| <= MaxContentLength
  }

  function Filenames(entries: seq<Entry>): seq<string> {
    Seqs.Map(entries, (e: Entry) => e.filename)
  }

  lemma FilenamesCons(e: Entry, entries: seq<Entry>)
    ensures Filenames([e] + entries) == [e.filename] + Filenames(entries)
  {
    var all := [e] + entries;
    var names := Filenames(all);
    var expected := [e.filename] + Filenames(entries);
    forall k | 0 <= k < |names| ensures names[k] == expected[k] {
      if k > 0 {
        assert all[k] == entries[k - 1];
      }
    }
  }

  /** The loop of `get_codebase_files` over an already split listing. `read`
      stands for `open(path).read()` with undecodable bytes dropped, `None`
      when it raises `IOError`/`OSError`. */
  function BuildCorpus(paths: seq<string>, read: string -> Option<string>, exts: seq<string>): (corpus: seq<Entry>)
    ensures |corpus| <= |paths|
    ensures forall k :: 0 <= k < |corpus| ==>
      && Admitted(corpus[k].filename, read, exts)
      && read(corpus[k].filename) == Some(corpus[k].content)
    ensures IsSubseq(Filenames(corpus), paths)
    ensures forall k :: 0 <= k < |paths| && Admitted(paths[k], read, exts) ==> paths[k] in Filenames(corpus)
  {
    if |paths| == 0 then []
    else
      var rest := BuildCorpus(paths[1..], read, exts);
      var p := paths[0];
      if Admitted(p, read, exts) then
        var corpus := [Entry(p, read(p).value)] + rest;
        FilenamesCons(Entry(p, read(p).value), rest);
        assert paths == [p] + paths[1..];
        corpus
      else
        SubseqCons(Filenames(rest), paths[1..], p);
        assert paths == [p] + paths[1..];
        rest
  }

  /** The corpus lists every admitted path as often as the listing does, and
      nothing else. */
  lemma {:induction false} BuildCorpusCounts(paths: seq<string>, read: string -> Option<string>, exts: seq<string>)
    ensures forall q :: multiset(Filenames(BuildCorpus(paths, read, exts)))[q]
                     == if Admitted(q, read, exts) then multiset(paths)[q] else 0
  {
    if |paths| > 0 {
      BuildCorpusCounts(paths[1..], read, exts);
      CorpusNamesStep(paths, read, exts);
      CorpusCountStep(paths, read, exts, Filenames(BuildCorpus(paths[1..], read, exts)),
                      Filenames(BuildCorpus(paths, read, exts)));
    }
  }

  /** The names of the corpus, one path at a time. */
  lemma CorpusNamesStep(paths: seq<string>, read: string -> Option<string>, exts: seq<string>)
    requires |paths| > 0
    ensures Filenames(BuildCorpus(paths, read, exts))
         == (if Admitted(paths[0], read, exts) then [paths[0]] else []) + Filenames(BuildCorpus(paths[1..], read, exts))
  {
    var rest := BuildCorpus(paths[1..], read, exts);
    if Admitted(paths[0], read, exts) {
      FilenamesCons(Entry(paths[0], read(paths[0]).value), rest);
    } else {
      assert BuildCorpus(paths, read, exts) == rest;
    }
  }

  /** One step of the corpus loop keeps the count of every path: an admitted
      path adds one occurrence, any other adds none. */
  lemma CorpusCountStep(paths: seq<string>, read: string -> Option<string>, exts: seq<string>,
                        restNames: seq<string>, names: seq<string>)
    requires |paths| > 0
    requires forall q :: multiset(restNames)[q]
                      == if Admitted(q, read, exts) then multiset(paths[1..])[q] else 0
    requires names == (if Admitted(paths[0], read, exts) then [paths[0]] else []) + restNames
    ensures forall q :: multiset(names)[q] == if Admitted(q, read, exts) then multiset(paths)[q] else 0
  {
    assert paths == [paths[0]] + paths[1..];
    assert multiset(paths) == multiset([paths[0]]) + multiset(paths[1..]);
  }

  /** `get_codebase_files` given the `git ls-files` output and an exclusion list. */
  function CodebaseFiles(lsFiles: string, read: string -> Option<string>, exts: seq<string>): (corpus: seq<Entry>)
    ensures forall k :: 0 <= k < |corpus| ==>
      && corpus[k].filename != ""
      && !HasExcludedSuffix(corpus[k].filename, exts)
      && |corpus[k].content| <= MaxContentLength
      && read(corpus[k].filename) == Some(corpus[k].content)
    ensures IsSubseq(Filenames(corpus), Split(Strip(lsFiles), '\n'))
    ensures forall p :: multiset(Filenames(corpus))[p]
                     == if Admitted(p, read, exts) then multiset(Split(Strip(lsFiles), '\n'))[p] else 0
  {
    BuildCorpusCounts(Split(Strip(lsFiles), '\n'), read, exts);
    BuildCorpus(Split(Strip(lsFiles), '\n'), read, exts)
  }

  /** The corpus of crisk/check.py is the corpus of crisk.py without its
      `.lock` entries. */
  lemma {:induction false} PackagedDropsLockFiles(paths: seq<string>, read: string -> Option<string>)
    ensures BuildCorpus(paths, read, PackagedExclusions)
         == Filter(BuildCorpus(paths, read, LocalExclusions), NotLockEntry)
  {
    if |paths| > 0 {
      PackagedDropsLockFiles(paths[1..], read);
      ExclusionsDifferByLock(paths[0]);
    }
  }

  predicate NotLockEntry(e: Entry) {
    !EndsWith(e.filename, ".lock")
  }

  lemma ExclusionsDifferByLock(path: string)
    ensures HasExcludedSuffix(path, PackagedExclusions)
        <==> HasExcludedSuffix(path, LocalExclusions) || EndsWith(path, ".lock")
  {
    assert PackagedExclusions == LocalExclusions + [".lock"];
    SuffixListAppend(path, LocalExclusions, ".lock");
  }

  lemma SuffixListAppend(path: string, exts: seq<string>, ext: string)
    ensures HasExcludedSuffix(path, exts + [ext]) <==> HasExcludedSuffix(path, exts) || EndsWith(path, ext)
  {
    var all := exts + [ext];
    if HasExcludedSuffix(path, all) && !EndsWith(path, ext) {
      var k :| 0 <= k < |all| && EndsWith(path, all[k]);
      assert all[k] == exts[k];
    }
    if HasExcludedSuffix(path, exts) {
      var k :| 0 <= k < |exts| && EndsWith(path, exts[k]);
      assert all[k] == exts[k];
    }
    if EndsWith(path, ext) {
      assert all[|exts|] == ext;
    }
  }

  /** On a listing without `.lock` files both copies build the same corpus. */
  lemma {:induction false} SameCorpusWithoutLockFiles(paths: seq<string>, read: string -> Option<string>)
    requires forall k :: 0 <= k < |paths| ==> !EndsWith(paths[k], ".lock")
    ensures BuildCorpus(paths, read, PackagedExclusions) == BuildCorpus(paths, read, LocalExclusions)
  {
    if |paths| > 0 {
      assert forall k :: 0 <= k < |paths[1..]| ==> paths[1..][k] == paths[k + 1];
      SameCorpusWithoutLockFiles(paths[1..], read);
      ExclusionsDifferByLock(paths[0]);
    }
  }
}
