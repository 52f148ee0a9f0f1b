/** `get_file_owner` (identical in crisk/check.py and crisk.py): the dominant
    `author-mail` address of a file's `git blame --porcelain` output. */
module Ownership {
  import opened Wrappers
  import opened PyStr
  import opened Seqs
  import opened OrderedMap
  import opened Inspector
  import opened Porcelain

  /** The owner reported when authorship cannot be determined. */
  const Unknown := "unknown"

  /** The dict key one `author-mail` line contributes: its address, or
      `"unknown"` when the line has no `<`. */
  function MailKey(line: string): string {
    if '<' in line then ExtractEmail(line) else Unknown
  }

  /** The keys counted for `lines`, one per `author-mail` line, in order.
      Porcelain output repeats these headers only on a commit's first
      appearance, so this counts header lines, not source lines. */
  function AuthorKeys(lines: seq<string>): (keys: seq<string>)
    ensures |keys| <= |lines|
    ensures |keys| == 0 <==> forall k :: 0 <= k < |lines| ==> !IsAuthorMail(lines[k])
  {
    if |lines| == 0 then []
    else (if IsAuthorMail(lines[0]) then [MailKey(lines[0])] else []) + AuthorKeys(lines[1..])
  }

  /** One key per `author-mail` line, in order: the key `MailKey` reads off
      that line. */
  lemma {:induction false} AuthorKeysOfMailLines(lines: seq<string>)
    ensures |AuthorKeys(lines)| == |Filter(lines, IsAuthorMail)|
    ensures forall j :: 0 <= j < |AuthorKeys(lines)| ==>
      AuthorKeys(lines)[j] == MailKey(Filter(lines, IsAuthorMail)[j])
  {
    if |lines| > 0 {
      AuthorKeysOfMailLines(lines[1..]);
      MailLinesStep(lines, AuthorKeys(lines[1..]), Filter(lines[1..], IsAuthorMail));
    }
  }

  lemma MailLinesStep(lines: seq<string>, keys: seq<string>, mails: seq<string>)
    requires |lines| > 0
    requires keys == AuthorKeys(lines[1..]) && mails == Filter(lines[1..], IsAuthorMail)
    requires |keys| == |mails| && forall j :: 0 <= j < |keys| ==> keys[j] == MailKey(mails[j])
    ensures |AuthorKeys(lines)| == |Filter(lines, IsAuthorMail)|
    ensures forall j :: 0 <= j < |AuthorKeys(lines)| ==>
      AuthorKeys(lines)[j] == MailKey(Filter(lines, IsAuthorMail)[j])
  {
    if IsAuthorMail(lines[0]) {
      assert Filter(lines, IsAuthorMail) == [lines[0]] + mails;
      assert AuthorKeys(lines) == [MailKey(lines[0])] + keys;
      MailKeysCons(lines[0], keys, mails);
    } else {
      assert Filter(lines, IsAuthorMail) == mails;
      assert AuthorKeys(lines) == keys;
    }
  }

  lemma MailKeysCons(line: string, keys: seq<string>, mails: seq<string>)
    requires |keys| == |mails| && forall j :: 0 <= j < |keys| ==> keys[j] == MailKey(mails[j])
    ensures var k, f := [MailKey(line)] + keys, [line] + mails;
      forall j :: 0 <= j < |k| ==> k[j] == MailKey(f[j])
  {
    var k, f := [MailKey(line)] + keys, [line] + mails;
    forall j | 0 <= j < |k| ensures k[j] == MailKey(f[j]) {
      if j > 0 {
        assert k[j] == keys[j - 1] && f[j] == mails[j - 1];
      }
    }
  }

  /** `o` occurs in `keys` as often as any key does, and every key occurring
      as often first appears no earlier than `o`. */
  ghost predicate IsFirstMostFrequent(o: string, keys: seq<string>) {
    && o in keys
    && forall x :: x in keys ==>
         && multiset(keys)[x] <= multiset(keys)[o]
         && (multiset(keys)[x] == multiset(keys)[o] ==> FirstIndex(keys, o) <= FirstIndex(keys, x))
  }

  /** `max(authors, key=authors.get)` over the counting dict of `keys`. */
  function MostFrequent(keys: seq<string>): (o: string)
    requires |keys| > 0
    ensures IsFirstMostFrequent(o, keys)
  {
    var m := CountOccurrences(keys);
    CountOccurrencesValues(keys);
    assert Get(m, keys[0]).Some?;
    var i := FirstMaxIndex(m);
    MostFrequentSpec(keys, i);
    m[i].0
  }

  lemma MostFrequentSpec(keys: seq<string>, i: nat)
    requires |keys| > 0
    requires i < |CountOccurrences(keys)| && i == FirstMaxIndex(CountOccurrences(keys))
    ensures IsFirstMostFrequent(CountOccurrences(keys)[i].0, keys)
  {
    var m := CountOccurrences(keys);
    var ks := Keys(m);
    CountOccurrencesKeys(keys);
    var o := m[i].0;
    KeysIndex(m, i);
    assert o in keys;
    forall x | x in keys
      ensures multiset(keys)[x] <= multiset(keys)[o]
      ensures multiset(keys)[x] == multiset(keys)[o] ==> FirstIndex(keys, o) <= FirstIndex(keys, x)
    {
      assert x in ks;
      var j :| 0 <= j < |ks| && ks[j] == x;
      KeysIndex(m, j);
      CountAt(keys, j);
      CountAt(keys, i);
      assert m[j].1 <= m[i].1;
      if j < i {
        assert m[j].1 < m[i].1;
      } else if j > i {
        assert FirstIndex(keys, ks[i]) < FirstIndex(keys, ks[j]);
      }
    }
  }

  /** The `j`-th entry of the counting dict of `keys` holds its key's count. */
  lemma CountAt(keys: seq<string>, j: nat)
    requires j < |CountOccurrences(keys)|
    ensures CountOccurrences(keys)[j].1 == multiset(keys)[CountOccurrences(keys)[j].0]
  {
    var m := CountOccurrences(keys);
    CountOccurrencesValues(keys);
    CountOccurrencesKeys(keys);
    KeysIndex(m, j);
    GetEntry(m, j);
    assert Get(m, m[j].0) == Some(multiset(keys)[m[j].0]);
  }

  /** The owner `get_file_owner` reports for one blame run. */
  function FileOwner(run: ProcessResult): (owner: string)
    ensures run.Raised? ==> owner == Unknown
    ensures run.Completed? && run.returnCode != 0 ==> owner == Unknown
    ensures run.Completed? && run.returnCode == 0 ==>
      var keys := AuthorKeys(Split(run.stdout, '\n'));
      && (|keys| == 0 ==> owner == Unknown)
      && (|keys| > 0 ==> IsFirstMostFrequent(owner, keys))
  {
    match run
    case Raised => Unknown
    case Completed(rc, out) =>
      if rc != 0 then Unknown
      else
        var keys := AuthorKeys(Split(out, '\n'));
        if |keys| == 0 then Unknown else MostFrequent(keys)
  }
}
