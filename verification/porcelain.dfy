/** Reading `git blame --porcelain` output: the `author-mail` header lines and
    the e-mail address inside them. */
module Porcelain {
  import opened PyStr

  const AuthorMailTag := "author-mail"

  /** `line.startswith("author-mail")`. */
  predicate IsAuthorMail(line: string) {
    StartsWith(line, AuthorMailTag)
  }

  /** `line.split("<")[1].rstrip(">")`: the text between the first `<` and the
      next `<` (or the end of the line), without its trailing `>` characters. */
  function ExtractEmail(line: string): (email: string)
    requires '<' in line
    ensures '<' !in email
    ensures |email| > 0 ==> email[|email| - 1] != '>'
    ensures exists n: nat :: IsEmailAt(line, email, n)
  {
    var parts := Split(line, '<');
    SplitSecondPiece(line);
    var email := RStripChar(parts[1], '>');
    EmailInPiece(line, IndexOf(line, '<') + 1, parts[1], email);
    assert IsEmailAt(line, email, |parts[1]| - |email|);
    email
  }

  /** A prefix `email` of the piece starting at `i`, followed in it by closing
      brackets only, sits at `i` as `IsEmailAt` describes. */
  lemma EmailInPiece(line: string, i: nat, piece: string, email: string)
    requires i + |piece| <= |line| && line[i..i + |piece|] == piece
    requires i + |piece| == |line| || line[i + |piece|] == '<'
    requires |email| <= |piece| && email == piece[..|email|]
    requires forall k :: |email| <= k < |piece| ==> piece[k] == '>'
    requires '<' !in piece
    ensures EmailAt(line, i, email, |piece| - |email|)
    ensures '<' !in email
  {
    assert forall k :: 0 <= k < |email| ==> email[k] == piece[k];
    assert line[i..i + |email|] == email;
    forall k | i + |email| <= k < i + |piece| ensures line[k] == '>' {
      assert line[k] == piece[k - i];
    }
  }

  /** `email` starts right after the first `<` of `line` and is followed by `n`
      closing brackets and then either the end of the line or another `<`. */
  predicate IsEmailAt(line: string, email: string, n: nat)
    requires '<' in line
  {
    EmailAt(line, IndexOf(line, '<') + 1, email, n)
  }

  /** `email` sits at position `i` of `line`, followed by `n` closing brackets
      and then either the end of the line or a `<`. */
  predicate EmailAt(line: string, i: nat, email: string, n: nat) {
    && i + |email| + n <= |line|
    && line[i..i + |email|] == email
    && (forall k :: i + |email| <= k < i + |email| + n ==> line[k] == '>')
    && (i + |email| + n == |line| || line[i + |email| + n] == '<')
  }

  /** The second piece of `line.split("<")` is the text after the first `<`, up
      to the next `<` or the end. */
  lemma SplitSecondPiece(line: string)
    requires '<' in line
    ensures var parts := Split(line, '<'); var i := IndexOf(line, '<') + 1;
      && |parts| >= 2
      && i + |parts[1]| <= |line|
      && line[i..i + |parts[1]|] == parts[1]
      && (i + |parts[1]| == |line| || line[i + |parts[1]|] == '<')
  {
    var i := IndexOf(line, '<');
    var rest := line[i + 1..];
    var p1 := Split(rest, '<')[0];
    assert Split(line, '<') == [line[..i]] + Split(rest, '<');
    if '<' in rest {
      var j := IndexOf(rest, '<');
      assert p1 == rest[..j];
    }
  }
}
