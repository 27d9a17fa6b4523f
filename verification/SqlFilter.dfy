/** The filter that keeps extensions from ending the transaction they run in. */
module SqlFilter {
  import opened Text
  import opened Errors

  const TRANSACTION_STATEMENTS := ["commit", "rollback"]

  predicate Padding(c: char) {
    c in "\t\r\n ;"
  }

  predicate AllPadding(s: string) {
    forall i | 0 <= i < |s| :: Padding(s[i])
  }

  function AsciiLower(c: char): char {
    if 'A' <= c <= 'Z' then c - 'A' + 'a' else c
  }

  /** Lower case as far as it can produce a letter of the two words: besides the ASCII capitals
      only U+0130 and U+212A have an ASCII lower case. Every other character stays non-ASCII. */
  function LowerChar(c: char): char {
    if c == '\U{0130}' then 'i' else if c == '\U{212A}' then 'k' else AsciiLower(c)
  }

  function Lower(s: string): string {
    seq(|s|, i requires 0 <= i < |s| => LowerChar(s[i]))
  }

  function TrimLeft(s: string): string {
    if s != "" && Padding(s[0]) then TrimLeft(s[1..]) else s
  }

  function TrimRight(s: string): string {
    if s != "" && Padding(s[|s| - 1]) then TrimRight(s[..|s| - 1]) else s
  }

  function NormalForm(s: string): string {
    TrimRight(TrimLeft(Lower(s)))
  }

  /** The word at index i, up to the given folding of characters, with nothing but padding around it. */
  predicate PaddedWordAt(s: string, word: string, i: nat, fold: char -> char) {
    && i + |word| <= |s|
    && (forall k | 0 <= k < i :: Padding(s[k]))
    && (forall k | i <= k < i + |word| :: fold(s[k]) == word[k - i])
    && (forall k | i + |word| <= k < |s| :: Padding(s[k]))
  }

  predicate IsPaddedWord(s: string, word: string) {
    exists i :: 0 <= i <= |s| && PaddedWordAt(s, word, i, LowerChar)
  }

  /** How the database recognises a transaction statement; it folds ASCII letters only. */
  predicate EndsTransaction(s: string, word: string) {
    exists i :: 0 <= i <= |s| && PaddedWordAt(s, word, i, AsciiLower)
  }

  // ----- What the filter should refuse, in terms of single characters -----

  /** The character is the given lower-case letter, its capital, or one of the two non-ASCII letters
      with an ASCII lower case. */
  predicate Writes(c: char, letter: char) {
    || c == letter
    || c as int + 32 == letter as int
    || (letter == 'i' && c == '\U{0130}')
    || (letter == 'k' && c == '\U{212A}')
  }

  /** The statement is the word, in any case, between any number of tabs, line breaks, spaces and
      semicolons. */
  predicate IsStatement(s: string, word: string) {
    exists i :: 0 <= i <= |s| && IsStatementAt(s, word, i)
  }

  predicate IsStatementAt(s: string, word: string, i: nat) {
    && i + |word| <= |s|
    && (forall k | 0 <= k < i :: s[k] in ['\t', '\r', '\n', ' ', ';'])
    && (forall k | i <= k < i + |word| :: Writes(s[k], word[k - i]))
    && (forall k | i + |word| <= k < |s| :: s[k] in ['\t', '\r', '\n', ' ', ';'])
  }

  predicate Forbidden(s: string) {
    IsStatement(s, "commit") || IsStatement(s, "rollback")
  }

  predicate LowerCase(word: string) {
    forall k | 0 <= k < |word| :: 'a' <= word[k] <= 'z'
  }

  lemma PaddedWordIsStatement(s: string, word: string)
    requires LowerCase(word)
    ensures IsPaddedWord(s, word) <==> IsStatement(s, word)
  {
    assert forall c: char :: Padding(c) <==> c in ['\t', '\r', '\n', ' ', ';'];
    assert forall c: char, letter: char | 'a' <= letter <= 'z' :: LowerChar(c) == letter <==> Writes(c, letter);
    hide Padding, LowerChar, Writes;
    if IsPaddedWord(s, word) {
      var i :| 0 <= i <= |s| && PaddedWordAt(s, word, i, LowerChar);
      assert IsStatementAt(s, word, i);
    }
    if IsStatement(s, word) {
      var i :| 0 <= i <= |s| && IsStatementAt(s, word, i);
      assert PaddedWordAt(s, word, i, LowerChar);
    }
  }

  predicate Bare(word: string) {
    word != "" && !Padding(word[0]) && !Padding(word[|word| - 1])
  }

  lemma {:induction false} TrimLeftSplits(s: string) returns (i: nat)
    ensures i <= |s| && TrimLeft(s) == s[i..]
    ensures forall k | 0 <= k < i :: Padding(s[k])
    ensures i < |s| ==> !Padding(s[i])
  {
    i := 0;
    if s != "" && Padding(s[0]) {
      var n := TrimLeftSplits(s[1..]);
      i := n + 1;
      assert s[1..][n..] == s[i..];
      forall k | 0 <= k < i ensures Padding(s[k]) {
        assert k > 0 ==> s[k] == s[1..][k - 1];
      }
    }
  }

  lemma {:induction false} TrimRightSplits(s: string) returns (j: nat)
    ensures j <= |s| && TrimRight(s) == s[..j]
    ensures forall k | j <= k < |s| :: Padding(s[k])
    ensures j > 0 ==> !Padding(s[j - 1])
  {
    j := |s|;
    if s != "" && Padding(s[|s| - 1]) {
      var front := s[..|s| - 1];
      j := TrimRightSplits(front);
      assert front[..j] == s[..j];
      forall k | j <= k < |s| ensures Padding(s[k]) {
        assert k < |s| - 1 ==> s[k] == front[k];
      }
    }
  }

  /** Trimming takes away all padding at both ends and nothing else. */
  lemma TrimSplits(s: string) returns (i: nat, j: nat)
    ensures i <= j <= |s| && TrimRight(TrimLeft(s)) == s[i..j]
    ensures forall k | 0 <= k < i :: Padding(s[k])
    ensures forall k | j <= k < |s| :: Padding(s[k])
    ensures i < j ==> !Padding(s[i]) && !Padding(s[j - 1])
  {
    i := TrimLeftSplits(s);
    var rest := s[i..];
    var n := TrimRightSplits(rest);
    j := i + n;
    assert rest[..n] == s[i..j];
    forall k | j <= k < |s| ensures Padding(s[k]) {
      assert s[k] == rest[k - i];
    }
  }

  lemma PaddedWordIsNormal(s: string, word: string, n: nat)
    requires Bare(word) && PaddedWordAt(s, word, n, LowerChar)
    ensures NormalForm(s) == word
  {
    hide TrimLeft, TrimRight, LowerChar, Padding;
    var low := Lower(s);
    LowerKeepsPadding(s);
    var i, j := TrimSplits(low);
    assert low[n] == word[0] && low[n + |word| - 1] == word[|word| - 1];
    assert i == n && j == n + |word|;
    assert low[i..j] == word;
  }

  lemma LowerKeepsPadding(s: string)
    ensures |Lower(s)| == |s| && forall k | 0 <= k < |s| :: Lower(s)[k] == LowerChar(s[k]) && (Padding(Lower(s)[k]) <==> Padding(s[k]))
  {
  }

  lemma NormalIsPaddedWord(s: string, word: string)
    requires NormalForm(s) == word
    ensures IsPaddedWord(s, word)
  {
    hide TrimLeft, TrimRight, LowerChar, Padding;
    var low := Lower(s);
    LowerKeepsPadding(s);
    var i, j := TrimSplits(low);
    forall k | i <= k < i + |word| ensures LowerChar(s[k]) == word[k - i] {
      assert low[i..j][k - i] == low[k];
    }
    assert PaddedWordAt(s, word, i, LowerChar);
  }

  /** The comparison of normal forms finds exactly the padded spellings of a word. */
  lemma NormalFormDecides(s: string, word: string)
    requires Bare(word)
    ensures NormalForm(s) == word <==> IsPaddedWord(s, word)
  {
    hide NormalForm, PaddedWordAt, Bare;
    if IsPaddedWord(s, word) {
      var n :| 0 <= n <= |s| && PaddedWordAt(s, word, n, LowerChar);
      PaddedWordIsNormal(s, word, n);
    }
    if NormalForm(s) == word {
      NormalIsPaddedWord(s, word);
    }
  }

  /** The error for a statement that may not run. */
  function Verdict(query: string): (verdict: Option<Error>) {
    if IsPaddedWord(query, "commit") then Some(Plain(ForbiddenStatement(query, "commit")))
    else if IsPaddedWord(query, "rollback") then Some(Plain(ForbiddenStatement(query, "rollback")))
    else None
  }

  /** A statement is refused exactly if it is one of the two words between padding, and the error names
      that word. */
  lemma VerdictIsExact(query: string)
    ensures Verdict(query).None? <==> !Forbidden(query)
    ensures IsStatement(query, "commit") ==> Verdict(query) == Some(Plain(ForbiddenStatement(query, "commit")))
    ensures IsStatement(query, "rollback") ==> Verdict(query) == Some(Plain(ForbiddenStatement(query, "rollback")))
  {
    PaddedWordIsStatement(query, "commit");
    PaddedWordIsStatement(query, "rollback");
    NormalFormDecides(query, "commit");
    NormalFormDecides(query, "rollback");
    hide IsPaddedWord, IsStatement, NormalForm;
  }

  /** The search over the forbidden statements accepts exactly what is no transaction statement. */
  method ValidateQuery(originalQuery: string) returns (verdict: Option<Error>)
    ensures verdict == Verdict(originalQuery)
    ensures verdict.Some? <==> Forbidden(originalQuery)
  {
    VerdictIsExact(originalQuery);
    hide IsStatement, Forbidden;
    var query := NormalForm(originalQuery);
    NormalFormDecides(originalQuery, "commit");
    NormalFormDecides(originalQuery, "rollback");
    for i := 0 to |TRANSACTION_STATEMENTS|
      invariant i > 0 ==> query != "commit"
      invariant i > 1 ==> query != "rollback"
    {
      if TRANSACTION_STATEMENTS[i] == query {
        return Some(Plain(ForbiddenStatement(originalQuery, TRANSACTION_STATEMENTS[i])));
      }
    }
    return None;
  }

  /** The word a statement is refused for. */
  function RefusedFor(query: string): Option<string> {
    match Verdict(query)
    case Some(Plain(ForbiddenStatement(_, command))) => Some(command)
    case _ => None
  }

  /** Changing letter case or adding padding at either end never changes the verdict. */
  lemma VerdictIgnoresCaseAndPadding(s: string, t: string, before: string, after: string)
    requires Lower(s) == Lower(t) && AllPadding(before) && AllPadding(after)
    ensures Verdict(before + t + after).Some? <==> Verdict(s).Some?
    ensures RefusedFor(before + t + after) == RefusedFor(s)
  {
    PaddedVariant(s, t, before, after, "commit");
    PaddedVariant(s, t, before, after, "rollback");
    hide IsPaddedWord;
  }

  lemma PaddedVariant(s: string, t: string, before: string, after: string, word: string)
    requires Bare(word) && Lower(s) == Lower(t) && AllPadding(before) && AllPadding(after)
    ensures IsPaddedWord(before + t + after, word) <==> IsPaddedWord(s, word)
  {
    NormalFormDecides(s, word);
    NormalFormDecides(t, word);
    if IsPaddedWord(t, word) {
      PadWord(t, before, after, word);
    }
    if IsPaddedWord(before + t + after, word) {
      UnpadWord(t, before, after, word);
    }
  }

  lemma PadWord(t: string, before: string, after: string, word: string)
    requires AllPadding(before) && AllPadding(after) && IsPaddedWord(t, word)
    ensures IsPaddedWord(before + t + after, word)
  {
    var i :| 0 <= i <= |t| && PaddedWordAt(t, word, i, LowerChar);
    var padded, n := before + t + after, |before| + i;
    forall k | n <= k < n + |word| ensures LowerChar(padded[k]) == word[k - n] {
      assert padded[k] == t[k - |before|];
    }
    assert PaddedWordAt(padded, word, n, LowerChar);
  }

  lemma UnpadWord(t: string, before: string, after: string, word: string)
    requires Bare(word) && AllPadding(before) && AllPadding(after) && IsPaddedWord(before + t + after, word)
    ensures IsPaddedWord(t, word)
  {
    var padded, b := before + t + after, |before|;
    var n :| 0 <= n <= |padded| && PaddedWordAt(padded, word, n, LowerChar);
    var last := n + |word| - 1;
    assert LowerChar(padded[n]) == word[n - n] && LowerChar(padded[last]) == word[last - n];
    assert !Padding(padded[n]) && !Padding(padded[last]);
    assert forall k | 0 <= k < b :: padded[k] == before[k];
    assert forall k | b + |t| <= k < |padded| :: padded[k] == after[k - b - |t|];
    assert b <= n && last < b + |t|;
    var i := n - b;
    assert forall k | 0 <= k < |t| :: t[k] == padded[b + k];
    forall k | i <= k < i + |word| ensures LowerChar(t[k]) == word[k - i] {
      assert t[k] == padded[b + k] && LowerChar(padded[b + k]) == word[b + k - n];
    }
    assert PaddedWordAt(t, word, i, LowerChar);
  }

  /** No accepted statement ends a transaction, and the filter refuses more than the database
      recognises only because of the two non-ASCII letters that fold into the words. */
  lemma FilterCoversDatabase(s: string)
    ensures EndsTransaction(s, "commit") || EndsTransaction(s, "rollback") ==> Verdict(s).Some?
    ensures '\U{0130}' !in s && '\U{212A}' !in s ==>
              (Verdict(s).Some? <==> EndsTransaction(s, "commit") || EndsTransaction(s, "rollback"))
  {
    SpellingsAgree(s, "commit");
    SpellingsAgree(s, "rollback");
    hide IsPaddedWord, EndsTransaction;
  }

  lemma SpellingsAgree(s: string, word: string)
    requires word == "commit" || word == "rollback"
    ensures EndsTransaction(s, word) ==> IsPaddedWord(s, word)
    ensures '\U{0130}' !in s && '\U{212A}' !in s ==> (IsPaddedWord(s, word) ==> EndsTransaction(s, word))
  {
    if EndsTransaction(s, word) {
      var i :| 0 <= i <= |s| && PaddedWordAt(s, word, i, AsciiLower);
      forall k | i <= k < i + |word| ensures LowerChar(s[k]) == word[k - i] {
        assert AsciiLower(s[k]) == word[k - i] <= 't';
      }
      assert PaddedWordAt(s, word, i, LowerChar);
    }
    if '\U{0130}' !in s && '\U{212A}' !in s && IsPaddedWord(s, word) {
      var i :| 0 <= i <= |s| && PaddedWordAt(s, word, i, LowerChar);
      assert forall k | 0 <= k < |s| :: s[k] in s;
      assert PaddedWordAt(s, word, i, AsciiLower);
    }
  }

  /** A statement with an E in it is neither word: how the program's own statements pass. */
  lemma ForeignLetter(s: string, k: nat)
    requires k < |s| && s[k] == 'E'
    ensures !EndsTransaction(s, "commit") && !EndsTransaction(s, "rollback")
  {
    assert !Padding(s[k]) && AsciiLower(s[k]) == 'e';
    assert forall i | 0 <= i < 6 :: "commit"[i] != 'e';
    assert forall i | 0 <= i < 8 :: "rollback"[i] != 'e';
  }
}
