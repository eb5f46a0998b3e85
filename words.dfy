/**
 * Normalisation (`cleanUpWord`) and tokenising (`getWordList`) of
 * NaiveSpellChecker.
 */
module Words {
  import opened Sequences
  import opened JavaText

  /** The characters the pattern `[^a-zA-Z0-9]+` does not remove. */
  predicate IsWordChar(c: char) {
    'a' <= c <= 'z' || 'A' <= c <= 'Z' || '0' <= c <= '9'
  }

  /** The characters a normalised word is made of. */
  predicate IsCleanChar(c: char) {
    'a' <= c <= 'z' || '0' <= c <= '9'
  }

  predicate IsClean(w: string) {
    forall i :: 0 <= i < |w| ==> IsCleanChar(w[i])
  }

  /** `String.toLowerCase`, restricted to ASCII. */
  function ToLower(s: string): string {
    seq(|s|, i requires 0 <= i < |s| => ToLowerAscii(s[i]))
  }

  /** `replaceAll("[^a-zA-Z0-9]+", "")`: every run of other characters
      is replaced by nothing, so each such character goes. */
  function RemoveNonWordChars(s: string): string {
    if s == [] then []
    else (if IsWordChar(s[0]) then [s[0]] else []) + RemoveNonWordChars(s[1..])
  }

  function TrimStart(s: string): string {
    if s != [] && s[0] <= ' ' then TrimStart(s[1..]) else s
  }

  function TrimEnd(s: string): string {
    if s != [] && s[|s| - 1] <= ' ' then TrimEnd(s[..|s| - 1]) else s
  }

  /** `String.trim`: drops the code units up to U+0020 at both ends. */
  function Trim(s: string): string {
    TrimEnd(TrimStart(s))
  }

  /** `cleanUpWord`: lower-case, drop every character outside
      `[a-zA-Z0-9]`, trim. */
  function CleanUpWord(word: string): string {
    Trim(RemoveNonWordChars(ToLower(word)))
  }

  // ---------------------------------------------------------------------
  // Normalisation properties

  lemma TrimClean(s: string)
    requires IsClean(s)
    ensures Trim(s) == s
  {
    assert TrimStart(s) == s;
  }

  lemma {:induction false} RemoveNonWordCharsOfLower(s: string)
    requires forall i :: 0 <= i < |s| ==> !('A' <= s[i] <= 'Z')
    ensures IsClean(RemoveNonWordChars(s))
    ensures |RemoveNonWordChars(s)| <= |s|
  {
    if s != [] {
      RemoveNonWordCharsOfLower(s[1..]);
    }
  }

  lemma {:induction false} RemoveNonWordCharsOfClean(s: string)
    requires IsClean(s)
    ensures RemoveNonWordChars(s) == s
  {
    if s != [] {
      RemoveNonWordCharsOfClean(s[1..]);
      assert [s[0]] + s[1..] == s;
    }
  }

  lemma {:induction false} RemoveNonWordCharsConcat(a: string, b: string)
    ensures RemoveNonWordChars(a + b) == RemoveNonWordChars(a) + RemoveNonWordChars(b)
  {
    if a != [] {
      RemoveNonWordCharsConcat(a[1..], b);
      assert (a + b)[1..] == a[1..] + b;
    } else {
      assert a + b == b;
    }
  }

  /** A cleaned word is made of `a-z` and `0-9` only, and is no longer
      than the raw token. */
  lemma CleanUpWordIsClean(word: string)
    ensures IsClean(CleanUpWord(word))
    ensures |CleanUpWord(word)| <= |word|
  {
    RemoveNonWordCharsOfLower(ToLower(word));
    TrimClean(RemoveNonWordChars(ToLower(word)));
  }

  /** A word is its own cleanup exactly when it is made of `a-z0-9`. */
  lemma CleanUpWordFixpoint(word: string)
    ensures CleanUpWord(word) == word <==> IsClean(word)
  {
    if IsClean(word) {
      assert ToLower(word) == word;
      RemoveNonWordCharsOfClean(word);
      TrimClean(word);
    } else {
      CleanUpWordIsClean(word);
    }
  }

  /** Cleaning twice is cleaning once. */
  lemma CleanUpWordIdempotent(word: string)
    ensures CleanUpWord(CleanUpWord(word)) == CleanUpWord(word)
  {
    CleanUpWordIsClean(word);
    CleanUpWordFixpoint(CleanUpWord(word));
  }

  /** Cleaning works character by character: the cleanup of a
      concatenation is the concatenation of the cleanups. */
  lemma CleanUpWordConcat(a: string, b: string)
    ensures CleanUpWord(a + b) == CleanUpWord(a) + CleanUpWord(b)
  {
    assert ToLower(a + b) == ToLower(a) + ToLower(b);
    RemoveNonWordCharsConcat(ToLower(a), ToLower(b));
    CleanUpWordIsClean(a);
    CleanUpWordIsClean(b);
    CleanUpWordIsClean(a + b);
    RemoveNonWordCharsOfLower(ToLower(a));
    RemoveNonWordCharsOfLower(ToLower(b));
    RemoveNonWordCharsOfLower(ToLower(a + b));
    TrimClean(RemoveNonWordChars(ToLower(a)));
    TrimClean(RemoveNonWordChars(ToLower(b)));
    TrimClean(RemoveNonWordChars(ToLower(a + b)));
  }

  // ---------------------------------------------------------------------
  // Tokenising

  /** `String.isBlank`: every character is a `Character.isWhitespace`. */
  predicate IsBlank(s: string) {
    forall i :: 0 <= i < |s| ==> IsWhitespace(s[i])
  }

  /** The filter and map of `getWordList`, applied to its pieces in order:
      each piece is cleaned and kept when it is neither a stopword nor blank. */
  function KeepWords(pieces: seq<string>, stopWords: set<string>): seq<string> {
    if pieces == [] then []
    else
      var w := CleanUpWord(pieces[0]);
      (if w !in stopWords && !IsBlank(w) then [w] else []) + KeepWords(pieces[1..], stopWords)
  }

  /** `getWordList`: split on `\s`, clean, drop stopwords and blanks. */
  function GetWordList(s: string, stopWords: set<string>): seq<string> {
    KeepWords(SplitBy(s, IsRegexSpace), stopWords)
  }

  /** For a cleaned word, blank means empty. */
  lemma CleanBlankIsEmpty(w: string)
    requires IsClean(w)
    ensures IsBlank(w) <==> w == ""
  {
    if w != [] {
      assert IsCleanChar(w[0]);
    }
  }

  lemma {:induction false} KeepWordsAreWords(pieces: seq<string>, stopWords: set<string>)
    ensures forall t :: t in KeepWords(pieces, stopWords) ==>
      t != "" && t !in stopWords && CleanUpWord(t) == t
  {
    if pieces != [] {
      var w := CleanUpWord(pieces[0]);
      CleanUpWordIsClean(pieces[0]);
      CleanBlankIsEmpty(w);
      CleanUpWordIdempotent(pieces[0]);
      KeepWordsAreWords(pieces[1..], stopWords);
    }
  }

  lemma {:induction false} KeepWordsConcat(p: seq<string>, q: seq<string>, stopWords: set<string>)
    ensures KeepWords(p + q, stopWords) == KeepWords(p, stopWords) + KeepWords(q, stopWords)
  {
    if p == [] {
      assert p + q == q;
    } else {
      var w := CleanUpWord(p[0]);
      var keep := if w !in stopWords && !IsBlank(w) then [w] else [];
      var kp, kq := KeepWords(p[1..], stopWords), KeepWords(q, stopWords);
      calc {
        KeepWords(p + q, stopWords);
        { assert (p + q)[0] == p[0] && (p + q)[1..] == p[1..] + q; }
        keep + KeepWords(p[1..] + q, stopWords);
        { KeepWordsConcat(p[1..], q, stopWords); }
        keep + (kp + kq);
        { ConcatAssoc(keep, kp, kq); }
        (keep + kp) + kq;
      }
    }
  }

  /** Every token is non-empty, is no stopword and is its own cleanup. */
  lemma WordListTokens(s: string, stopWords: set<string>)
    ensures forall t :: t in GetWordList(s, stopWords) ==>
      t != "" && t !in stopWords && CleanUpWord(t) == t
  {
    KeepWordsAreWords(SplitBy(s, IsRegexSpace), stopWords);
  }

  /** Tokens keep input order: the tokens of `a`, a whitespace character and
      `b` are the tokens of `a` followed by the tokens of `b`. */
  lemma WordListConcat(a: string, c: char, b: string, stopWords: set<string>)
    requires IsRegexSpace(c)
    ensures GetWordList(a + [c] + b, stopWords) == GetWordList(a, stopWords) + GetWordList(b, stopWords)
  {
    SplitByConcat(a, c, b, IsRegexSpace);
    KeepWordsConcat(SplitBy(a, IsRegexSpace), SplitBy(b, IsRegexSpace), stopWords);
  }

  /** Leading or trailing whitespace does not change the tokens. */
  lemma WordListIgnoresOuterSpace(s: string, c: char, stopWords: set<string>)
    requires IsRegexSpace(c)
    ensures GetWordList([c] + s, stopWords) == GetWordList(s, stopWords)
    ensures GetWordList(s + [c], stopWords) == GetWordList(s, stopWords)
  {
    assert GetWordList("", stopWords) == [] by {
      assert SplitBy("", IsRegexSpace) == [""];
      assert CleanUpWord("") == "";
      assert KeepWords([""], stopWords) == [] + KeepWords([""][1..], stopWords);
    }
    WordListConcat("", c, s, stopWords);
    assert "" + [c] + s == [c] + s;
    WordListConcat(s, c, "", stopWords);
    assert s + [c] + "" == s + [c];
  }

  lemma {:induction false} KeepWordsOfBlankPieces(pieces: seq<string>, stopWords: set<string>)
    requires forall p :: p in pieces ==> IsBlank(p)
    ensures KeepWords(pieces, stopWords) == []
  {
    if pieces != [] {
      var p := pieces[0];
      assert IsBlank(p);
      assert ToLower(p) == p;
      assert RemoveNonWordChars(ToLower(p)) == [] by {
        BlankHasNoWordChars(ToLower(p));
      }
      KeepWordsOfBlankPieces(pieces[1..], stopWords);
    }
  }

  lemma {:induction false} BlankHasNoWordChars(s: string)
    requires IsBlank(s)
    ensures RemoveNonWordChars(s) == []
  {
    if s != [] {
      assert IsWhitespace(s[0]);
      BlankHasNoWordChars(s[1..]);
    }
  }

  /** Blank text has no tokens. */
  lemma BlankWordList(s: string, stopWords: set<string>)
    requires IsBlank(s)
    ensures GetWordList(s, stopWords) == []
  {
    SplitByPieces(s, IsRegexSpace);
    forall p | p in SplitBy(s, IsRegexSpace)
      ensures IsBlank(p)
    {
      forall i | 0 <= i < |p|
        ensures IsWhitespace(p[i])
      {
        assert p[i] in p;
      }
    }
    KeepWordsOfBlankPieces(SplitBy(s, IsRegexSpace), stopWords);
  }
}
