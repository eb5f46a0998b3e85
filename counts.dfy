/**
 * The three counts `metadata` records, as functions of the text and the
 * word sets.
 */
module Counts {
  import opened JavaText
  import opened Words

  /** The number of characters that are not `Character.isWhitespace`. */
  function NonWhitespaceCount(s: string): nat {
    if s == [] then 0
    else NonWhitespaceCount(s[..|s| - 1]) + (if IsWhitespace(s[|s| - 1]) then 0 else 1)
  }

  /** The number of tokens that are not in the dictionary, repeats
      included. */
  function MistakeCount(tokens: seq<string>, words: set<string>): nat {
    if tokens == [] then 0
    else MistakeCount(tokens[..|tokens| - 1], words) + (if tokens[|tokens| - 1] in words then 0 else 1)
  }

  lemma {:induction false} NonWhitespaceCountConcat(a: string, b: string)
    ensures NonWhitespaceCount(a + b) == NonWhitespaceCount(a) + NonWhitespaceCount(b)
  {
    if b == [] {
      assert a + b == a;
    } else {
      NonWhitespaceCountConcat(a, b[..|b| - 1]);
      assert (a + b)[..|a + b| - 1] == a + b[..|b| - 1];
    }
  }

  /** At most one per character, and none exactly for blank text. */
  lemma {:induction false} NonWhitespaceCountBounds(s: string)
    ensures NonWhitespaceCount(s) <= |s|
    ensures NonWhitespaceCount(s) == 0 <==> IsBlank(s)
  {
    if s != [] {
      var init := s[..|s| - 1];
      NonWhitespaceCountBounds(init);
      if IsBlank(s) {
        assert IsBlank(init) by {
          forall i | 0 <= i < |init| ensures IsWhitespace(init[i]) {
            assert init[i] == s[i];
          }
        }
      }
      if NonWhitespaceCount(s) == 0 {
        forall i | 0 <= i < |s| ensures IsWhitespace(s[i]) {
          if i < |init| {
            assert init[i] == s[i];
          }
        }
      }
    }
  }

  /** There are no more mistakes than tokens, and none exactly when every
      token is in the dictionary. */
  lemma {:induction false} MistakeCountBounds(tokens: seq<string>, words: set<string>)
    ensures MistakeCount(tokens, words) <= |tokens|
    ensures MistakeCount(tokens, words) == 0 <==> forall i :: 0 <= i < |tokens| ==> tokens[i] in words
  {
    if tokens != [] {
      var init := tokens[..|tokens| - 1];
      MistakeCountBounds(init, words);
      if MistakeCount(tokens, words) == 0 {
        forall i | 0 <= i < |tokens| ensures tokens[i] in words {
          if i < |init| {
            assert init[i] == tokens[i];
          }
        }
      }
    }
  }

  lemma {:induction false} MistakeCountConcat(a: seq<string>, b: seq<string>, words: set<string>)
    ensures MistakeCount(a + b, words) == MistakeCount(a, words) + MistakeCount(b, words)
  {
    if b == [] {
      assert a + b == a;
    } else {
      MistakeCountConcat(a, b[..|b| - 1], words);
      assert (a + b)[..|a + b| - 1] == a + b[..|b| - 1];
    }
  }

  /** Blank text, such as "" or "\t   ", has metadata 0, 0, 0. */
  lemma BlankTextCounts(text: string, words: set<string>, stopWords: set<string>)
    requires IsBlank(text)
    ensures NonWhitespaceCount(text) == 0
    ensures GetWordList(text, stopWords) == []
    ensures MistakeCount(GetWordList(text, stopWords), words) == 0
  {
    NonWhitespaceCountBounds(text);
    BlankWordList(text, stopWords);
  }

  lemma {:induction false} NoWhitespaceCount(s: string)
    requires forall i :: 0 <= i < |s| ==> !IsWhitespace(s[i])
    ensures NonWhitespaceCount(s) == |s|
  {
    if s != [] {
      NoWhitespaceCount(s[..|s| - 1]);
    }
  }

  /** A clean word between two spaces, such as " aple ", counts its own
      length in characters and is the only token. */
  lemma SpacedWordCounts(w: string, stopWords: set<string>)
    requires w != "" && IsClean(w) && w !in stopWords
    ensures NonWhitespaceCount([' '] + w + [' ']) == |w|
    ensures GetWordList([' '] + w + [' '], stopWords) == [w]
  {
    SpacedWordCharacters(w);
    SpacedWordTokens(w, stopWords);
  }

  lemma SpacedWordCharacters(w: string)
    requires IsClean(w)
    ensures NonWhitespaceCount([' '] + w + [' ']) == |w|
  {
    NoWhitespaceCount(w);
    NonWhitespaceCountConcat([' '] + w, [' ']);
    NonWhitespaceCountConcat([' '], w);
    assert NonWhitespaceCount([' ']) == 0;
  }

  lemma SpacedWordTokens(w: string, stopWords: set<string>)
    requires w != "" && IsClean(w) && w !in stopWords
    ensures GetWordList([' '] + w + [' '], stopWords) == [w]
  {
    WordListIgnoresOuterSpace(w, ' ', stopWords);
    WordListIgnoresOuterSpace([' '] + w, ' ', stopWords);
    SplitByNoSeparator(w, IsRegexSpace);
    CleanUpWordFixpoint(w);
    CleanBlankIsEmpty(w);
    assert KeepWords([w], stopWords) == [w] + KeepWords([], stopWords);
  }
}
