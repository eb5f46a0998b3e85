/**
 * The two word sets the NaiveSpellChecker constructor builds from its
 * dictionary and stopword lines, as functions of the lines read so far.
 */
module Lexicon {
  import opened Words

  /** The dictionary the constructor's first loop builds: the cleanup of
      every line that is at least two characters long after cleaning. */
  function DictionaryOf(lines: seq<string>): set<string> {
    if lines == [] then {}
    else
      var w := CleanUpWord(lines[|lines| - 1]);
      DictionaryOf(lines[..|lines| - 1]) + (if |w| > 1 then {w} else {})
  }

  /** The stopwords the constructor's second loop builds: the cleanup of
      every line, the empty word included. */
  function StopWordsOf(lines: seq<string>): set<string> {
    if lines == [] then {}
    else StopWordsOf(lines[..|lines| - 1]) + {CleanUpWord(lines[|lines| - 1])}
  }

  /** One more dictionary line adds its cleanup when that is longer than
      one character. */
  lemma DictionaryOfStep(lines: seq<string>, i: nat)
    requires i < |lines|
    ensures var w := CleanUpWord(lines[i]);
      DictionaryOf(lines[..i + 1]) == DictionaryOf(lines[..i]) + (if |w| > 1 then {w} else {})
  {
    assert lines[..i + 1][..i] == lines[..i];
  }

  /** One more stopword line adds its cleanup. */
  lemma StopWordsOfStep(lines: seq<string>, i: nat)
    requires i < |lines|
    ensures StopWordsOf(lines[..i + 1]) == StopWordsOf(lines[..i]) + {CleanUpWord(lines[i])}
  {
    assert lines[..i + 1][..i] == lines[..i];
  }

  /** What every constructed checker satisfies. */
  ghost predicate IsLexicon(words: set<string>, stopWords: set<string>) {
    && (forall w :: w in words ==> CleanUpWord(w) == w && |w| >= 2)
    && (forall s :: s in stopWords ==> CleanUpWord(s) == s)
  }

  /** A word is in the dictionary exactly when it has length at least 2 and
      is the cleanup of some dictionary line. */
  lemma {:induction false} DictionaryMembers(lines: seq<string>, w: string)
    ensures w in DictionaryOf(lines) <==>
      |w| >= 2 && exists i :: 0 <= i < |lines| && CleanUpWord(lines[i]) == w
  {
    if lines != [] {
      var init := lines[..|lines| - 1];
      DictionaryMembers(init, w);
      if exists i :: 0 <= i < |lines| && CleanUpWord(lines[i]) == w {
        var i :| 0 <= i < |lines| && CleanUpWord(lines[i]) == w;
        if i < |init| {
          assert CleanUpWord(init[i]) == w;
        }
      }
      if exists i :: 0 <= i < |init| && CleanUpWord(init[i]) == w {
        var i :| 0 <= i < |init| && CleanUpWord(init[i]) == w;
        assert lines[i] == init[i];
      }
    }
  }

  /** A word is a stopword exactly when it is the cleanup of some stopword
      line. */
  lemma {:induction false} StopWordMembers(lines: seq<string>, s: string)
    ensures s in StopWordsOf(lines) <==> exists i :: 0 <= i < |lines| && CleanUpWord(lines[i]) == s
  {
    if lines != [] {
      var init := lines[..|lines| - 1];
      StopWordMembers(init, s);
      if exists i :: 0 <= i < |lines| && CleanUpWord(lines[i]) == s {
        var i :| 0 <= i < |lines| && CleanUpWord(lines[i]) == s;
        if i < |init| {
          assert CleanUpWord(init[i]) == s;
        }
      }
      if exists i :: 0 <= i < |init| && CleanUpWord(init[i]) == s {
        var i :| 0 <= i < |init| && CleanUpWord(init[i]) == s;
        assert lines[i] == init[i];
      }
    }
  }

  /** Every dictionary entry is its own cleanup and at least two long; every
      stopword is its own cleanup. */
  lemma LexiconOfLines(dictionaryLines: seq<string>, stopwordLines: seq<string>)
    ensures IsLexicon(DictionaryOf(dictionaryLines), StopWordsOf(stopwordLines))
  {
    forall w | w in DictionaryOf(dictionaryLines)
      ensures CleanUpWord(w) == w && |w| >= 2
    {
      DictionaryMembers(dictionaryLines, w);
      var i :| 0 <= i < |dictionaryLines| && CleanUpWord(dictionaryLines[i]) == w;
      CleanUpWordIdempotent(dictionaryLines[i]);
    }
    forall s | s in StopWordsOf(stopwordLines)
      ensures CleanUpWord(s) == s
    {
      StopWordMembers(stopwordLines, s);
      var i :| 0 <= i < |stopwordLines| && CleanUpWord(stopwordLines[i]) == s;
      CleanUpWordIdempotent(stopwordLines[i]);
    }
  }
}
