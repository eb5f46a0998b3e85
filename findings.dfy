/**
 * What `analyze` reports per line: the misspelled words of each line and
 * the suggestions for each, and how they shape the report.
 */
module Findings {
  import opened JavaText
  import opened Words
  import opened Lexicon
  import opened Bigrams
  import opened Ranking
  import opened Report

  /** The distinct tokens of a line that are not in the dictionary. */
  function Misspelled(line: string, words: set<string>, stopWords: set<string>): set<string> {
    set t | t in GetWordList(line, stopWords) && t !in words
  }

  /** A line has no misspelled word exactly when each of its tokens is in
      the dictionary. */
  lemma MisspelledEmpty(line: string, words: set<string>, stopWords: set<string>)
    ensures Misspelled(line, words, stopWords) == {} <==>
      forall t :: t in GetWordList(line, stopWords) ==> t in words
  {
    if exists t :: t in GetWordList(line, stopWords) && t !in words {
      var t :| t in GetWordList(line, stopWords) && t !in words;
      assert t in Misspelled(line, words, stopWords);
    }
  }

  /** `sugg` is what `findClosestWords(word, n)` may return: the top `n` of
      the dictionary for some choice of the vectors' iteration orders. */
  ghost predicate IsSuggestionList(sugg: seq<string>, word: string, words: set<string>, n: int) {
    n >= 0 &&
    exists scores: map<string, Score> ::
      && scores.Keys == words
      && (forall d {:trigger IsScoreOf(scores[d], word, d)} :: d in scores ==> IsScoreOf(scores[d], word, d))
      && IsClosest(sugg, scores, n)
  }

  /** The top `n` of a complete sorted ranking of the dictionary is a
      suggestion list. */
  lemma TopIsSuggestionList(ranked: seq<string>, scores: map<string, Score>,
                            word: string, words: set<string>, n: int)
    requires n >= 0 && scores.Keys == words
    requires forall d {:trigger IsScoreOf(scores[d], word, d)} :: d in scores ==> IsScoreOf(scores[d], word, d)
    requires Distinct(ranked) && Scored(ranked, scores) && SortedByScore(ranked, scores)
    requires forall d :: d in scores ==> d in ranked
    ensures IsSuggestionList(ranked[..if n < |ranked| then n else |ranked|], word, words, n)
  {
    TopOfRanking(ranked, scores, n);
  }

  /** The findings of one line: numbered `lineNo`, one per misspelled word
      of the line and no other, each with a valid suggestion list. */
  ghost predicate IsLineBlock(block: seq<Finding>, lineNo: nat, line: string,
                              words: set<string>, stopWords: set<string>, n: int) {
    IsBlockFor(block, lineNo, Misspelled(line, words, stopWords), words, n)
  }

  /** The findings for the words `ws` of line `lineNo`, in the order the
      loop emits them: the last finding is for some word of `ws`, with a
      valid suggestion list, and the findings before it are for the other
      words. */
  ghost predicate IsBlockFor(block: seq<Finding>, lineNo: nat, ws: set<string>, words: set<string>, n: int)
    decreases |block|
  {
    if block == [] then ws == {}
    else
      var f := block[|block| - 1];
      && f.line == lineNo && f.word in ws
      && IsSuggestionList(f.suggestions, f.word, words, n)
      && IsBlockFor(block[..|block| - 1], lineNo, ws - {f.word}, words, n)
  }

  /** The words of `block` are the words of `ws`, each once. */
  predicate CoversOnce(block: seq<Finding>, ws: set<string>) {
    && (forall j, k :: 0 <= j < k < |block| ==> block[j].word != block[k].word)
    && (forall j :: 0 <= j < |block| ==> block[j].word in ws)
    && (forall t :: t in ws ==> exists j :: 0 <= j < |block| && block[j].word == t)
  }

  /** A finding for a word not covered yet extends a block. */
  lemma BlockForSnoc(block: seq<Finding>, lineNo: nat, ws: set<string>, words: set<string>, n: int, f: Finding)
    requires IsBlockFor(block, lineNo, ws, words, n)
    requires f.line == lineNo && IsSuggestionList(f.suggestions, f.word, words, n) && f.word !in ws
    ensures IsBlockFor(block + [f], lineNo, ws + {f.word}, words, n)
  {
    assert (block + [f])[..|block|] == block;
    assert ws + {f.word} - {f.word} == ws;
  }

  lemma CoversOnceSnoc(block: seq<Finding>, ws: set<string>, f: Finding)
    requires CoversOnce(block, ws) && f.word !in ws
    ensures CoversOnce(block + [f], ws + {f.word})
  {
    var b := block + [f];
    forall t | t in ws + {f.word} ensures exists j :: 0 <= j < |b| && b[j].word == t {
      if t == f.word {
        assert b[|block|].word == t;
      } else {
        var j :| 0 <= j < |block| && block[j].word == t;
        assert b[j].word == t;
      }
    }
  }

  /** A block holds one finding for each word of `ws` and no other, each
      numbered `lineNo` and with a valid suggestion list. */
  lemma {:induction false} BlockForElements(block: seq<Finding>, lineNo: nat, ws: set<string>, words: set<string>, n: int)
    requires IsBlockFor(block, lineNo, ws, words, n)
    ensures forall j :: 0 <= j < |block| ==> block[j].line == lineNo
    ensures forall j :: 0 <= j < |block| ==> IsSuggestionList(block[j].suggestions, block[j].word, words, n)
    ensures CoversOnce(block, ws)
  {
    if block != [] {
      var k := |block| - 1;
      var init, f := block[..k], block[k];
      var rest := ws - {f.word};
      BlockForElements(init, lineNo, rest, words, n);
      assert block == init + [f];
      CoversOnceSnoc(init, rest, f);
      assert rest + {f.word} == ws;
    }
  }

  /** Conversely, findings for line `lineNo` with valid suggestions that
      cover `ws` once form a block for `ws`, whatever their order. */
  lemma {:induction false} BlockForOfElements(block: seq<Finding>, lineNo: nat, ws: set<string>, words: set<string>, n: int)
    requires forall j :: 0 <= j < |block| ==> block[j].line == lineNo
    requires forall j :: 0 <= j < |block| ==> IsSuggestionList(block[j].suggestions, block[j].word, words, n)
    requires CoversOnce(block, ws)
    ensures IsBlockFor(block, lineNo, ws, words, n)
  {
    if block != [] {
      var k := |block| - 1;
      var init, f := block[..k], block[k];
      var rest := ws - {f.word};
      assert forall j :: 0 <= j < k ==> init[j] == block[j];
      forall t | t in rest ensures exists j :: 0 <= j < |init| && init[j].word == t {
        var j :| 0 <= j < |block| && block[j].word == t;
        assert j != k && init[j].word == t;
      }
      BlockForOfElements(init, lineNo, rest, words, n);
    }
  }

  /** A block that covers a set once is as long as the set is large. */
  lemma CoversOnceSize(block: seq<Finding>, ws: set<string>)
    requires CoversOnce(block, ws)
    ensures |block| == |ws|
  {
    var names := WordsOf(block);
    assert Distinct(names);
    DistinctCount(names);
    forall t | t in ws ensures t in names {
      var j :| 0 <= j < |block| && block[j].word == t;
      assert names[j] == t;
    }
    assert (set x | x in names) == ws;
  }

  /** A line without misspelled words contributes no finding. */
  lemma CleanLineNoFindings(block: seq<Finding>, lineNo: nat, line: string,
                            words: set<string>, stopWords: set<string>, n: int)
    requires IsLineBlock(block, lineNo, line, words, stopWords, n)
    ensures block == [] <==> Misspelled(line, words, stopWords) == {}
  {
    BlockForElements(block, lineNo, Misspelled(line, words, stopWords), words, n);
    CoversOnceSize(block, Misspelled(line, words, stopWords));
  }

  /** One block per line, in line order. */
  ghost predicate IsReportFindings(blocks: seq<seq<Finding>>, lines: seq<string>,
                                   words: set<string>, stopWords: set<string>, n: int) {
    |blocks| == |lines| &&
    forall i :: 0 <= i < |lines| ==> IsLineBlock(blocks[i], i + 1, lines[i], words, stopWords, n)
  }

  function Flatten(blocks: seq<seq<Finding>>): seq<Finding> {
    if blocks == [] then [] else Flatten(blocks[..|blocks| - 1]) + blocks[|blocks| - 1]
  }

  /** One more line's block extends the findings of the lines before it. */
  lemma ReportFindingsSnoc(blocks: seq<seq<Finding>>, lines: seq<string>, block: seq<Finding>, line: string,
                           words: set<string>, stopWords: set<string>, n: int)
    requires IsReportFindings(blocks, lines, words, stopWords, n)
    requires IsLineBlock(block, |lines| + 1, line, words, stopWords, n)
    ensures IsReportFindings(blocks + [block], lines + [line], words, stopWords, n)
  {
  }

  /** The report text of one more block is appended to the text so far. */
  lemma FlattenSnocText(blocks: seq<seq<Finding>>, block: seq<Finding>)
    ensures Flatten(blocks + [block]) == Flatten(blocks) + block
    ensures FindingsText(Flatten(blocks + [block])) == FindingsText(Flatten(blocks)) + FindingsText(block)
  {
    assert (blocks + [block])[..|blocks|] == blocks;
    FindingsTextConcat(Flatten(blocks), block);
  }

  function WordsOf(block: seq<Finding>): seq<string> {
    seq(|block|, j requires 0 <= j < |block| => block[j].word)
  }

  /** A suggestion list holds `min(n, |words|)` distinct dictionary words,
      and none at all for `n = 0`. */
  lemma SuggestionsFromDictionary(sugg: seq<string>, word: string, words: set<string>, n: int)
    requires IsSuggestionList(sugg, word, words, n)
    ensures |sugg| == if n < |words| then n else |words|
    ensures Distinct(sugg)
    ensures forall s :: s in sugg ==> s in words
    ensures n == 0 ==> sugg == []
  {
    var scores: map<string, Score> :| scores.Keys == words && IsClosest(sugg, scores, n as nat);
    assert |scores| == |words|;
    forall s | s in sugg ensures s in words {
      var i :| 0 <= i < |sugg| && sugg[i] == s;
    }
  }

  lemma CleanHasNoNewline(w: string)
    requires CleanUpWord(w) == w
    ensures '\n' !in w
  {
    CleanUpWordFixpoint(w);
  }

  lemma {:induction false} FlattenOneLine(blocks: seq<seq<Finding>>, lines: seq<string>,
                                          words: set<string>, stopWords: set<string>, n: int)
    requires IsLexicon(words, stopWords)
    requires IsReportFindings(blocks, lines, words, stopWords, n)
    ensures OneLineFindings(Flatten(blocks))
  {
    if blocks != [] {
      var k := |blocks| - 1;
      FlattenOneLine(blocks[..k], lines[..k], words, stopWords, n);
      var block := blocks[k];
      BlockForElements(block, k + 1, Misspelled(lines[k], words, stopWords), words, n);
      forall j | 0 <= j < |block|
        ensures '\n' !in block[j].word && forall s :: s in block[j].suggestions ==> '\n' !in s
      {
        assert block[j].word in Misspelled(lines[k], words, stopWords);
        WordListTokens(lines[k], stopWords);
        CleanHasNoNewline(block[j].word);
        SuggestionsFromDictionary(block[j].suggestions, block[j].word, words, n);
        forall s | s in block[j].suggestions ensures '\n' !in s {
          CleanHasNoNewline(s);
        }
      }
    }
  }

  function MisspelledTotal(lines: seq<string>, words: set<string>, stopWords: set<string>): nat {
    if lines == [] then 0
    else MisspelledTotal(lines[..|lines| - 1], words, stopWords) + |Misspelled(lines[|lines| - 1], words, stopWords)|
  }

  /** Taking one more line adds that line's misspelled words. */
  lemma MisspelledTotalStep(lines: seq<string>, i: nat, words: set<string>, stopWords: set<string>)
    requires i < |lines|
    ensures lines[..i + 1] == lines[..i] + [lines[i]]
    ensures MisspelledTotal(lines[..i + 1], words, stopWords)
      == MisspelledTotal(lines[..i], words, stopWords) + |Misspelled(lines[i], words, stopWords)|
  {
    assert lines[..i + 1][..i] == lines[..i];
  }

  /** No line of a prefix has more misspelled words than the whole text. */
  lemma {:induction false} MisspelledTotalPrefix(lines: seq<string>, k: nat, words: set<string>, stopWords: set<string>)
    requires k <= |lines|
    ensures MisspelledTotal(lines[..k], words, stopWords) <= MisspelledTotal(lines, words, stopWords)
    decreases |lines|
  {
    if k < |lines| {
      var m := |lines| - 1;
      assert lines[..m][..k] == lines[..k];
      MisspelledTotalPrefix(lines[..m], k, words, stopWords);
    } else {
      assert lines[..k] == lines;
    }
  }

  /** The total is zero exactly when every line is spelled correctly. */
  lemma {:induction false} MisspelledTotalZero(lines: seq<string>, words: set<string>, stopWords: set<string>)
    ensures MisspelledTotal(lines, words, stopWords) == 0 <==>
            forall i :: 0 <= i < |lines| ==> Misspelled(lines[i], words, stopWords) == {}
  {
    if lines != [] {
      var m := |lines| - 1;
      MisspelledTotalZero(lines[..m], words, stopWords);
      assert forall i :: 0 <= i < m ==> lines[..m][i] == lines[i];
    }
  }

  lemma {:induction false} FlattenSize(blocks: seq<seq<Finding>>, lines: seq<string>,
                                       words: set<string>, stopWords: set<string>, n: int)
    requires IsReportFindings(blocks, lines, words, stopWords, n)
    ensures |Flatten(blocks)| == MisspelledTotal(lines, words, stopWords)
  {
    if blocks != [] {
      var k := |blocks| - 1;
      FlattenSize(blocks[..k], lines[..k], words, stopWords, n);
      BlockForElements(blocks[k], k + 1, Misspelled(lines[k], words, stopWords), words, n);
      CoversOnceSize(blocks[k], Misspelled(lines[k], words, stopWords));
      assert blocks[..k][..|blocks[..k]|] == blocks[..k];
    }
  }

  /** A report has the lines of the text, four more, and one line for every
      misspelled word of every line. */
  lemma ReportLineCount(text: string, characters: int, wordCount: int, mistakes: int,
                        blocks: seq<seq<Finding>>, words: set<string>, stopWords: set<string>, n: int)
    requires IsLexicon(words, stopWords)
    requires IsReportFindings(blocks, SplitLines(text), words, stopWords, n)
    ensures NewlineCount(ReportText(text, characters, wordCount, mistakes, Flatten(blocks)))
      == NewlineCount(text) + 4 + MisspelledTotal(SplitLines(text), words, stopWords)
  {
    FlattenOneLine(blocks, SplitLines(text), words, stopWords, n);
    FlattenSize(blocks, SplitLines(text), words, stopWords, n);
    ReportLines(text, characters, wordCount, mistakes, Flatten(blocks));
  }
}
