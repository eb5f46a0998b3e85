/**
 * NaiveSpellChecker: a dictionary and a stopword set built once, then
 * queried for text metadata, closest dictionary words and a full report.
 */
module SpellChecker {
  import opened Sequences
  import opened JavaText
  import opened Words
  import opened Lexicon
  import opened Bigrams
  import opened Ranking
  import opened Report
  import opened Counts
  import opened Findings
  import SpellMetadata

  // ---------------------------------------------------------------------
  // The checker

  class NaiveSpellChecker {
    var words: set<string>
    var stopWords: set<string>

    /** Reads the dictionary, keeping each cleaned line longer than one
        character, then the stopwords, keeping each cleaned line. */
    constructor (dictionaryLines: seq<string>, stopwordLines: seq<string>)
      ensures words == DictionaryOf(dictionaryLines)
      ensures stopWords == StopWordsOf(stopwordLines)
      ensures IsLexicon(words, stopWords)
    {
      words := {};
      stopWords := {};
      new;
      var i := 0;
      while i < |dictionaryLines|
        invariant 0 <= i <= |dictionaryLines|
        invariant words == DictionaryOf(dictionaryLines[..i])
        invariant stopWords == {}
      {
        DictionaryOfStep(dictionaryLines, i);
        var word := CleanUpWord(dictionaryLines[i]);
        if |word| > 1 {
          words := words + {word};
        }
        i := i + 1;
      }
      assert dictionaryLines[..i] == dictionaryLines;
      i := 0;
      while i < |stopwordLines|
        invariant 0 <= i <= |stopwordLines|
        invariant words == DictionaryOf(dictionaryLines)
        invariant stopWords == StopWordsOf(stopwordLines[..i])
      {
        StopWordsOfStep(stopwordLines, i);
        var word := CleanUpWord(stopwordLines[i]);
        stopWords := stopWords + {word};
        i := i + 1;
      }
      assert stopwordLines[..i] == stopwordLines;
      LexiconOfLines(dictionaryLines, stopwordLines);
    }

    /** `metadata`: non-whitespace characters, tokens, and tokens not in
        the dictionary. */
    method Metadata(text: string) returns (m: SpellMetadata.Metadata)
      ensures fresh(m)
      ensures m.characters == NonWhitespaceCount(text)
      ensures m.words == |GetWordList(text, stopWords)|
      ensures m.mistakes == MistakeCount(GetWordList(text, stopWords), words)
    {
      m := new SpellMetadata.Metadata();
      var characters := 0;
      var i := 0;
      while i < |text|
        invariant 0 <= i <= |text|
        invariant characters == NonWhitespaceCount(text[..i])
      {
        if !IsWhitespace(text[i]) {
          characters := characters + 1;
        }
        assert text[..i + 1][..i] == text[..i];
        i := i + 1;
      }
      assert text[..i] == text;
      var tokens := GetWordList(text, stopWords);
      var wordCount := |tokens|;
      var issues := MistakeCount(tokens, words);
      m := m.Record(characters, wordCount, issues);
    }

    /** `findClosestWords`: scores every dictionary word against `word` and
        returns the `n` best; a negative `n` fails as `Stream.limit` does. */
    method FindClosestWords(word: string, n: int) returns (r: Result<seq<string>>)
      ensures r.IllegalArgumentException? <==> n < 0
      ensures r.Success? ==> IsSuggestionList(r.value, word, words, n)
    {
      var scores: map<string, Score> := map[];
      var ranked: seq<string> := [];
      var remaining := words;
      while remaining != {}
        invariant remaining <= words
        invariant scores.Keys == words - remaining
        invariant forall d {:trigger IsScoreOf(scores[d], word, d)} :: d in scores ==> IsScoreOf(scores[d], word, d)
        invariant Distinct(ranked) && Scored(ranked, scores) && SortedByScore(ranked, scores)
        invariant forall d :: d in scores ==> d in ranked
        decreases remaining
      {
        var candidateWord :| candidateWord in remaining;
        var score, _, _ := CalculateCosineSimilarity(word, candidateWord);
        InsertNewWord(ranked, scores, candidateWord, score);
        scores := scores[candidateWord := score];
        ranked := InsertByScore(ranked, candidateWord, scores);
        remaining := remaining - {candidateWord};
      }
      if n < 0 {
        r := IllegalArgumentException;
      } else {
        TopIsSuggestionList(ranked, scores, word, words, n);
        var k := if n < |ranked| then n else |ranked|;
        r := Success(ranked[..k]);
      }
    }

    /** The inner loop of `analyze` for line `lineNo`: one finding line per
        misspelled word, in the set's iteration order. */
    method LineFindings(lineNo: nat, line: string, suggestionsCount: int)
      returns (findings: string, ok: bool, ghost block: seq<Finding>)
      ensures ok <==> suggestionsCount >= 0 || Misspelled(line, words, stopWords) == {}
      ensures ok ==> IsLineBlock(block, lineNo, line, words, stopWords, suggestionsCount)
      ensures ok ==> findings == FindingsText(block)
      ensures !ok ==> findings == ""
      ensures ok && suggestionsCount < 0 ==> block == []
    {
      var misspelledWords := Misspelled(line, words, stopWords);
      var remaining := misspelledWords;
      ghost var done: set<string> := {};
      findings, block := "", [];
      while remaining != {}
        invariant done + remaining == misspelledWords && done !! remaining
        invariant suggestionsCount < 0 ==> done == {} && block == []
        invariant findings == FindingsText(block)
        invariant IsBlockFor(block, lineNo, done, words, suggestionsCount)
        decreases remaining
      {
        var misspelledWord :| misspelledWord in remaining;
        var suggestions := FindClosestWords(misspelledWord, suggestionsCount);
        if suggestions.IllegalArgumentException? {
          return "", false, [];
        }
        var f := Finding(lineNo, misspelledWord, suggestions.value);
        BlockForSnoc(block, lineNo, done, words, suggestionsCount, f);
        FindingsTextSnoc(block, f);
        findings := findings + FindingLine(f);
        block := block + [f];
        done := done + {misspelledWord};
        remaining := remaining - {misspelledWord};
      }
      ok := true;
    }

    /** `analyze`: the text, then the metadata block, then for each line and
        each of its misspelled words the suggestions. A negative count fails
        at the first misspelled word, leaving the output written so far. */
    method Analyze(text: string, suggestionsCount: int)
      returns (output: string, ok: bool, ghost blocks: seq<seq<Finding>>)
      ensures ok <==> suggestionsCount >= 0 || MisspelledTotal(SplitLines(text), words, stopWords) == 0
      ensures var tokens := GetWordList(text, stopWords);
        var header := Header(text, NonWhitespaceCount(text), |tokens|, MistakeCount(tokens, words));
        && (ok ==> IsReportFindings(blocks, SplitLines(text), words, stopWords, suggestionsCount)
                   && output == header + FindingsText(Flatten(blocks)))
        && (!ok ==> output == header)
    {
      var lines := SplitLines(text);
      var metadata := Metadata(text);
      var characters := metadata.GetCharacters();
      var wordCount := metadata.GetWords();
      var mistakes := metadata.GetMistakes();
      var header := Header(text, characters, wordCount, mistakes);
      output, blocks := header, [];
      var i := 0;
      while i < |lines|
        invariant 0 <= i <= |lines|
        invariant IsReportFindings(blocks, lines[..i], words, stopWords, suggestionsCount)
        invariant output == header + FindingsText(Flatten(blocks))
        invariant suggestionsCount < 0 ==> Flatten(blocks) == [] && MisspelledTotal(lines[..i], words, stopWords) == 0
      {
        MisspelledTotalStep(lines, i, words, stopWords);
        var findings, lineOk, block := LineFindings(i + 1, lines[i], suggestionsCount);
        if !lineOk {
          MisspelledTotalPrefix(lines, i + 1, words, stopWords);
          return header, false, blocks;
        }
        ReportFindingsSnoc(blocks, lines[..i], block, lines[i], words, stopWords, suggestionsCount);
        FlattenSnocText(blocks, block);
        ConcatAssoc(header, FindingsText(Flatten(blocks)), findings);
        output := output + findings;
        blocks := blocks + [block];
        i := i + 1;
      }
      assert lines[..i] == lines;
      ok := true;
    }
  }
}
