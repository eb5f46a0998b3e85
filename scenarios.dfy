/**
 * The texts of the `analyze` tests worked through the model: their lines,
 * characters, tokens and mistakes, given only which of their words the
 * dictionary holds.
 */
module Scenarios {
  import opened JavaText
  import opened Words
  import opened Counts
  import opened Report
  import opened Findings

  /** Three newline-free lines joined by newlines split back into those
      three lines, as long as the last one is not empty. */
  lemma {:induction false} ThreeLines(a: string, b: string, c: string)
    requires '\n' !in a && '\n' !in b && '\n' !in c && c != ""
    ensures SplitLines(a + ['\n'] + b + ['\n'] + c) == [a, b, c]
  {
    var s := a + ['\n'] + b + ['\n'] + c;
    var tail := b + ['\n'] + c;
    assert s == a + ['\n'] + tail;
    SplitByConcat(a, '\n', tail, IsNewline);
    SplitByConcat(b, '\n', c, IsNewline);
    NoNewlineOneLine(a);
    NoNewlineOneLine(b);
    NoNewlineOneLine(c);
    assert s[|a|] == '\n';
  }

  /** The text `"Appp\n apple\n hii"` has the three lines of the test. */
  lemma MultiLineLines()
    ensures SplitLines("Appp\n apple\n hii") == ["Appp", " apple", " hii"]
  {
    assert "Appp\n apple\n hii" == "Appp" + ['\n'] + " apple" + ['\n'] + " hii";
    ThreeLines("Appp", " apple", " hii");
  }

  /** A whitespace-free word followed by whitespace counts its length. */
  lemma SpacedWordCharacters(a: string, sep: string, b: string)
    requires forall i :: 0 <= i < |a| ==> !IsWhitespace(a[i])
    requires forall i :: 0 <= i < |sep| ==> IsWhitespace(sep[i])
    ensures NonWhitespaceCount(a + sep + b) == |a| + NonWhitespaceCount(b)
  {
    NonWhitespaceCountConcat(a + sep, b);
    NonWhitespaceCountConcat(a, sep);
    NoWhitespaceCount(a);
    NonWhitespaceCountBounds(sep);
  }

  /** ... and 12 non-whitespace characters. */
  lemma MultiLineCharacters()
    ensures NonWhitespaceCount("Appp\n apple\n hii") == 12
  {
    var text := "Appp\n apple\n hii";
    assert text == "Appp" + "\n " + "apple\n hii";
    assert "apple\n hii" == "apple" + "\n " + "hii";
    SpacedWordCharacters("apple", "\n ", "hii");
    NoWhitespaceCount("hii");
    SpacedWordCharacters("Appp", "\n ", "apple\n hii");
  }

  /** A piece without `\s` is one token, its cleanup, unless that is empty
      or a stopword. */
  lemma OneWordTokens(w: string, stopWords: set<string>)
    requires forall i :: 0 <= i < |w| ==> !IsRegexSpace(w[i])
    requires CleanUpWord(w) != "" && CleanUpWord(w) !in stopWords
    ensures GetWordList(w, stopWords) == [CleanUpWord(w)]
  {
    SplitByNoSeparator(w, IsRegexSpace);
    CleanUpWordIsClean(w);
    CleanBlankIsEmpty(CleanUpWord(w));
    assert KeepWords([w], stopWords) == [CleanUpWord(w)] + KeepWords([], stopWords);
  }

  /** Three words, each after the first preceded by a newline and a space,
      give their three cleanups as tokens. */
  lemma ThreeWordTokens(a: string, b: string, c: string, stopWords: set<string>)
    requires forall i :: 0 <= i < |a| ==> !IsRegexSpace(a[i])
    requires forall i :: 0 <= i < |b| ==> !IsRegexSpace(b[i])
    requires forall i :: 0 <= i < |c| ==> !IsRegexSpace(c[i])
    requires CleanUpWord(a) != "" && CleanUpWord(a) !in stopWords
    requires CleanUpWord(b) != "" && CleanUpWord(b) !in stopWords
    requires CleanUpWord(c) != "" && CleanUpWord(c) !in stopWords
    ensures GetWordList(a + "\n " + b + "\n " + c, stopWords) == [CleanUpWord(a), CleanUpWord(b), CleanUpWord(c)]
  {
    OneWordTokens(a, stopWords);
    OneWordTokens(b, stopWords);
    OneWordTokens(c, stopWords);
    var tail := b + ['\n'] + ([' '] + c);
    assert a + "\n " + b + "\n " + c == a + ['\n'] + ([' '] + tail);
    WordListConcat(a, '\n', [' '] + tail, stopWords);
    WordListIgnoresOuterSpace(tail, ' ', stopWords);
    WordListConcat(b, '\n', [' '] + c, stopWords);
    WordListIgnoresOuterSpace(c, ' ', stopWords);
  }

  /** A capital followed by a clean word cleans to the lower-case letter
      followed by that word. */
  lemma CapitalizedClean(c: char, rest: string)
    requires 'A' <= c <= 'Z' && IsClean(rest)
    ensures CleanUpWord([c] + rest) == [ToLowerAscii(c)] + rest
  {
    CleanUpWordConcat([c], rest);
    CleanUpWordFixpoint(rest);
    assert ToLower([c]) == [ToLowerAscii(c)];
    assert RemoveNonWordChars([ToLowerAscii(c)]) == [ToLowerAscii(c)] + RemoveNonWordChars([]);
  }

  /** A character outside `[a-zA-Z0-9]` at the end is dropped. */
  lemma TrailingPunctuation(w: string, c: char)
    requires !IsWordChar(c)
    ensures CleanUpWord(w + [c]) == CleanUpWord(w)
  {
    CleanUpWordConcat(w, [c]);
    assert ToLower([c]) == [ToLowerAscii(c)];
    assert RemoveNonWordChars([ToLowerAscii(c)]) == [] + RemoveNonWordChars([]);
  }

  /** The cleanups of the three words of the test. */
  lemma CleanAppp()
    ensures CleanUpWord("Appp") == "appp"
  {
    assert "Appp" == ['A'] + "ppp";
    assert IsClean("ppp");
    CapitalizedClean('A', "ppp");
  }

  lemma CleanApple()
    ensures CleanUpWord("apple") == "apple"
  {
    assert IsClean("apple");
    CleanUpWordFixpoint("apple");
  }

  lemma CleanHii()
    ensures CleanUpWord("hii") == "hii"
  {
    assert IsClean("hii");
    CleanUpWordFixpoint("hii");
  }

  /** The tokens of the three-line text. */
  lemma MultiLineTokens(stopWords: set<string>)
    requires "appp" !in stopWords && "apple" !in stopWords && "hii" !in stopWords
    ensures GetWordList("Appp\n apple\n hii", stopWords) == ["appp", "apple", "hii"]
  {
    CleanAppp();
    CleanApple();
    CleanHii();
    assert "Appp\n apple\n hii" == "Appp" + "\n " + "apple" + "\n " + "hii";
    ThreeWordTokens("Appp", "apple", "hii", stopWords);
  }

  /** Two of the three words are spelling issues when only `apple` is in
      the dictionary. */
  lemma MultiLineMistakes(words: set<string>)
    requires "apple" in words && "appp" !in words && "hii" !in words
    ensures MistakeCount(["appp", "apple", "hii"], words) == 2
  {
    var tokens := ["appp", "apple", "hii"];
    assert tokens[..2] == ["appp", "apple"];
    assert tokens[..2][..1] == ["appp"];
    assert tokens[..2][..1][..0] == [];
    assert MistakeCount(tokens[..2][..1], words) == 1;
    assert MistakeCount(tokens[..2], words) == 1;
  }

  /** The header of the three-line test holds 12 characters, 3 words and 2
      spelling issues when `apple` is the only one of its words in the
      dictionary. */
  lemma MultiLineHeader(words: set<string>, stopWords: set<string>)
    requires "appp" !in stopWords && "apple" !in stopWords && "hii" !in stopWords
    requires "apple" in words && "appp" !in words && "hii" !in words
    ensures var text := "Appp\n apple\n hii";
      var tokens := GetWordList(text, stopWords);
      Header(text, NonWhitespaceCount(text), |tokens|, MistakeCount(tokens, words)) == Header(text, 12, 3, 2)
  {
    MultiLineCharacters();
    MultiLineTokens(stopWords);
    MultiLineMistakes(words);
  }

  /** The cleanup of `Apple.` is `apple`: the capital is lowered and the
      full stop dropped. */
  lemma CleanAppleDot()
    ensures CleanUpWord("Apple.") == "apple"
  {
    assert "Apple." == ['A'] + "pple" + ['.'];
    TrailingPunctuation(['A'] + "pple", '.');
    assert IsClean("pple");
    CapitalizedClean('A', "pple");
  }

  /** "Apple. " has 6 characters and the single token `apple`. */
  lemma CorrectWordCounts(stopWords: set<string>)
    requires "apple" !in stopWords
    ensures NonWhitespaceCount("Apple. ") == 6
    ensures GetWordList("Apple. ", stopWords) == ["apple"]
  {
    assert "Apple. " == "Apple." + " " + "";
    SpacedWordCharacters("Apple.", " ", "");
    CleanAppleDot();
    OneWordTokens("Apple.", stopWords);
    WordListIgnoresOuterSpace("Apple.", ' ', stopWords);
    assert "Apple." + [' '] == "Apple. ";
  }

  /** A one-word line, with or without a leading space, misspells its
      cleanup exactly when the dictionary lacks it. */
  lemma OneWordMisspelled(w: string, words: set<string>, stopWords: set<string>)
    requires forall i :: 0 <= i < |w| ==> !IsRegexSpace(w[i])
    requires CleanUpWord(w) != "" && CleanUpWord(w) !in stopWords
    ensures Misspelled(w, words, stopWords) == if CleanUpWord(w) in words then {} else {CleanUpWord(w)}
    ensures Misspelled([' '] + w, words, stopWords) == Misspelled(w, words, stopWords)
  {
    OneWordTokens(w, stopWords);
    WordListIgnoresOuterSpace(w, ' ', stopWords);
  }

  /** The misspelled words of the three lines: `appp` on line 1, none on
      line 2 and `hii` on line 3, the words of the test's two findings. */
  lemma FirstLineMisspelled(words: set<string>, stopWords: set<string>)
    requires "appp" !in stopWords && "apple" !in stopWords && "hii" !in stopWords
    requires "apple" in words && "appp" !in words && "hii" !in words
    ensures Misspelled("Appp", words, stopWords) == {"appp"}
  {
    CleanAppp();
    OneWordMisspelled("Appp", words, stopWords);
  }

  lemma SecondLineMisspelled(words: set<string>, stopWords: set<string>)
    requires "appp" !in stopWords && "apple" !in stopWords && "hii" !in stopWords
    requires "apple" in words && "appp" !in words && "hii" !in words
    ensures Misspelled(" apple", words, stopWords) == {}
  {
    CleanApple();
    OneWordMisspelled("apple", words, stopWords);
    assert [' '] + "apple" == " apple";
  }

  lemma ThirdLineMisspelled(words: set<string>, stopWords: set<string>)
    requires "appp" !in stopWords && "apple" !in stopWords && "hii" !in stopWords
    requires "apple" in words && "appp" !in words && "hii" !in words
    ensures Misspelled(" hii", words, stopWords) == {"hii"}
  {
    CleanHii();
    OneWordMisspelled("hii", words, stopWords);
    assert [' '] + "hii" == " hii";
  }
}
