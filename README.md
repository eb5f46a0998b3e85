# NaiveSpellChecker in Dafny

A Dafny model of the text-analysis engine of the `NaiveSpellChecker` Java
project (`bg.sofia.uni.fmi.mjt.spellchecker`), together with proofs about it.
The checker works in three steps:

- It builds a dictionary and a stopword set from two line streams.
- It tokenises text into normalised words: lower case, `[a-z0-9]` only,
  stopwords and blanks dropped.
- It counts characters, tokens and mistakes (`metadata`), ranks dictionary
  words by a bigram score (`findClosestWords`), and writes a report
  (`analyze`).

The two Java classes become Dafny classes with the same fields:

- `SpellChecker.NaiveSpellChecker` has `words` and `stopWords`. Its
  constructor and methods follow the Java loops, and each is proved against
  a specification function or predicate.
- `SpellMetadata.Metadata` has `characters`, `words` and `mistakes`.

The pure parts of the Java code are functions in their own modules:

| module | file | contents |
|---|---|---|
| `JavaText` | `java_text.dfy` | the Java library behaviour the code relies on: `Character.isWhitespace`, the regex class `\s`, ASCII `toLowerCase`, 32-bit `int` wrap-around, `%d`, `String.join`, `String.split("\n")` |
| `Words` | `words.dfy` | `cleanUpWord` and `getWordList` |
| `Lexicon` | `lexicon.dfy` | the sets the constructor builds, as functions of the lines read |
| `Bigrams` | `bigrams.dfy` | `createVector`, the dot product, the `getLengthOfVector` fold, and `calculateCosineSimilarity` kept as the integer pair (numerator, denominator) |
| `Ranking` | `ranking.dfy` | the `Double.compare` order on exact scores, and the sorted top `n` |
| `Report` | `report.dfy` | the text of the report |
| `Counts` | `counts.dfy` | the three `metadata` counts |
| `Findings` | `findings.dfy` | which findings a line and a text produce |
| `Scenarios` | `scenarios.dfy` | the texts of the `analyze` tests worked through the model: their lines, characters, tokens, mistakes and misspelled words |

Three behaviours of the code are modelled as the code has them:

- **Negative suggestion count.** `findClosestWords` with `n < 0` fails
  with `IllegalArgumentException`, raised by `Stream.limit`. So `analyze`
  fails at the first misspelled word. Its output is then the text and the
  header only, because the `BufferedWriter` is flushed when it closes.
- **Iteration order.** The order of `HashMap` and `HashSet` iteration is
  unspecified. The methods pick the next key arbitrarily (`:|`).
  `CalculateCosineSimilarity` reports the key orders it used as ghost
  values, and `ValuesOf` returns its order. Contracts only say what holds
  for every order.
- **The length fold.** `getLengthOfVector` folds `a*a + b*b` over Java
  `int`s. The fold wraps to 32 bits at every step, and its result depends
  on the order of the values. The model proves both facts.

The code does not keep the dictionary and the stopwords disjoint. A word
in both is dropped as a stopword by `getWordList` before the dictionary is
consulted, and the model follows the code.

## Model

Paths are relative to the repository root. `NaiveSpellChecker.java` is
`src/bg/sofia/uni/fmi/mjt/spellchecker/NaiveSpellChecker.java`.

| member | source | states |
|---|---|---|
| SpellChecker.NaiveSpellChecker.constructor | src/bg/sofia/uni/fmi/mjt/spellchecker/NaiveSpellChecker.java:17-40 | `words` is the set of cleaned dictionary lines longer than one character; `stopWords` is the set of all cleaned stopword lines; together they satisfy `IsLexicon` |
| Lexicon.DictionaryOfStep | src/bg/sofia/uni/fmi/mjt/spellchecker/NaiveSpellChecker.java:24-27 | reading one more dictionary line adds its cleanup exactly when the cleanup is longer than one character |
| Lexicon.StopWordsOfStep | src/bg/sofia/uni/fmi/mjt/spellchecker/NaiveSpellChecker.java:31-34 | reading one more stopword line adds its cleanup, whatever its length |
| Lexicon.DictionaryMembers | src/bg/sofia/uni/fmi/mjt/spellchecker/NaiveSpellChecker.java:23-28 | a word is in the dictionary if and only if it is at least 2 long and is the cleanup of some dictionary line |
| Lexicon.StopWordMembers | src/bg/sofia/uni/fmi/mjt/spellchecker/NaiveSpellChecker.java:30-35 | a word is a stopword if and only if it is the cleanup of some stopword line (so the empty word can be one) |
| Lexicon.LexiconOfLines | src/bg/sofia/uni/fmi/mjt/spellchecker/NaiveSpellChecker.java:23-35 | every dictionary word equals its own cleanup and is at least 2 long; every stopword equals its own cleanup |
| Lexicon.DictionaryOf | src/bg/sofia/uni/fmi/mjt/spellchecker/NaiveSpellChecker.java:23-28 | definition: the cleanup of every dictionary line whose cleanup is longer than one character, as a set |
| Lexicon.StopWordsOf | src/bg/sofia/uni/fmi/mjt/spellchecker/NaiveSpellChecker.java:30-35 | definition: the cleanup of every stopword line, as a set |
| Words.ToLower | src/bg/sofia/uni/fmi/mjt/spellchecker/NaiveSpellChecker.java:125 | definition: `toLowerCase()` applied character by character with `ToLowerAscii` |
| JavaText.ToLowerAscii | src/bg/sofia/uni/fmi/mjt/spellchecker/NaiveSpellChecker.java:125 | no upper-case ASCII letter is left, and the result is a lower-case letter or digit exactly when the input is an ASCII letter or digit |
| JavaText.ToLowerAsciiIdempotent | src/bg/sofia/uni/fmi/mjt/spellchecker/NaiveSpellChecker.java:125 | lower-casing twice gives the same character as lower-casing once |
| Words.TrimClean | src/bg/sofia/uni/fmi/mjt/spellchecker/NaiveSpellChecker.java:125 | `trim` changes nothing on a string of `a-z0-9`, so the final `trim` of `cleanUpWord` has no effect |
| Words.RemoveNonWordCharsConcat | src/bg/sofia/uni/fmi/mjt/spellchecker/NaiveSpellChecker.java:125 | `replaceAll("[^a-zA-Z0-9]+", "")` works character by character: it distributes over concatenation |
| Words.RemoveNonWordChars | src/bg/sofia/uni/fmi/mjt/spellchecker/NaiveSpellChecker.java:125 | definition: `replaceAll("[^a-zA-Z0-9]+", "")` keeps exactly the ASCII letters and digits, in order |
| Words.Trim | src/bg/sofia/uni/fmi/mjt/spellchecker/NaiveSpellChecker.java:125 | definition: `trim()` drops the characters up to U+0020 at both ends |
| Words.CleanUpWord | src/bg/sofia/uni/fmi/mjt/spellchecker/NaiveSpellChecker.java:123-126 | definition: lower-case, then remove the non-word characters, then trim |
| Words.CleanUpWordIsClean | src/bg/sofia/uni/fmi/mjt/spellchecker/NaiveSpellChecker.java:123-126 | the cleanup is made only of `a-z0-9` and is no longer than its input |
| Words.CleanUpWordFixpoint | src/bg/sofia/uni/fmi/mjt/spellchecker/NaiveSpellChecker.java:123-126 | a word equals its cleanup if and only if it is made only of `a-z0-9` |
| Words.CleanUpWordIdempotent | src/bg/sofia/uni/fmi/mjt/spellchecker/NaiveSpellChecker.java:123-126 | cleaning twice gives the same word as cleaning once |
| Words.CleanUpWordConcat | src/bg/sofia/uni/fmi/mjt/spellchecker/NaiveSpellChecker.java:123-126 | the cleanup of `a + b` is the cleanup of `a` followed by the cleanup of `b` |
| Words.CleanBlankIsEmpty | src/bg/sofia/uni/fmi/mjt/spellchecker/NaiveSpellChecker.java:131 | a cleaned word is blank if and only if it is empty |
| Words.IsBlank | src/bg/sofia/uni/fmi/mjt/spellchecker/NaiveSpellChecker.java:131 | definition: `isBlank()` holds when every character is `Character.isWhitespace` |
| JavaText.IsWhitespace | src/bg/sofia/uni/fmi/mjt/spellchecker/NaiveSpellChecker.java:93 | definition: `Character.isWhitespace` on one code unit: the ASCII controls 9-13 and 28-31, the space, and the Unicode space, line and paragraph separators other than the no-break spaces |
| JavaText.IsRegexSpace | src/bg/sofia/uni/fmi/mjt/spellchecker/NaiveSpellChecker.java:129 | definition: the regex class `\s` without `UNICODE_CHARACTER_CLASS`: space, tab, newline, vertical tab, form feed and carriage return |
| JavaText.SplitBy | src/bg/sofia/uni/fmi/mjt/spellchecker/NaiveSpellChecker.java:129 | splitting always gives at least one piece |
| JavaText.SplitByPieces | src/bg/sofia/uni/fmi/mjt/spellchecker/NaiveSpellChecker.java:129 | no piece holds a separator, and every character of a piece occurs in the input |
| JavaText.SplitByNoSeparator | src/bg/sofia/uni/fmi/mjt/spellchecker/NaiveSpellChecker.java:129 | a string without separators is a single piece, itself |
| JavaText.SplitByConcat | src/bg/sofia/uni/fmi/mjt/spellchecker/NaiveSpellChecker.java:129 | the pieces of `a`, a separator and `b` are the pieces of `a` followed by the pieces of `b` |
| Words.KeepWords | src/bg/sofia/uni/fmi/mjt/spellchecker/NaiveSpellChecker.java:130-132 | definition: each piece is cleaned, then kept when it is neither a stopword nor blank, in order |
| Words.GetWordList | src/bg/sofia/uni/fmi/mjt/spellchecker/NaiveSpellChecker.java:128-133 | definition: split at every `\s` character, then `KeepWords` |
| Words.KeepWordsAreWords | src/bg/sofia/uni/fmi/mjt/spellchecker/NaiveSpellChecker.java:130-132 | every kept token is non-empty, is not a stopword and equals its own cleanup |
| Words.KeepWordsConcat | src/bg/sofia/uni/fmi/mjt/spellchecker/NaiveSpellChecker.java:130-132 | the map and filter of `getWordList` distribute over concatenation of the pieces, so the order of the pieces is kept |
| Words.WordListTokens | src/bg/sofia/uni/fmi/mjt/spellchecker/NaiveSpellChecker.java:128-133 | every token of `getWordList` is non-empty, is not a stopword and equals its own cleanup |
| Words.WordListConcat | src/bg/sofia/uni/fmi/mjt/spellchecker/NaiveSpellChecker.java:128-133 | the tokens of `a`, a whitespace character and `b` are the tokens of `a` followed by the tokens of `b` |
| Words.WordListIgnoresOuterSpace | src/bg/sofia/uni/fmi/mjt/spellchecker/NaiveSpellChecker.java:128-133 | a leading or trailing whitespace character does not change the tokens |
| Words.BlankWordList | src/bg/sofia/uni/fmi/mjt/spellchecker/NaiveSpellChecker.java:128-133 | blank text has no tokens |
| Counts.NonWhitespaceCountConcat | src/bg/sofia/uni/fmi/mjt/spellchecker/NaiveSpellChecker.java:90-95 | the character count of `a + b` is the count of `a` plus the count of `b` |
| Counts.NonWhitespaceCountBounds | src/bg/sofia/uni/fmi/mjt/spellchecker/NaiveSpellChecker.java:90-95 | the character count is at most the length, and it is 0 if and only if the text is blank |
| Counts.NoWhitespaceCount | src/bg/sofia/uni/fmi/mjt/spellchecker/NaiveSpellChecker.java:90-95 | a text without whitespace counts every character |
| Counts.NonWhitespaceCount | src/bg/sofia/uni/fmi/mjt/spellchecker/NaiveSpellChecker.java:90-95 | definition: the number of characters that are not `Character.isWhitespace` |
| Counts.MistakeCount | src/bg/sofia/uni/fmi/mjt/spellchecker/NaiveSpellChecker.java:104 | definition: the number of tokens not in the dictionary, repeats included |
| Counts.MistakeCountBounds | src/bg/sofia/uni/fmi/mjt/spellchecker/NaiveSpellChecker.java:104 | mistakes are at most the tokens, and 0 if and only if every token is in the dictionary |
| Counts.MistakeCountConcat | src/bg/sofia/uni/fmi/mjt/spellchecker/NaiveSpellChecker.java:104 | mistakes are counted per token, repeats included: the count of `a + b` is the sum of the counts |
| Counts.BlankTextCounts | test/bg.sofia.uni.fmi.mjt.spellchecker/NaiveSpellCheckerTest.java:39-54 | blank text, such as `""` or `"\t   "`, has 0 characters, no tokens and 0 mistakes |
| Counts.SpacedWordCounts | test/bg.sofia.uni.fmi.mjt.spellchecker/NaiveSpellCheckerTest.java:57-72 | a clean word `w` between two spaces, such as `" aple "`, has `\|w\|` characters and is the only token |
| Counts.SpacedWordCharacters | test/bg.sofia.uni.fmi.mjt.spellchecker/NaiveSpellCheckerTest.java:57-72 | a clean word `w` between two spaces has `\|w\|` non-whitespace characters |
| Counts.SpacedWordTokens | test/bg.sofia.uni.fmi.mjt.spellchecker/NaiveSpellCheckerTest.java:57-72 | a clean word between two spaces that is not a stopword is the only token |
| Scenarios.ThreeLines | src/bg/sofia/uni/fmi/mjt/spellchecker/NaiveSpellChecker.java:57 | three newline-free lines joined by newlines, the last one non-empty, split back into the same three lines |
| Scenarios.MultiLineLines | test/bg.sofia.uni.fmi.mjt.spellchecker/NaiveSpellCheckerTest.java:119-120 | the text `"Appp\n apple\n hii"` has the lines `Appp`, ` apple` and ` hii` |
| Scenarios.SpacedWordCharacters | src/bg/sofia/uni/fmi/mjt/spellchecker/NaiveSpellChecker.java:90-95 | a whitespace-free word followed by whitespace adds its length to the character count |
| Scenarios.MultiLineCharacters | test/bg.sofia.uni.fmi.mjt.spellchecker/NaiveSpellCheckerTest.java:119-127 | the three-line text has the 12 characters of the expected header |
| Scenarios.OneWordTokens | src/bg/sofia/uni/fmi/mjt/spellchecker/NaiveSpellChecker.java:128-133 | a piece without `\s` is one token, its cleanup, when that cleanup is neither empty nor a stopword |
| Scenarios.ThreeWordTokens | src/bg/sofia/uni/fmi/mjt/spellchecker/NaiveSpellChecker.java:128-133 | three such words separated by a newline and a space give their three cleanups, in order |
| Scenarios.CapitalizedClean | src/bg/sofia/uni/fmi/mjt/spellchecker/NaiveSpellChecker.java:125 | a capital followed by a clean word cleans to the lower-case letter followed by that word |
| Scenarios.TrailingPunctuation | src/bg/sofia/uni/fmi/mjt/spellchecker/NaiveSpellChecker.java:125 | a character outside `[a-zA-Z0-9]` at the end of a word is dropped by the cleanup |
| Scenarios.CleanAppleDot | src/bg/sofia/uni/fmi/mjt/spellchecker/NaiveSpellChecker.java:123-126 | the cleanup of `Apple.` is `apple` |
| Scenarios.CleanAppp | src/bg/sofia/uni/fmi/mjt/spellchecker/NaiveSpellChecker.java:123-126 | the cleanup of `Appp` is `appp` |
| Scenarios.CleanApple | src/bg/sofia/uni/fmi/mjt/spellchecker/NaiveSpellChecker.java:123-126 | the cleanup of `apple` is `apple` |
| Scenarios.CleanHii | src/bg/sofia/uni/fmi/mjt/spellchecker/NaiveSpellChecker.java:123-126 | the cleanup of `hii` is `hii` |
| Scenarios.MultiLineTokens | test/bg.sofia.uni.fmi.mjt.spellchecker/NaiveSpellCheckerTest.java:119-127 | the three-line text has the tokens `appp`, `apple` and `hii`, the 3 words of the expected header |
| Scenarios.MultiLineMistakes | test/bg.sofia.uni.fmi.mjt.spellchecker/NaiveSpellCheckerTest.java:119-127 | with only `apple` in the dictionary those tokens hold the 2 spelling issues of the expected header |
| Scenarios.MultiLineHeader | test/bg.sofia.uni.fmi.mjt.spellchecker/NaiveSpellCheckerTest.java:119-127 | the header the model writes for the three-line text is the one for 12 characters, 3 words and 2 issues |
| Scenarios.OneWordMisspelled | src/bg/sofia/uni/fmi/mjt/spellchecker/NaiveSpellChecker.java:69-70 | a one-word line, with or without a leading space, misspells its cleanup exactly when the dictionary lacks it |
| Scenarios.FirstLineMisspelled | test/bg.sofia.uni.fmi.mjt.spellchecker/NaiveSpellCheckerTest.java:119-129 | line 1 of the three-line text misspells `appp`, the word of the first expected finding |
| Scenarios.SecondLineMisspelled | test/bg.sofia.uni.fmi.mjt.spellchecker/NaiveSpellCheckerTest.java:119-130 | line 2 has no misspelled word, so it has no finding |
| Scenarios.ThirdLineMisspelled | test/bg.sofia.uni.fmi.mjt.spellchecker/NaiveSpellCheckerTest.java:119-130 | line 3 misspells `hii`, the word of the second expected finding |
| Scenarios.CorrectWordCounts | test/bg.sofia.uni.fmi.mjt.spellchecker/NaiveSpellCheckerTest.java:90-98 | `"Apple. "` has 6 characters and the single token `apple`, as the expected header says |
| SpellChecker.NaiveSpellChecker.Metadata | src/bg/sofia/uni/fmi/mjt/spellchecker/NaiveSpellChecker.java:85-107 | returns a new record that holds the non-whitespace character count, the number of tokens, and the number of tokens missing from the dictionary |
| SpellMetadata.Metadata.constructor | src/bg/sofia/uni/fmi/mjt/spellchecker/Metadata.java:3-6 | a new record holds three zeros |
| SpellMetadata.Metadata.Record | src/bg/sofia/uni/fmi/mjt/spellchecker/Metadata.java:8-13 | `record` stores the three values and returns the object it was called on |
| SpellMetadata.Metadata.GetCharacters | src/bg/sofia/uni/fmi/mjt/spellchecker/Metadata.java:15-17 | returns the stored characters and changes nothing |
| SpellMetadata.Metadata.GetWords | src/bg/sofia/uni/fmi/mjt/spellchecker/Metadata.java:19-21 | returns the stored word count and changes nothing |
| SpellMetadata.Metadata.GetMistakes | src/bg/sofia/uni/fmi/mjt/spellchecker/Metadata.java:23-25 | returns the stored mistakes and changes nothing |
| SpellMetadata.RecordTwice | src/bg/sofia/uni/fmi/mjt/spellchecker/Metadata.java:8-25 | a second `record` replaces all three values of the first, and the getters read back the second |
| Bigrams.BigramsOf | src/bg/sofia/uni/fmi/mjt/spellchecker/NaiveSpellChecker.java:156-157 | a word has `\|w\| - 1` bigram positions (none below length 2), and the `i`-th bigram is characters `i` and `i + 1` |
| Bigrams.BigramVector | src/bg/sofia/uni/fmi/mjt/spellchecker/NaiveSpellChecker.java:154-165 | definition: each bigram of the word mapped to the number of positions it occurs at |
| Bigrams.CountMapSnoc | src/bg/sofia/uni/fmi/mjt/spellchecker/NaiveSpellChecker.java:158-162 | counting one more bigram adds 1 to its count, or puts 1 when it was absent |
| Bigrams.CreateVector | src/bg/sofia/uni/fmi/mjt/spellchecker/NaiveSpellChecker.java:154-165 | the loop builds the map from each bigram of the word to its number of positions; it is empty for words shorter than 2 |
| Bigrams.VectorCountsPositive | src/bg/sofia/uni/fmi/mjt/spellchecker/NaiveSpellChecker.java:154-165 | every count is at least 1 |
| Bigrams.VectorKeys | src/bg/sofia/uni/fmi/mjt/spellchecker/NaiveSpellChecker.java:154-165 | a string is a key if and only if it is a pair of adjacent characters of the word |
| Bigrams.VectorCountsSum | src/bg/sofia/uni/fmi/mjt/spellchecker/NaiveSpellChecker.java:154-165 | in any iteration order the counts add up to `\|w\| - 1`, or 0 for words shorter than 2 |
| Bigrams.SumTermsRemove | src/bg/sofia/uni/fmi/mjt/spellchecker/NaiveSpellChecker.java:141-146 | the sum of products of counts does not depend on the order the entries are visited in |
| Bigrams.DotProduct | src/bg/sofia/uni/fmi/mjt/spellchecker/NaiveSpellChecker.java:139-146 | definition: the sum, over the keys of the first vector that the second also holds, of the product of the two counts |
| Bigrams.DotProductSymmetric | src/bg/sofia/uni/fmi/mjt/spellchecker/NaiveSpellChecker.java:139-146 | the numerator is the same with the two words swapped |
| Bigrams.DotProductZeroIff | src/bg/sofia/uni/fmi/mjt/spellchecker/NaiveSpellChecker.java:139-146 | for count vectors the numerator is never negative, and it is 0 if and only if the vectors share no bigram |
| JavaText.Int32 | src/bg/sofia/uni/fmi/mjt/spellchecker/NaiveSpellChecker.java:170 | the Java `int` value of a number lies in the 32-bit range and differs from it by a multiple of 2^32 |
| JavaText.Int32InRange | src/bg/sofia/uni/fmi/mjt/spellchecker/NaiveSpellChecker.java:170 | numbers inside the 32-bit range are their own `int` value |
| Bigrams.Step | src/bg/sofia/uni/fmi/mjt/spellchecker/NaiveSpellChecker.java:170 | definition: one reduction step `a*a + b*b` as a Java `int` |
| Bigrams.Reduce | src/bg/sofia/uni/fmi/mjt/spellchecker/NaiveSpellChecker.java:169-170 | definition: `reduce` as a left fold of `Step` from an accumulator |
| Bigrams.LengthOfVector | src/bg/sofia/uni/fmi/mjt/spellchecker/NaiveSpellChecker.java:167-174 | definition: 0 for no values, otherwise `Reduce` started from the first value |
| Bigrams.LengthOfShortVectors | src/bg/sofia/uni/fmi/mjt/spellchecker/NaiveSpellChecker.java:167-174 | no values give 0, which is the `NoSuchElementException` branch; a single value gives itself |
| Bigrams.LengthSnoc | src/bg/sofia/uni/fmi/mjt/spellchecker/NaiveSpellChecker.java:169-170 | the length is a left fold: adding a value `x` after length `l` gives `l*l + x*x` as an `int` |
| Bigrams.LengthWithoutOverflow | src/bg/sofia/uni/fmi/mjt/spellchecker/NaiveSpellChecker.java:169-170 | while no intermediate value leaves the `int` range, the length equals the fold over unbounded integers |
| Bigrams.LengthDependsOnOrder | src/bg/sofia/uni/fmi/mjt/spellchecker/NaiveSpellChecker.java:169-170 | the same values in two orders give different lengths: 8 for `[1, 1, 2]` and 26 for `[2, 1, 1]` |
| Bigrams.ExactLengthOfSevenOnes | src/bg/sofia/uni/fmi/mjt/spellchecker/NaiveSpellChecker.java:169-170 | over unbounded integers, seven values 1 (an eight-letter word of distinct bigrams) fold to 210066388901, beyond 32 bits |
| Bigrams.LengthOfSevenOnes | src/bg/sofia/uni/fmi/mjt/spellchecker/NaiveSpellChecker.java:169-170 | the `int` fold of the same values wraps to -387008603 |
| Bigrams.ValuesOf | src/bg/sofia/uni/fmi/mjt/spellchecker/NaiveSpellChecker.java:169 | `values()` lists each key's value once, in the returned order, which visits every key exactly once |
| Bigrams.IsScoreOf | src/bg/sofia/uni/fmi/mjt/spellchecker/NaiveSpellChecker.java:135-152 | definition: the numerator is the dot product of the two bigram vectors, and the denominator is the `int` product of their lengths for some iteration order of each vector |
| Bigrams.CalculateCosineSimilarity | src/bg/sofia/uni/fmi/mjt/spellchecker/NaiveSpellChecker.java:135-152 | the numerator is the dot product of the two bigram vectors; the denominator is the `int` product of the two lengths, for some iteration order of each vector |
| Ranking.ScoreLess | src/bg/sofia/uni/fmi/mjt/spellchecker/NaiveSpellChecker.java:119 | definition: `Double.compare` on the quotients: -Infinity, then finite values by size with -0.0 below 0.0, then +Infinity, then NaN |
| Ranking.Tier | src/bg/sofia/uni/fmi/mjt/spellchecker/NaiveSpellChecker.java:119 | definition: where the quotient falls: -Infinity for a negative value over 0, finite for a non-zero denominator, +Infinity for a positive value over 0, NaN for 0 over 0 |
| Ranking.Quotient | src/bg/sofia/uni/fmi/mjt/spellchecker/NaiveSpellChecker.java:151 | definition: the exact real value of a finite quotient |
| Ranking.ZeroSign | src/bg/sofia/uni/fmi/mjt/spellchecker/NaiveSpellChecker.java:119 | definition: marks the quotient -0.0, zero over a negative denominator, which `Double.compare` puts below 0.0 |
| Ranking.ScoreOrder | src/bg/sofia/uni/fmi/mjt/spellchecker/NaiveSpellChecker.java:119 | the `Double.compare` order on scores is irreflexive and transitive, and its non-strict form is transitive and total, so sorting by it is well defined |
| Ranking.InsertByScore | src/bg/sofia/uni/fmi/mjt/spellchecker/NaiveSpellChecker.java:118-119 | inserting a scored word gives a ranking whose elements are the old ones plus that word, each scored |
| Ranking.InsertByScoreSorted | src/bg/sofia/uni/fmi/mjt/spellchecker/NaiveSpellChecker.java:118-119 | insertion keeps the scores non-increasing |
| Ranking.InsertByScoreDistinct | src/bg/sofia/uni/fmi/mjt/spellchecker/NaiveSpellChecker.java:118-119 | inserting a word not yet ranked keeps the ranking free of repeats |
| Ranking.ScoreNewWord | src/bg/sofia/uni/fmi/mjt/spellchecker/NaiveSpellChecker.java:113-116 | scoring a word not yet ranked leaves the score of every ranked word as it was, so the ranking stays scored and sorted |
| Ranking.InsertNewWord | src/bg/sofia/uni/fmi/mjt/spellchecker/NaiveSpellChecker.java:113-119 | one loop step keeps the ranking complete, free of repeats and sorted |
| Ranking.DistinctCount | src/bg/sofia/uni/fmi/mjt/spellchecker/NaiveSpellChecker.java:118-120 | a ranking without repeats has as many elements as distinct words |
| Ranking.IsClosest | src/bg/sofia/uni/fmi/mjt/spellchecker/NaiveSpellChecker.java:118-120 | definition: `min(n, |scores|)` distinct scored words, in non-increasing score order, with no word left out scoring above a word taken |
| Ranking.TopOfRanking | src/bg/sofia/uni/fmi/mjt/spellchecker/NaiveSpellChecker.java:118-120 | the first `min(n, \|scores\|)` words of a complete sorted ranking are distinct, sorted, and never outscored by a word left out |
| Findings.TopIsSuggestionList | src/bg/sofia/uni/fmi/mjt/spellchecker/NaiveSpellChecker.java:110-121 | that prefix, taken from a ranking of the whole dictionary with its true scores, is a valid suggestion list |
| Findings.IsSuggestionList | src/bg/sofia/uni/fmi/mjt/spellchecker/NaiveSpellChecker.java:110-121 | definition: `n >= 0`, and the list is `IsClosest` for some scoring of every dictionary word that `IsScoreOf` allows |
| SpellChecker.NaiveSpellChecker.FindClosestWords | src/bg/sofia/uni/fmi/mjt/spellchecker/NaiveSpellChecker.java:110-121 | fails exactly when `n < 0`; otherwise the result is the top `n` of the dictionary by score, for some choice of iteration orders |
| Findings.SuggestionsFromDictionary | test/bg.sofia.uni.fmi.mjt.spellchecker/NaiveSpellCheckerTest.java:75-80 | a suggestion list has exactly `min(n, \|dictionary\|)` distinct dictionary words, and none for `n = 0` |
| JavaText.DropTrailingEmpty | src/bg/sofia/uni/fmi/mjt/spellchecker/NaiveSpellChecker.java:57 | drops exactly the trailing empty pieces: the result is a prefix that does not end in an empty piece, and only empty pieces were dropped |
| JavaText.SplitLines | src/bg/sofia/uni/fmi/mjt/spellchecker/NaiveSpellChecker.java:57 | the lines of `split("\n")` are a prefix of the pieces between newlines, and only empty pieces are dropped; a text with a newline never ends in an empty line, and a text without one is the single line `[s]` |
| JavaText.NoNewlineOneLine | src/bg/sofia/uni/fmi/mjt/spellchecker/NaiveSpellChecker.java:57 | a text without newline is a single line |
| JavaText.JoinSplitLines | src/bg/sofia/uni/fmi/mjt/spellchecker/NaiveSpellChecker.java:57 | joining the newline-separated pieces with `"\n"` gives the text back |
| Findings.Misspelled | src/bg/sofia/uni/fmi/mjt/spellchecker/NaiveSpellChecker.java:69-70 | definition: the set of tokens of the line that are not in the dictionary |
| Findings.MisspelledEmpty | src/bg/sofia/uni/fmi/mjt/spellchecker/NaiveSpellChecker.java:69-70 | a line has no misspelled word if and only if each of its tokens is in the dictionary |
| Findings.IsLineBlock | src/bg/sofia/uni/fmi/mjt/spellchecker/NaiveSpellChecker.java:69-76 | definition: `IsBlockFor` the line's misspelled words |
| Findings.IsBlockFor | src/bg/sofia/uni/fmi/mjt/spellchecker/NaiveSpellChecker.java:71-76 | definition: the last finding carries the line number, one of the words and a valid suggestion list, and the findings before it are a block for the other words |
| Findings.BlockForSnoc | src/bg/sofia/uni/fmi/mjt/spellchecker/NaiveSpellChecker.java:71-76 | a finding for a word not yet covered extends a line's findings |
| Findings.CoversOnceSnoc | src/bg/sofia/uni/fmi/mjt/spellchecker/NaiveSpellChecker.java:71-76 | the extended findings cover the extended word set once each |
| Findings.BlockForElements | src/bg/sofia/uni/fmi/mjt/spellchecker/NaiveSpellChecker.java:71-76 | a line's findings all carry the line number and a valid suggestion list, and name each misspelled word exactly once |
| Findings.BlockForOfElements | src/bg/sofia/uni/fmi/mjt/spellchecker/NaiveSpellChecker.java:71-76 | conversely, such findings in any order are a valid block for the line |
| Findings.CoversOnceSize | src/bg/sofia/uni/fmi/mjt/spellchecker/NaiveSpellChecker.java:71 | a line has as many findings as distinct misspelled words |
| Findings.CleanLineNoFindings | src/bg/sofia/uni/fmi/mjt/spellchecker/NaiveSpellChecker.java:69-76 | a line has no findings if and only if it has no misspelled word |
| SpellChecker.NaiveSpellChecker.LineFindings | src/bg/sofia/uni/fmi/mjt/spellchecker/NaiveSpellChecker.java:68-76 | the inner loop writes one finding line per distinct misspelled word of the line; it fails exactly when the count is negative and the line has a misspelled word |
| Findings.ReportFindingsSnoc | src/bg/sofia/uni/fmi/mjt/spellchecker/NaiveSpellChecker.java:67-77 | the findings of one more line extend the findings of the lines before it |
| Findings.IsReportFindings | src/bg/sofia/uni/fmi/mjt/spellchecker/NaiveSpellChecker.java:67-77 | definition: one block per line, the `i`-th an `IsLineBlock` for line `i + 1` |
| Findings.Flatten | src/bg/sofia/uni/fmi/mjt/spellchecker/NaiveSpellChecker.java:67-77 | definition: the blocks concatenated in line order |
| Findings.MisspelledTotal | src/bg/sofia/uni/fmi/mjt/spellchecker/NaiveSpellChecker.java:67-70 | definition: the number of distinct misspelled words, summed over the lines |
| Findings.FlattenSnocText | src/bg/sofia/uni/fmi/mjt/spellchecker/NaiveSpellChecker.java:67-77 | the text of one more line's findings is appended after the text so far |
| Findings.MisspelledTotalStep | src/bg/sofia/uni/fmi/mjt/spellchecker/NaiveSpellChecker.java:67-70 | taking one more line adds that line's misspelled words to the total |
| Findings.MisspelledTotalPrefix | src/bg/sofia/uni/fmi/mjt/spellchecker/NaiveSpellChecker.java:67-70 | the lines before any point have no more misspelled words than the whole text |
| Findings.MisspelledTotalZero | src/bg/sofia/uni/fmi/mjt/spellchecker/NaiveSpellChecker.java:67-70 | the total is 0 if and only if no line has a misspelled word |
| Findings.FlattenOneLine | src/bg/sofia/uni/fmi/mjt/spellchecker/NaiveSpellChecker.java:73-75 | no misspelled word or suggestion holds a line break |
| Findings.FlattenSize | src/bg/sofia/uni/fmi/mjt/spellchecker/NaiveSpellChecker.java:67-77 | the report has one finding per distinct misspelled word of each line |
| SpellChecker.NaiveSpellChecker.Analyze | src/bg/sofia/uni/fmi/mjt/spellchecker/NaiveSpellChecker.java:43-82 | the output is the text, the header with the three counts, and then the findings of each line in line order; with a negative count it fails exactly when some word is misspelled, and the output is then the header alone |
| JavaText.IntToDecimal | src/bg/sofia/uni/fmi/mjt/spellchecker/NaiveSpellChecker.java:63-64 | definition: `%d` writes a minus sign before the digits of a negative value |
| JavaText.NatToDecimal | src/bg/sofia/uni/fmi/mjt/spellchecker/NaiveSpellChecker.java:63-64 | `%d` writes digits only, with no leading zero |
| JavaText.DecimalRoundTrip | src/bg/sofia/uni/fmi/mjt/spellchecker/NaiveSpellChecker.java:63-64 | reading the printed digits back gives the number |
| JavaText.DecimalInjective | src/bg/sofia/uni/fmi/mjt/spellchecker/NaiveSpellChecker.java:63-64 | two numbers print the same if and only if they are equal |
| Report.IntToDecimalInjective | src/bg/sofia/uni/fmi/mjt/spellchecker/NaiveSpellChecker.java:63-64 | signed numbers print the same if and only if they are equal |
| Report.CountsLineInjective | src/bg/sofia/uni/fmi/mjt/spellchecker/NaiveSpellChecker.java:63-64 | the count line determines the three counts it was printed from |
| Report.CountsLine | src/bg/sofia/uni/fmi/mjt/spellchecker/NaiveSpellChecker.java:63-64 | definition: the three counts in `%d` with the labels of the format string |
| Report.Header | src/bg/sofia/uni/fmi/mjt/spellchecker/NaiveSpellChecker.java:46-66 | definition: the text, a newline, the metadata title, the count line and the findings title, each title followed by a newline |
| Report.HeaderBlock | src/bg/sofia/uni/fmi/mjt/spellchecker/NaiveSpellChecker.java:52-66 | definition: a newline, the metadata title and a newline, the count line, the findings title and a newline |
| Report.FindingLine | src/bg/sofia/uni/fmi/mjt/spellchecker/NaiveSpellChecker.java:73-75 | definition: `Line #<n>, {<word>} - Possible suggestions are {<suggestions joined by ", ">}` and a newline |
| Report.FindingsText | src/bg/sofia/uni/fmi/mjt/spellchecker/NaiveSpellChecker.java:71-76 | definition: the finding lines, in order |
| Report.ReportText | src/bg/sofia/uni/fmi/mjt/spellchecker/NaiveSpellChecker.java:43-82 | definition: the header followed by the finding lines |
| JavaText.Join | src/bg/sofia/uni/fmi/mjt/spellchecker/NaiveSpellChecker.java:74 | definition: `String.join`: the parts with the separator between each two |
| Report.NewlineCountConcat | src/bg/sofia/uni/fmi/mjt/spellchecker/NaiveSpellChecker.java:61-75 | the line breaks of `a + b` are those of `a` plus those of `b` |
| Report.CountsLineIsOneLine | src/bg/sofia/uni/fmi/mjt/spellchecker/NaiveSpellChecker.java:63-64 | the count line is a single line |
| Report.HeaderBlockLines | src/bg/sofia/uni/fmi/mjt/spellchecker/NaiveSpellChecker.java:52-66 | what follows the text, up to the findings, holds four line breaks |
| Report.FindingIsOneLine | src/bg/sofia/uni/fmi/mjt/spellchecker/NaiveSpellChecker.java:73-75 | a finding whose word and suggestions have no line break is a single line |
| Report.FindingsTextLines | src/bg/sofia/uni/fmi/mjt/spellchecker/NaiveSpellChecker.java:71-76 | such findings write one line each |
| Report.ReportLines | src/bg/sofia/uni/fmi/mjt/spellchecker/NaiveSpellChecker.java:43-82 | the report has four more line breaks than the text, plus one per finding |
| Findings.ReportLineCount | src/bg/sofia/uni/fmi/mjt/spellchecker/NaiveSpellChecker.java:43-82 | the report's line breaks are those of the text, plus 4, plus the number of distinct misspelled words summed over the lines |
| Report.ReportStartsWithText | src/bg/sofia/uni/fmi/mjt/spellchecker/NaiveSpellChecker.java:46-52 | the report starts with the text itself |
| Report.FindingsTextSnoc | src/bg/sofia/uni/fmi/mjt/spellchecker/NaiveSpellChecker.java:71-76 | one more finding appends its own line |
| Report.FindingsTextConcat | src/bg/sofia/uni/fmi/mjt/spellchecker/NaiveSpellChecker.java:67-77 | the text of two runs of findings is the concatenation of their texts |
| Report.ReportExtends | src/bg/sofia/uni/fmi/mjt/spellchecker/NaiveSpellChecker.java:71-76 | each finding adds its line at the end of the report |

## Left out

- Stream I/O. The `Reader`, `Writer` and `BufferedReader` streams, `readLine`, and the copy of the text one character at a time are left out. So is the wrapping of `IOException` in `UncheckedIOException`. Input lines and text are `string` parameters, and the output is a returned `string`.
- Java's `UncheckedIOException`, and every other exception except the `IllegalArgumentException` of a negative count, are not modelled.
- `null` arguments are not modelled. `cleanUpWord` returns `null` for `null`, but no caller can pass one.
- Words.ToLower: lower-casing covers ASCII only. Java's `toLowerCase` also maps a few non-ASCII letters to ASCII, for example U+212A KELVIN SIGN to `k`. The model drops those characters instead.
- JavaText.IsWhitespace: the predicate follows Java's `Character.isWhitespace` for single UTF-16 code units. Surrogate pairs are not modelled.
- Bigrams.BigramsOf / Bigrams.CreateVector / SpellChecker.NaiveSpellChecker.FindClosestWords: bigrams pair Unicode scalar values, where Java's `charAt` pairs UTF-16 code units. A query word with a supplementary character has one more bigram per such character in Java. Through the wrapped length fold, the ranking can then differ. `analyze` never meets this, because `cleanUpWord` keeps only ASCII letters and digits, but a direct call of `findClosestWords` can.
- Counts.NonWhitespaceCount: a Dafny `char` is a Unicode scalar value, so a supplementary character counts once. The Java `Reader` loop sees its two UTF-16 code units and counts two.
- Words.ToLower: `toLowerCase()` uses the default locale. Under a Turkish locale `I` becomes a dotless `ı`, which the cleanup then strips. The model assumes a non-Turkish case mapping.
- JavaText.IntToDecimal: `String.format("%d")` also uses the default locale. The model assumes ASCII digits.
- Words.GetWordList: `split("\\s+")` is modelled as a split at every `\s` character. The only difference is extra empty pieces, and the blank filter drops them, so the tokens are the same.
- Bigrams.CalculateCosineSimilarity: the final `double` division is left out. The score is kept as the exact pair (numerator, denominator), and `Ranking.ScoreLess` compares pairs as `Double.compare` compares the exact quotients. Rounding can make two distinct quotients equal as doubles; that case is not modelled.
- Bigrams.CalculateCosineSimilarity: each product of two counts is an `int` multiplication in Java and could wrap. The model does not wrap it. A wrap would need counts above 46340, that is, words longer than that. The 32-bit wrap of the lengths and of their product is modelled.
- SpellChecker.NaiveSpellChecker.Metadata: the character counter and the `(int)` cast of the mistake count are not wrapped to 32 bits. They would differ only for texts of 2^31 characters or more.
- Hash iteration order is left open. The methods choose each next key arbitrarily, so the model allows every order the Java collections could produce. Two calls of the model may therefore see different orders, where one Java run would repeat the same order.
- The dictionary and stopword resource files, and the JUnit harness, are not part of this model. Test expectations that depend on their contents, such as `appp` giving `app`, are not stated.
