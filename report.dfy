/**
 * The text `analyze` writes: the input text, a newline, the metadata block
 * and one line per misspelled word.
 */
module Report {
  import opened Sequences
  import opened JavaText

  const MetadataHeader := "= = = Metadata = = ="
  const FindingsHeader := "= = = Findings = = ="
  const CharactersLabel := " characters, "
  const WordsLabel := " words, "
  const MistakesLabel := " spelling issue(s) found\n"
  const LinePrefix := "Line #"
  const WordOpen := ", {"
  const SuggestionsOpen := "} - Possible suggestions are {"
  const FindingClose := "}\n"

  /** One misspelled word of one line (numbered from 1) and its suggestions. */
  datatype Finding = Finding(line: nat, word: string, suggestions: seq<string>)

  /** `String.format("%d characters, %d words, %d spelling issue(s) found\n", ...)`. */
  function CountsLine(characters: int, words: int, mistakes: int): string {
    IntToDecimal(characters) + (CharactersLabel + (IntToDecimal(words) + (WordsLabel
      + (IntToDecimal(mistakes) + MistakesLabel))))
  }

  /** What `analyze` writes after the text and before the findings. */
  function HeaderBlock(characters: int, words: int, mistakes: int): string {
    "\n" + MetadataHeader + "\n" + CountsLine(characters, words, mistakes) + FindingsHeader + "\n"
  }

  /** Everything `analyze` writes before the findings. */
  function Header(text: string, characters: int, words: int, mistakes: int): string {
    text + HeaderBlock(characters, words, mistakes)
  }

  /** `String.format("Line #%d, {%s} - Possible suggestions are {%s}", ...)` and
      the newline after it. */
  function FindingLine(f: Finding): string {
    LinePrefix + NatToDecimal(f.line) + WordOpen + f.word + SuggestionsOpen
      + Join(f.suggestions, ", ") + FindingClose
  }

  /** The finding lines of `fs`, in order. */
  function FindingsText(fs: seq<Finding>): string {
    if fs == [] then "" else FindingsText(fs[..|fs| - 1]) + FindingLine(fs[|fs| - 1])
  }

  /** The whole output of a run that finds `fs`. */
  function ReportText(text: string, characters: int, words: int, mistakes: int, fs: seq<Finding>): string {
    Header(text, characters, words, mistakes) + FindingsText(fs)
  }

  // ---------------------------------------------------------------------
  // The counts line can be read back

  lemma IntToDecimalShape(i: int)
    ensures |IntToDecimal(i)| >= 1
    ensures forall k :: 1 <= k < |IntToDecimal(i)| ==> IsDigit(IntToDecimal(i)[k])
    ensures IntToDecimal(i)[0] == '-' || IsDigit(IntToDecimal(i)[0])
    ensures IntToDecimal(i)[0] == '-' <==> i < 0
  {
  }

  lemma IntToDecimalInjective(a: int, b: int)
    requires IntToDecimal(a) == IntToDecimal(b)
    ensures a == b
  {
    IntToDecimalShape(a);
    IntToDecimalShape(b);
    if a < 0 {
      assert IntToDecimal(a)[1..] == NatToDecimal(-a);
      assert IntToDecimal(b)[1..] == NatToDecimal(-b);
      DecimalInjective(-a, -b);
    } else {
      DecimalInjective(a, b);
    }
  }

  /** A number printed with `%d` and followed by a non-digit is read back
      unambiguously. */
  lemma DecimalPrefix(a: int, b: int, r1: string, r2: string)
    requires r1 != [] && r2 != [] && !IsDigit(r1[0]) && !IsDigit(r2[0])
    requires IntToDecimal(a) + r1 == IntToDecimal(b) + r2
    ensures a == b && r1 == r2
  {
    var s, t := IntToDecimal(a), IntToDecimal(b);
    IntToDecimalShape(a);
    IntToDecimalShape(b);
    assert s == (s + r1)[..|s|];
    assert t == (t + r2)[..|t|];
    assert r1 == (s + r1)[|s|..];
    assert r2 == (t + r2)[|t|..];
    IntToDecimalInjective(a, b);
  }

  lemma DropCommonPrefix(p: string, x: string, y: string)
    requires p + x == p + y
    ensures x == y
  {
    assert x == (p + x)[|p|..];
    assert y == (p + y)[|p|..];
  }

  /** A number, then a tag that does not start with a digit, then more. */
  lemma DecimalThenTag(a: int, b: int, tag: string, x: string, y: string)
    requires tag != [] && !IsDigit(tag[0])
    requires IntToDecimal(a) + (tag + x) == IntToDecimal(b) + (tag + y)
    ensures a == b && x == y
  {
    DecimalPrefix(a, b, tag + x, tag + y);
    DropCommonPrefix(tag, x, y);
  }

  /** Different counts give different metadata lines: the line determines
      the three numbers. */
  lemma CountsLineInjective(c1: int, w1: int, m1: int, c2: int, w2: int, m2: int)
    requires CountsLine(c1, w1, m1) == CountsLine(c2, w2, m2)
    ensures c1 == c2 && w1 == w2 && m1 == m2
  {
    DecimalThenTag(c1, c2, CharactersLabel, IntToDecimal(w1) + (WordsLabel + (IntToDecimal(m1) + MistakesLabel)),
                   IntToDecimal(w2) + (WordsLabel + (IntToDecimal(m2) + MistakesLabel)));
    DecimalThenTag(w1, w2, WordsLabel, IntToDecimal(m1) + MistakesLabel, IntToDecimal(m2) + MistakesLabel);
    assert MistakesLabel + "" == MistakesLabel;
    DecimalThenTag(m1, m2, MistakesLabel, "", "");
  }

  // ---------------------------------------------------------------------
  // Line structure of the report

  function NewlineCount(s: string): nat {
    if s == [] then 0
    else NewlineCount(s[..|s| - 1]) + (if s[|s| - 1] == '\n' then 1 else 0)
  }

  lemma {:induction false} NewlineCountConcat(a: string, b: string)
    ensures NewlineCount(a + b) == NewlineCount(a) + NewlineCount(b)
  {
    if b == [] {
      assert a + b == a;
    } else {
      var init := b[..|b| - 1];
      NewlineCountConcat(a, init);
      assert (a + b)[..|a + b| - 1] == a + init;
    }
  }

  lemma {:induction false} NoNewlineCount(s: string)
    requires '\n' !in s
    ensures NewlineCount(s) == 0
  {
    if s != [] {
      assert s[|s| - 1] in s;
      NoNewlineCount(s[..|s| - 1]);
    }
  }

  lemma LineCount(s: string)
    requires '\n' !in s
    ensures NewlineCount(s + "\n") == 1
  {
    NoNewlineCount(s);
    NewlineCountConcat(s, "\n");
  }

  lemma {:induction false} JoinNoNewline(parts: seq<string>, sep: string)
    requires '\n' !in sep && forall p :: p in parts ==> '\n' !in p
    ensures '\n' !in Join(parts, sep)
  {
    if |parts| > 1 {
      assert parts[0] in parts;
      JoinNoNewline(parts[1..], sep);
    } else if |parts| == 1 {
      assert parts[0] in parts;
    }
  }

  lemma DecimalNoNewline(i: int)
    ensures '\n' !in IntToDecimal(i)
  {
    IntToDecimalShape(i);
  }

  /** A finding of a word and suggestions without line breaks is one line. */
  lemma FindingIsOneLine(f: Finding)
    requires '\n' !in f.word && forall s :: s in f.suggestions ==> '\n' !in s
    ensures NewlineCount(FindingLine(f)) == 1
  {
    JoinNoNewline(f.suggestions, ", ");
    DecimalNoNewline(f.line);
    var body := LinePrefix + NatToDecimal(f.line) + WordOpen + f.word + SuggestionsOpen
      + Join(f.suggestions, ", ") + "}";
    assert FindingClose == "}" + "\n";
    assert FindingLine(f) == body + "\n";
    LineCount(body);
  }

  predicate OneLineFindings(fs: seq<Finding>) {
    forall i :: 0 <= i < |fs| ==>
      '\n' !in fs[i].word && forall s :: s in fs[i].suggestions ==> '\n' !in s
  }

  lemma {:induction false} FindingsTextLines(fs: seq<Finding>)
    requires OneLineFindings(fs)
    ensures NewlineCount(FindingsText(fs)) == |fs|
  {
    if fs != [] {
      FindingsTextLines(fs[..|fs| - 1]);
      FindingIsOneLine(fs[|fs| - 1]);
      NewlineCountConcat(FindingsText(fs[..|fs| - 1]), FindingLine(fs[|fs| - 1]));
    }
  }

  lemma {:induction false} LabelLines()
    ensures NewlineCount(CharactersLabel) == 0 && NewlineCount(WordsLabel) == 0
    ensures NewlineCount(MistakesLabel) == 1
    ensures NewlineCount(MetadataHeader) == 0 && NewlineCount(FindingsHeader) == 0
    ensures NewlineCount("\n") == 1
  {
    NoNewlineCount(CharactersLabel);
    NoNewlineCount(WordsLabel);
    NoNewlineCount(MetadataHeader);
    NoNewlineCount(FindingsHeader);
    var body := " spelling issue(s) found";
    assert MistakesLabel == body + "\n";
    LineCount(body);
    assert NewlineCount("") == 0;
    assert "\n"[..0] == "";
  }

  /** The counts are one line. */
  lemma CountsLineIsOneLine(characters: int, words: int, mistakes: int)
    ensures NewlineCount(CountsLine(characters, words, mistakes)) == 1
  {
    LabelLines();
    var c, w, m := IntToDecimal(characters), IntToDecimal(words), IntToDecimal(mistakes);
    DecimalNoNewline(characters);
    DecimalNoNewline(words);
    DecimalNoNewline(mistakes);
    NoNewlineCount(c);
    NoNewlineCount(w);
    NoNewlineCount(m);
    NewlineCountConcat(m, MistakesLabel);
    NewlineCountConcat(WordsLabel, m + MistakesLabel);
    NewlineCountConcat(w, WordsLabel + (m + MistakesLabel));
    NewlineCountConcat(CharactersLabel, w + (WordsLabel + (m + MistakesLabel)));
    NewlineCountConcat(c, CharactersLabel + (w + (WordsLabel + (m + MistakesLabel))));
  }

  /** The header block is four lines: the text's terminator, the two
      headers and the counts. */
  lemma HeaderBlockLines(characters: int, words: int, mistakes: int)
    ensures NewlineCount(HeaderBlock(characters, words, mistakes)) == 4
  {
    var counts := CountsLine(characters, words, mistakes);
    CountsLineIsOneLine(characters, words, mistakes);
    LabelLines();
    NewlineCountConcat("\n", MetadataHeader);
    NewlineCountConcat("\n" + MetadataHeader, "\n");
    NewlineCountConcat("\n" + MetadataHeader + "\n", counts);
    NewlineCountConcat("\n" + MetadataHeader + "\n" + counts, FindingsHeader);
    NewlineCountConcat("\n" + MetadataHeader + "\n" + counts + FindingsHeader, "\n");
  }

  /** The report has four more lines than the text and one line per
      finding. */
  lemma ReportLines(text: string, characters: int, words: int, mistakes: int, fs: seq<Finding>)
    requires OneLineFindings(fs)
    ensures NewlineCount(ReportText(text, characters, words, mistakes, fs)) == NewlineCount(text) + 4 + |fs|
  {
    HeaderBlockLines(characters, words, mistakes);
    FindingsTextLines(fs);
    NewlineCountConcat(text, HeaderBlock(characters, words, mistakes));
    NewlineCountConcat(Header(text, characters, words, mistakes), FindingsText(fs));
  }

  /** Each finding adds its own line at the end of the report. */
  lemma ReportExtends(text: string, characters: int, words: int, mistakes: int, fs: seq<Finding>, f: Finding)
    ensures ReportText(text, characters, words, mistakes, fs + [f])
      == ReportText(text, characters, words, mistakes, fs) + FindingLine(f)
  {
    FindingsTextSnoc(fs, f);
    ConcatAssoc(Header(text, characters, words, mistakes), FindingsText(fs), FindingLine(f));
  }

  lemma FindingsTextSnoc(fs: seq<Finding>, f: Finding)
    ensures FindingsText(fs + [f]) == FindingsText(fs) + FindingLine(f)
  {
    assert (fs + [f])[..|fs|] == fs;
  }

  lemma {:induction false} FindingsTextConcat(fs: seq<Finding>, gs: seq<Finding>)
    ensures FindingsText(fs + gs) == FindingsText(fs) + FindingsText(gs)
  {
    if gs == [] {
      assert fs + gs == fs;
    } else {
      var init, last := gs[..|gs| - 1], gs[|gs| - 1];
      calc {
        FindingsText(fs + gs);
        { assert fs + gs == (fs + init) + [last]; FindingsTextSnoc(fs + init, last); }
        FindingsText(fs + init) + FindingLine(last);
        { FindingsTextConcat(fs, init); }
        (FindingsText(fs) + FindingsText(init)) + FindingLine(last);
        { ConcatAssoc(FindingsText(fs), FindingsText(init), FindingLine(last)); }
        FindingsText(fs) + (FindingsText(init) + FindingLine(last));
      }
    }
  }

  /** The report starts with the text itself. */
  lemma ReportStartsWithText(text: string, characters: int, words: int, mistakes: int, fs: seq<Finding>)
    ensures ReportText(text, characters, words, mistakes, fs)[..|text|] == text
  {
    PrefixOfConcat(text, HeaderBlock(characters, words, mistakes), FindingsText(fs));
  }

  lemma PrefixOfConcat(a: string, b: string, c: string)
    ensures (a + b + c)[..|a|] == a
  {
    assert a + b + c == a + (b + c);
  }
}
