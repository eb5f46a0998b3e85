/**
 * The pieces of the Java platform that the spell checker leans on, stated
 * as Dafny functions: the two whitespace predicates, ASCII lower-casing,
 * 32-bit `int` arithmetic, `%d` formatting, `String.join` and `String.split`.
 */
module JavaText {
  import opened Sequences

  /** The failure the Java code can raise on a bad argument. */
  datatype Result<T> = Success(value: T) | IllegalArgumentException

  /** `Character.isWhitespace` on one UTF-16 code unit (Java 9 and later):
      the ASCII controls 9-13 and 28-31, the space, and the Unicode space,
      line and paragraph separators other than the no-break spaces. */
  predicate IsWhitespace(c: char) {
    || c == ' '
    || ('\t' <= c <= '\r')
    || ('\U{1C}' <= c <= '\U{1F}')
    || c == '\U{1680}'
    || ('\U{2000}' <= c <= '\U{2006}')
    || ('\U{2008}' <= c <= '\U{200A}')
    || c == '\U{2028}' || c == '\U{2029}' || c == '\U{205F}' || c == '\U{3000}'
  }

  /** The regular-expression class `\s` of `java.util.regex.Pattern`
      without UNICODE_CHARACTER_CLASS: `[ \t\n\x0B\f\r]`. */
  predicate IsRegexSpace(c: char) {
    c == ' ' || ('\t' <= c <= '\r')
  }

  predicate IsNewline(c: char) {
    c == '\n'
  }

  /** `Character.toLowerCase`, restricted to ASCII: no upper-case letter is
      left, and a character is a letter or digit exactly when its lower-case
      form is a lower-case letter or a digit. */
  function ToLowerAscii(c: char): (r: char)
    ensures !('A' <= r <= 'Z')
    ensures ('a' <= r <= 'z' || '0' <= r <= '9') <==> ('a' <= c <= 'z' || 'A' <= c <= 'Z' || '0' <= c <= '9')
  {
    if 'A' <= c <= 'Z' then (c as int + 32) as char else c
  }

  /** Lower-casing a lower-cased character changes nothing. */
  lemma ToLowerAsciiIdempotent(c: char)
    ensures ToLowerAscii(ToLowerAscii(c)) == ToLowerAscii(c)
  {
  }

  /** The value a mathematical integer takes as a Java `int`: two's
      complement wrap-around modulo 2^32. */
  function Int32(x: int): (r: int)
    ensures -0x8000_0000 <= r < 0x8000_0000
    ensures (x - r) % 0x1_0000_0000 == 0
  {
    var m := x % 0x1_0000_0000;
    if m < 0x8000_0000 then m else m - 0x1_0000_0000
  }

  lemma Int32InRange(x: int)
    requires -0x8000_0000 <= x < 0x8000_0000
    ensures Int32(x) == x
  {
    if x < 0 {
      assert x + 0x1_0000_0000 == x % 0x1_0000_0000;
    }
  }

  // ---------------------------------------------------------------------
  // `%d` formatting of an int

  predicate IsDigit(c: char) {
    '0' <= c <= '9'
  }

  function Digit(d: nat): (c: char)
    requires d < 10
    ensures IsDigit(c) && c as int - '0' as int == d
  {
    ('0' as int + d) as char
  }

  /** The decimal digits of `n`, most significant first, no leading zero. */
  function NatToDecimal(n: nat): (s: string)
    ensures |s| >= 1 && (forall i :: 0 <= i < |s| ==> IsDigit(s[i]))
    ensures s[0] == '0' ==> n == 0
  {
    if n < 10 then [Digit(n)] else NatToDecimal(n / 10) + [Digit(n % 10)]
  }

  /** `String.format("%d", i)`: a minus sign for negative values. */
  function IntToDecimal(i: int): string {
    if i < 0 then "-" + NatToDecimal(-i) else NatToDecimal(i)
  }

  /** Reads a string of decimal digits back into a number. */
  function DecimalValue(s: string): nat
    requires forall i :: 0 <= i < |s| ==> IsDigit(s[i])
  {
    if s == [] then 0
    else
      assert IsDigit(s[|s| - 1]);
      DecimalValue(s[..|s| - 1]) * 10 + (s[|s| - 1] as int - '0' as int)
  }

  /** Printing a number and reading it back gives the number. */
  lemma {:induction false} DecimalRoundTrip(n: nat)
    ensures DecimalValue(NatToDecimal(n)) == n
  {
    if n >= 10 {
      var s := NatToDecimal(n);
      DecimalRoundTrip(n / 10);
      assert s[..|s| - 1] == NatToDecimal(n / 10);
    }
  }

  lemma DecimalInjective(m: nat, n: nat)
    ensures NatToDecimal(m) == NatToDecimal(n) <==> m == n
  {
    if NatToDecimal(m) == NatToDecimal(n) {
      DecimalRoundTrip(m);
      DecimalRoundTrip(n);
    }
  }

  // ---------------------------------------------------------------------
  // String.join and String.split

  /** `String.join(sep, parts)`. */
  function Join(parts: seq<string>, sep: string): string {
    if |parts| == 0 then ""
    else if |parts| == 1 then parts[0]
    else parts[0] + sep + Join(parts[1..], sep)
  }

  /** The pieces of `s` between the characters `isSep` accepts: one more
      piece than there are separators, empty pieces included. */
  function SplitBy(s: string, isSep: char -> bool): (r: seq<string>)
    ensures |r| >= 1
  {
    if s == [] then [""]
    else
      var rest := SplitBy(s[1..], isSep);
      if isSep(s[0]) then [""] + rest else [[s[0]] + rest[0]] + rest[1..]
  }

  /** No piece holds a separator, and every character of a piece is a
      character of the input. */
  lemma {:induction false} SplitByPieces(s: string, isSep: char -> bool)
    ensures forall p, c :: p in SplitBy(s, isSep) && c in p ==> c in s && !isSep(c)
  {
    if s != [] {
      SplitByPieces(s[1..], isSep);
    }
  }

  /** A string without separators is a single piece. */
  lemma {:induction false} SplitByNoSeparator(s: string, isSep: char -> bool)
    requires forall i :: 0 <= i < |s| ==> !isSep(s[i])
    ensures SplitBy(s, isSep) == [s]
  {
    if s != [] {
      SplitByNoSeparator(s[1..], isSep);
      assert [s[0]] + s[1..] == s;
    }
  }

  /** Splitting at a separator splits the pieces: the split of `a + [c] + b`
      is the split of `a` followed by the split of `b`. */
  lemma {:induction false} SplitByConcat(a: string, c: char, b: string, isSep: char -> bool)
    requires isSep(c)
    ensures SplitBy(a + [c] + b, isSep) == SplitBy(a, isSep) + SplitBy(b, isSep)
  {
    if a == [] {
      assert a + [c] + b == [c] + b;
      assert ([c] + b)[1..] == b;
    } else {
      var s := a + [c] + b;
      var ra, rb := SplitBy(a[1..], isSep), SplitBy(b, isSep);
      var rest := SplitBy(s[1..], isSep);
      assert s[0] == a[0] && rest == ra + rb by {
        assert s[1..] == a[1..] + [c] + b;
        SplitByConcat(a[1..], c, b, isSep);
      }
      if isSep(a[0]) {
        calc {
          SplitBy(s, isSep);
          [""] + rest;
          [""] + (ra + rb);
          { ConcatAssoc([""], ra, rb); }
          ([""] + ra) + rb;
          SplitBy(a, isSep) + rb;
        }
      } else {
        var head := [a[0]] + ra[0];
        assert rest[0] == ra[0] && rest[1..] == ra[1..] + rb;
        calc {
          SplitBy(s, isSep);
          [head] + rest[1..];
          [head] + (ra[1..] + rb);
          { ConcatAssoc([head], ra[1..], rb); }
          ([head] + ra[1..]) + rb;
          SplitBy(a, isSep) + rb;
        }
      }
    }
  }

  /** Joining the lines of `s` with newlines gives `s` back. */
  lemma {:induction false} JoinSplitLines(s: string)
    ensures Join(SplitBy(s, IsNewline), "\n") == s
  {
    if s != [] {
      var rest := SplitBy(s[1..], IsNewline);
      JoinSplitLines(s[1..]);
      if IsNewline(s[0]) {
        assert SplitBy(s, IsNewline) == [""] + rest;
        assert ([""] + rest)[1..] == rest;
        assert s == "" + "\n" + s[1..];
      } else {
        var ps := SplitBy(s, IsNewline);
        assert ps == [[s[0]] + rest[0]] + rest[1..];
        if |rest| == 1 {
          assert s == [s[0]] + rest[0];
        } else {
          assert ps[1..] == rest[1..];
          assert Join(ps, "\n") == [s[0]] + rest[0] + "\n" + Join(rest[1..], "\n");
          assert Join(rest, "\n") == rest[0] + "\n" + Join(rest[1..], "\n");
        }
      }
    }
  }

  function DropTrailingEmpty(ps: seq<string>): (r: seq<string>)
    ensures |r| <= |ps| && r == ps[..|r|]
    ensures forall i :: |r| <= i < |ps| ==> ps[i] == ""
    ensures r != [] ==> r[|r| - 1] != ""
  {
    if ps == [] then []
    else if ps[|ps| - 1] == "" then DropTrailingEmpty(ps[..|ps| - 1])
    else ps
  }

  /** `s.split("\n")`: the lines of `s` with trailing empty lines removed,
      except that a string without any newline is its own single line. */
  function SplitLines(s: string): (lines: seq<string>)
    ensures |lines| <= |SplitBy(s, IsNewline)|
    ensures lines == SplitBy(s, IsNewline)[..|lines|]
    ensures forall i :: |lines| <= i < |SplitBy(s, IsNewline)| ==> SplitBy(s, IsNewline)[i] == ""
    ensures '\n' !in s ==> lines == [s]
    ensures '\n' in s && lines != [] ==> lines[|lines| - 1] != ""
  {
    if '\n' !in s then
      NoNewlineOneLine(s);
      [s]
    else DropTrailingEmpty(SplitBy(s, IsNewline))
  }

  lemma {:induction false} NoNewlineOneLine(s: string)
    requires '\n' !in s
    ensures SplitBy(s, IsNewline) == [s]
  {
    if s != [] {
      NoNewlineOneLine(s[1..]);
      assert [s[0]] + s[1..] == s;
    }
  }
}
