/**
 * Bigram vectors (`createVector`), and the integer parts of the score of
 * `calculateCosineSimilarity`: the dot product over shared bigrams and the
 * "length" fold of `getLengthOfVector`.
 */
module Bigrams {
  import opened JavaText

  type Vector = map<string, int>

  /** The bigrams of `w`, one per position, in order. */
  function BigramsOf(w: string): (r: seq<string>)
    ensures |r| == if |w| < 2 then 0 else |w| - 1
    ensures forall i :: 0 <= i < |r| ==> r[i] == [w[i], w[i + 1]]
  {
    if |w| < 2 then [] else [[w[0], w[1]]] + BigramsOf(w[1..])
  }

  /** How often `x` occurs in `s`. */
  function Count(s: seq<string>, x: string): nat {
    if s == [] then 0
    else Count(s[..|s| - 1], x) + (if s[|s| - 1] == x then 1 else 0)
  }

  /** The map from each element of `s` to the number of its occurrences. */
  function CountMap(s: seq<string>): Vector {
    map g | g in s :: Count(s, g)
  }

  /** The vector `createVector(w)` returns: each bigram of `w` mapped to the
      number of positions it occurs at. */
  function BigramVector(w: string): Vector {
    CountMap(BigramsOf(w))
  }

  lemma CountSnoc(s: seq<string>, x: string, g: string)
    ensures Count(s + [x], g) == Count(s, g) + (if x == g then 1 else 0)
  {
    assert (s + [x])[..|s|] == s;
  }

  lemma {:induction false} CountAbsent(s: seq<string>, x: string)
    ensures x !in s <==> Count(s, x) == 0
  {
    if s != [] {
      var init := s[..|s| - 1];
      CountAbsent(init, x);
      assert s == init + [s[|s| - 1]];
    }
  }

  lemma CountMapSnoc(s: seq<string>, x: string)
    ensures CountMap(s + [x]) == CountMap(s)[x := Count(s, x) + 1]
  {
    forall g ensures Count(s + [x], g) == Count(s, g) + (if x == g then 1 else 0) {
      CountSnoc(s, x, g);
    }
  }

  /** `createVector`: one pass over the positions, adding 1 to the count of
      each bigram met, or putting 1 for a bigram not yet seen. */
  method CreateVector(word: string) returns (vector: Vector)
    ensures vector == BigramVector(word)
    ensures |word| < 2 ==> vector == map[]
  {
    ghost var grams := BigramsOf(word);
    vector := map[];
    var i := 0;
    while i < |word| - 1
      invariant 0 <= i <= |grams|
      invariant vector == CountMap(grams[..i])
    {
      var gram := [word[i], word[i + 1]];
      assert grams[..i + 1] == grams[..i] + [gram];
      CountMapSnoc(grams[..i], gram);
      if gram in vector {
        vector := vector[gram := vector[gram] + 1];
      } else {
        CountAbsent(grams[..i], gram);
        vector := vector[gram := 1];
      }
      i := i + 1;
    }
    assert grams[..i] == grams;
  }

  // ---------------------------------------------------------------------
  // The counts of a vector

  /** Every count is at least 1. */
  lemma VectorCountsPositive(w: string)
    ensures forall g :: g in BigramVector(w) ==> BigramVector(w)[g] >= 1
  {
    forall g | g in BigramVector(w) ensures Count(BigramsOf(w), g) >= 1 {
      CountAbsent(BigramsOf(w), g);
    }
  }

  /** A key of the vector is exactly a pair of adjacent characters of `w`. */
  lemma VectorKeys(w: string, g: string)
    ensures g in BigramVector(w) <==> exists i :: 0 <= i < |w| - 1 && g == [w[i], w[i + 1]]
  {
    var grams := BigramsOf(w);
    if g in grams {
      var i :| 0 <= i < |grams| && grams[i] == g;
      assert g == [w[i], w[i + 1]];
    }
    if exists i :: 0 <= i < |w| - 1 && g == [w[i], w[i + 1]] {
      var i :| 0 <= i < |w| - 1 && g == [w[i], w[i + 1]];
      assert grams[i] == g;
    }
  }

  predicate Distinct(s: seq<string>) {
    forall i, j :: 0 <= i < j < |s| ==> s[i] != s[j]
  }

  /** `order` lists every key of `m` once: an iteration order of the map. */
  predicate Enumerates(order: seq<string>, m: Vector) {
    Distinct(order) && (forall k :: k in order ==> k in m) && (forall k :: k in m ==> k in order)
  }

  /** The values of `m` in the iteration order `order`. */
  function ValuesAlong(m: Vector, order: seq<string>): seq<int>
    requires forall k :: k in order ==> k in m
  {
    seq(|order|, i requires 0 <= i < |order| => m[order[i]])
  }

  function Sum(xs: seq<int>): int {
    if xs == [] then 0 else Sum(xs[..|xs| - 1]) + xs[|xs| - 1]
  }

  /** The counts in `s` of the elements of `order`, in that order. */
  function CountsAlong(s: seq<string>, order: seq<string>): seq<int> {
    seq(|order|, i requires 0 <= i < |order| => Count(s, order[i]))
  }

  lemma {:induction false} CountInDistinct(order: seq<string>, x: string)
    requires Distinct(order) && x in order
    ensures Count(order, x) == 1
  {
    var init := order[..|order| - 1];
    CountAbsent(init, x);
    assert order == init + [order[|order| - 1]];
    if x in init {
      CountInDistinct(init, x);
    }
  }

  lemma {:induction false} SumCountsAlongSnoc(s: seq<string>, x: string, order: seq<string>)
    ensures Sum(CountsAlong(s + [x], order)) == Sum(CountsAlong(s, order)) + Count(order, x)
  {
    if order != [] {
      var init := order[..|order| - 1];
      var last := order[|order| - 1];
      SumCountsAlongSnoc(s, x, init);
      assert CountsAlong(s + [x], order)[..|order| - 1] == CountsAlong(s + [x], init);
      assert CountsAlong(s, order)[..|order| - 1] == CountsAlong(s, init);
      CountSnoc(s, x, last);
      assert order == init + [last];
      CountSnoc(init, last, x);
    }
  }

  lemma {:induction false} SumCountsAlongEmpty(order: seq<string>)
    ensures Sum(CountsAlong([], order)) == 0
  {
    if order != [] {
      SumCountsAlongEmpty(order[..|order| - 1]);
      assert CountsAlong([], order)[..|order| - 1] == CountsAlong([], order[..|order| - 1]);
    }
  }

  /** Summing the counts of distinct keys that cover `s` gives `|s|`. */
  lemma {:induction false} SumCountsAlong(s: seq<string>, order: seq<string>)
    requires Distinct(order) && forall x :: x in s ==> x in order
    ensures Sum(CountsAlong(s, order)) == |s|
  {
    if s == [] {
      SumCountsAlongEmpty(order);
    } else {
      var init := s[..|s| - 1];
      var x := s[|s| - 1];
      assert s == init + [x];
      SumCountsAlong(init, order);
      SumCountsAlongSnoc(init, x, order);
      CountInDistinct(order, x);
    }
  }

  /** In any iteration order, the counts of the vector of `w` add up to the
      number of bigram positions, `|w| - 1` (and 0 for the empty word). */
  lemma VectorCountsSum(w: string, order: seq<string>)
    requires Enumerates(order, BigramVector(w))
    ensures Sum(ValuesAlong(BigramVector(w), order)) == if |w| < 2 then 0 else |w| - 1
  {
    assert ValuesAlong(BigramVector(w), order) == CountsAlong(BigramsOf(w), order);
    SumCountsAlong(BigramsOf(w), order);
  }

  // ---------------------------------------------------------------------
  // The dot product over shared bigrams

  /** The contribution of bigram `g`: the product of its two counts when
      both vectors hold it. */
  function Term(g: string, a: Vector, b: Vector): int {
    if g in a && g in b then a[g] * b[g] else 0
  }

  /** The sum of the terms of the keys in `keys`, in no particular order. */
  ghost function SumTerms(keys: set<string>, a: Vector, b: Vector): int
    decreases keys
  {
    if keys == {} then 0
    else
      var g :| g in keys;
      Term(g, a, b) + SumTerms(keys - {g}, a, b)
  }

  /** The sum does not depend on the key taken first. */
  lemma SumTermsRemove(keys: set<string>, a: Vector, b: Vector, g: string)
    requires g in keys
    ensures SumTerms(keys, a, b) == Term(g, a, b) + SumTerms(keys - {g}, a, b)
    decreases keys
  {
    var h :| h in keys && SumTerms(keys, a, b) == Term(h, a, b) + SumTerms(keys - {h}, a, b);
    if h != g {
      SumTermsRemove(keys - {h}, a, b, g);
      SumTermsRemove(keys - {g}, a, b, h);
      assert keys - {h} - {g} == keys - {g} - {h};
    }
  }

  /** The dot product of `calculateCosineSimilarity`:
      the sum over the bigrams held by both vectors of the product of counts. */
  ghost function DotProduct(a: Vector, b: Vector): int {
    SumTerms(a.Keys, a, b)
  }

  /** Keys that are not shared contribute nothing. */
  lemma SumTermsShared(keys: set<string>, a: Vector, b: Vector)
    ensures SumTerms(keys, a, b) == SumTerms(keys * a.Keys * b.Keys, a, b)
    decreases keys
  {
    if keys != {} {
      var g :| g in keys;
      SumTermsRemove(keys, a, b, g);
      SumTermsShared(keys - {g}, a, b);
      var shared := keys * a.Keys * b.Keys;
      if g in shared {
        SumTermsRemove(shared, a, b, g);
        assert (keys - {g}) * a.Keys * b.Keys == shared - {g};
      } else {
        assert (keys - {g}) * a.Keys * b.Keys == shared;
      }
    }
  }

  lemma SumTermsSwap(keys: set<string>, a: Vector, b: Vector)
    ensures SumTerms(keys, a, b) == SumTerms(keys, b, a)
    decreases keys
  {
    if keys != {} {
      var g :| g in keys;
      SumTermsRemove(keys, a, b, g);
      SumTermsRemove(keys, b, a, g);
      SumTermsSwap(keys - {g}, a, b);
    }
  }

  /** The dot product is symmetric. */
  lemma DotProductSymmetric(a: Vector, b: Vector)
    ensures DotProduct(a, b) == DotProduct(b, a)
  {
    SumTermsShared(a.Keys, a, b);
    SumTermsShared(b.Keys, b, a);
    assert a.Keys * a.Keys * b.Keys == b.Keys * b.Keys * a.Keys;
    SumTermsSwap(a.Keys * a.Keys * b.Keys, a, b);
  }

  predicate Positive(v: Vector) {
    forall g :: g in v ==> v[g] >= 1
  }

  lemma SumTermsPositive(keys: set<string>, a: Vector, b: Vector)
    requires Positive(a) && Positive(b)
    ensures SumTerms(keys, a, b) >= 0
    ensures SumTerms(keys, a, b) > 0 <==> keys * a.Keys * b.Keys != {}
    decreases keys
  {
    if keys != {} {
      var g :| g in keys;
      SumTermsRemove(keys, a, b, g);
      SumTermsPositive(keys - {g}, a, b);
      if g in a && g in b {
        assert a[g] * b[g] >= 1 by {
          assert a[g] >= 1 && b[g] >= 1;
        }
        assert g in keys * a.Keys * b.Keys;
      } else {
        assert (keys - {g}) * a.Keys * b.Keys == keys * a.Keys * b.Keys;
      }
    }
  }

  /** For vectors of counts, the dot product is never negative, and it is 0
      exactly when the vectors share no bigram. */
  lemma DotProductZeroIff(a: Vector, b: Vector)
    requires Positive(a) && Positive(b)
    ensures DotProduct(a, b) >= 0
    ensures DotProduct(a, b) == 0 <==> a.Keys !! b.Keys
  {
    SumTermsPositive(a.Keys, a, b);
    assert a.Keys * a.Keys * b.Keys == a.Keys * b.Keys;
    if a.Keys * b.Keys != {} {
      var g :| g in a.Keys * b.Keys;
      assert !(a.Keys !! b.Keys);
    } else {
      forall g | g in a.Keys ensures g !in b.Keys {
        assert g !in a.Keys * b.Keys;
      }
    }
  }

  // ---------------------------------------------------------------------
  // getLengthOfVector

  /** `reduce((a, b) -> a*a + b*b)` over Java `int`s: a left fold from
      `acc`, each step wrapping to 32 bits. */
  function Reduce(acc: int, rest: seq<int>): int
    decreases rest
  {
    if rest == [] then acc else Reduce(Step(acc, rest[0]), rest[1..])
  }

  /** One step of the reduction, `a*a + b*b` in `int` arithmetic (each
      product and the sum wrap; wrapping once at the end is the same). */
  function Step(acc: int, x: int): int {
    Int32(acc * acc + x * x)
  }

  /** `getLengthOfVector` over the values in iteration order: 0 for no
      values (the `NoSuchElementException` branch), otherwise the fold
      started from the first value. */
  function LengthOfVector(values: seq<int>): int {
    if values == [] then 0 else Reduce(values[0], values[1..])
  }

  /** The same fold over unbounded integers. */
  function ExactReduce(acc: int, rest: seq<int>): int
    decreases rest
  {
    if rest == [] then acc else ExactReduce(acc * acc + rest[0] * rest[0], rest[1..])
  }

  function ExactLength(values: seq<int>): int {
    if values == [] then 0 else ExactReduce(values[0], values[1..])
  }

  /** Every intermediate value of the exact fold fits in an `int`. */
  predicate FoldFits(acc: int, rest: seq<int>)
    decreases rest
  {
    if rest == [] then true
    else
      var next := acc * acc + rest[0] * rest[0];
      -0x8000_0000 <= next < 0x8000_0000 && FoldFits(next, rest[1..])
  }

  lemma {:induction false} ReduceWithoutOverflow(acc: int, rest: seq<int>)
    requires FoldFits(acc, rest)
    ensures Reduce(acc, rest) == ExactReduce(acc, rest)
    decreases rest
  {
    if rest != [] {
      var next := acc * acc + rest[0] * rest[0];
      Int32InRange(next);
      ReduceWithoutOverflow(next, rest[1..]);
    }
  }

  /** As long as no intermediate value leaves the `int` range, the length is
      the mathematical fold. */
  lemma LengthWithoutOverflow(values: seq<int>)
    requires values != [] ==> FoldFits(values[0], values[1..])
    ensures LengthOfVector(values) == ExactLength(values)
  {
    if values != [] {
      ReduceWithoutOverflow(values[0], values[1..]);
    }
  }

  lemma {:induction false} ReduceSnoc(acc: int, rest: seq<int>, x: int)
    ensures Reduce(acc, rest + [x]) == Step(Reduce(acc, rest), x)
    decreases rest
  {
    if rest == [] {
      assert ([] + [x])[1..] == [];
    } else {
      ReduceSnoc(Step(acc, rest[0]), rest[1..], x);
      assert (rest + [x])[1..] == rest[1..] + [x];
    }
  }

  /** The length is a left fold: appending a value `x` to a non-empty value
      sequence with length `l` gives length `l*l + x*x` as an `int`. */
  lemma LengthSnoc(values: seq<int>, x: int)
    requires values != []
    ensures LengthOfVector(values + [x]) ==
      Int32(LengthOfVector(values) * LengthOfVector(values) + x * x)
  {
    ReduceSnoc(values[0], values[1..], x);
    assert (values + [x])[1..] == values[1..] + [x];
  }

  /** No values give 0, one value gives itself. */
  lemma LengthOfShortVectors(v: int)
    ensures LengthOfVector([]) == 0
    ensures LengthOfVector([v]) == v
  {
  }

  /** The fold depends on the order of the values. */
  lemma LengthDependsOnOrder()
    ensures LengthOfVector([1, 1, 2]) == 8
    ensures LengthOfVector([2, 1, 1]) == 26
  {
    assert Int32(1 * 1 + 1 * 1) == 2;
    assert Int32(2 * 2 + 2 * 2) == 8;
    assert Int32(2 * 2 + 1 * 1) == 5;
    assert Int32(5 * 5 + 1 * 1) == 26;
  }

  /** Seven distinct bigrams occurring once each, as in an eight-letter
      word such as "spelling": the exact fold needs more than 32 bits. */
  lemma ExactLengthOfSevenOnes()
    ensures ExactLength([1, 1, 1, 1, 1, 1, 1]) == 210066388901
  {
  }

  /** The `int` fold of the same values wraps and comes out negative. */
  lemma LengthOfSevenOnes()
    ensures LengthOfVector([1, 1, 1, 1, 1, 1, 1]) == -387008603
  {
    assert Int32(2) == 2 && Int32(5) == 5 && Int32(26) == 26;
    assert Int32(677) == 677 && Int32(458330) == 458330;
    assert Int32(210066388901) == -387008603;
  }

  // ---------------------------------------------------------------------
  // The score

  /** The score `vectorProduct / (double)(aLength * bLength)`, kept as its
      integer numerator and its 32-bit denominator. */
  datatype Score = Score(dot: int, denom: int)

  /** `s` is the score of `a` against `b` for some iteration order of each
      vector's values. */
  ghost predicate IsScoreOf(s: Score, a: string, b: string) {
    var va, vb := BigramVector(a), BigramVector(b);
    && s.dot == DotProduct(va, vb)
    && exists aOrder, bOrder ::
      && Enumerates(aOrder, va) && Enumerates(bOrder, vb)
      && s.denom == Int32(LengthOfVector(ValuesAlong(va, aOrder)) * LengthOfVector(ValuesAlong(vb, bOrder)))
  }

  /** `vector.values()`: the values of a map in its iteration order, which
      is not specified; `order` is the order of the keys that was used. */
  method ValuesOf(m: Vector) returns (values: seq<int>, order: seq<string>)
    ensures Enumerates(order, m) && values == ValuesAlong(m, order)
  {
    var remaining := m.Keys;
    values, order := [], [];
    while remaining != {}
      invariant remaining <= m.Keys
      invariant Distinct(order)
      invariant forall k :: k in order <==> k in m && k !in remaining
      invariant values == ValuesAlong(m, order)
      decreases remaining
    {
      var k :| k in remaining;
      values, order := values + [m[k]], order + [k];
      remaining := remaining - {k};
    }
  }

  /** `calculateCosineSimilarity`, up to the final floating-point division:
      the loop over the entries of the first vector accumulates the products
      of counts of shared bigrams; the denominator is the product of the two
      lengths as a Java `int`. */
  method CalculateCosineSimilarity(a: string, b: string)
    returns (score: Score, ghost aOrder: seq<string>, ghost bOrder: seq<string>)
    ensures score.dot == DotProduct(BigramVector(a), BigramVector(b))
    ensures Enumerates(aOrder, BigramVector(a)) && Enumerates(bOrder, BigramVector(b))
    ensures score.denom == Int32(LengthOfVector(ValuesAlong(BigramVector(a), aOrder))
                                 * LengthOfVector(ValuesAlong(BigramVector(b), bOrder)))
    ensures IsScoreOf(score, a, b)
  {
    var aVector := CreateVector(a);
    var bVector := CreateVector(b);
    var vectorProduct := 0;
    var entries := aVector.Keys;
    while entries != {}
      invariant entries <= aVector.Keys
      invariant vectorProduct + SumTerms(entries, aVector, bVector) == DotProduct(aVector, bVector)
      decreases entries
    {
      var gram :| gram in entries;
      SumTermsRemove(entries, aVector, bVector, gram);
      if gram in bVector {
        vectorProduct := vectorProduct + aVector[gram] * bVector[gram];
      }
      entries := entries - {gram};
    }
    var aValues, bValues;
    aValues, aOrder := ValuesOf(aVector);
    bValues, bOrder := ValuesOf(bVector);
    var aLength := LengthOfVector(aValues);
    var bLength := LengthOfVector(bValues);
    score := Score(vectorProduct, Int32(aLength * bLength));
  }
}
