/**
 * The ranking of `findClosestWords`: the scores sorted in reverse `Double`
 * order, then the first `n` entries.
 */
module Ranking {
  import opened Bigrams

  // ---------------------------------------------------------------------
  // `Double.compare` on the quotient dot / denom

  /** Where the quotient falls: -Infinity, a finite value, +Infinity, NaN
      (NaN is above everything in `Double.compare`). */
  function Tier(s: Score): int {
    if s.denom != 0 then 1
    else if s.dot > 0 then 2
    else if s.dot < 0 then 0
    else 3
  }

  /** The exact value of a finite quotient. */
  function Quotient(s: Score): real {
    if s.denom == 0 then 0.0 else s.dot as real / s.denom as real
  }

  /** 0 for a quotient of -0.0 (zero over a negative denominator), which
      `Double.compare` puts below 0.0; 1 otherwise. */
  function ZeroSign(s: Score): int {
    if s.dot == 0 && s.denom < 0 then 0 else 1
  }

  /** `s` compares below `t`. */
  predicate ScoreLess(s: Score, t: Score) {
    || Tier(s) < Tier(t)
    || (Tier(s) == Tier(t) && Quotient(s) < Quotient(t))
    || (Tier(s) == Tier(t) && Quotient(s) == Quotient(t) && ZeroSign(s) < ZeroSign(t))
  }

  predicate ScoreLe(s: Score, t: Score) {
    !ScoreLess(t, s)
  }

  /** The comparison is a strict weak order, so sorting by it is well defined. */
  lemma ScoreOrder(s: Score, t: Score, u: Score)
    ensures !ScoreLess(s, s)
    ensures ScoreLess(s, t) && ScoreLess(t, u) ==> ScoreLess(s, u)
    ensures ScoreLe(s, t) && ScoreLe(t, u) ==> ScoreLe(s, u)
    ensures ScoreLe(s, t) || ScoreLe(t, s)
  {
  }

  // ---------------------------------------------------------------------
  // Sorting and the top n

  predicate Scored(r: seq<string>, scores: map<string, Score>) {
    forall i :: 0 <= i < |r| ==> r[i] in scores
  }

  /** Scores do not increase along `r`. */
  predicate SortedByScore(r: seq<string>, scores: map<string, Score>)
    requires Scored(r, scores)
  {
    forall i, j :: 0 <= i < j < |r| ==> ScoreLe(scores[r[j]], scores[r[i]])
  }

  /** `r` is the outcome of `limit(n)` on the words of `scores` sorted by
      descending score: `min(n, |scores|)` distinct scored words, in
      non-increasing score order, and no word left out scores above a word
      taken. Ties are in no particular order. */
  ghost predicate IsClosest(r: seq<string>, scores: map<string, Score>, n: nat) {
    && |r| == (if n < |scores| then n else |scores|)
    && Distinct(r)
    && Scored(r, scores)
    && SortedByScore(r, scores)
    && forall i, d :: 0 <= i < |r| && d in scores && d !in r ==> ScoreLe(scores[d], scores[r[i]])
  }

  /** Puts `d` after every word scoring at least as high and before the first
      word scoring lower. */
  function InsertByScore(r: seq<string>, d: string, scores: map<string, Score>): (r': seq<string>)
    requires Scored(r, scores) && d in scores
    ensures Scored(r', scores)
    ensures multiset(r') == multiset(r) + multiset{d}
  {
    if r == [] then [d]
    else if ScoreLess(scores[r[0]], scores[d]) then [d] + r
    else
      assert r == [r[0]] + r[1..];
      [r[0]] + InsertByScore(r[1..], d, scores)
  }

  lemma {:induction false} InsertByScoreSorted(r: seq<string>, d: string, scores: map<string, Score>)
    requires Scored(r, scores) && d in scores
    requires SortedByScore(r, scores)
    ensures SortedByScore(InsertByScore(r, d, scores), scores)
  {
    if r != [] && !ScoreLess(scores[r[0]], scores[d]) {
      InsertByScoreSorted(r[1..], d, scores);
      var tail := InsertByScore(r[1..], d, scores);
      forall k | 0 <= k < |tail| ensures ScoreLe(scores[tail[k]], scores[r[0]]) {
        assert tail[k] in multiset(tail);
        if tail[k] != d {
          assert tail[k] in multiset(r[1..]);
          var m :| 0 <= m < |r[1..]| && r[1..][m] == tail[k];
          assert r[m + 1] == tail[k];
        }
      }
    } else if r != [] {
      forall k | 0 <= k < |r| ensures ScoreLe(scores[r[k]], scores[d]) {
        if k > 0 {
          ScoreOrder(scores[r[k]], scores[r[0]], scores[d]);
        }
      }
    }
  }

  /** Inserting a word not yet ranked keeps the ranking free of repeats. */
  lemma {:induction false} InsertByScoreDistinct(r: seq<string>, d: string, scores: map<string, Score>)
    requires Scored(r, scores) && d in scores
    requires Distinct(r) && d !in r
    ensures Distinct(InsertByScore(r, d, scores))
  {
    if r != [] && !ScoreLess(scores[r[0]], scores[d]) {
      InsertByScoreDistinct(r[1..], d, scores);
      var tail := InsertByScore(r[1..], d, scores);
      assert r[0] !in multiset(tail) by {
        assert r[0] !in r[1..];
      }
    }
  }

  /** Scoring a word that is not ranked yet leaves the ranking as it was. */
  lemma ScoreNewWord(r: seq<string>, scores: map<string, Score>, d: string, s: Score)
    requires Scored(r, scores) && SortedByScore(r, scores) && d !in r
    ensures forall i :: 0 <= i < |r| ==> scores[d := s][r[i]] == scores[r[i]]
    ensures Scored(r, scores[d := s]) && SortedByScore(r, scores[d := s])
  {
    forall i | 0 <= i < |r| ensures scores[d := s][r[i]] == scores[r[i]] {
      assert r[i] in r;
    }
  }

  /** One step of the ranking loop: scoring a new word `d` with `s` and
      inserting it keeps a complete, repeat-free, sorted ranking. */
  lemma InsertNewWord(ranked: seq<string>, scores: map<string, Score>, d: string, s: Score)
    requires Distinct(ranked) && Scored(ranked, scores) && SortedByScore(ranked, scores)
    requires forall x :: x in scores ==> x in ranked
    requires d !in scores
    ensures var r := InsertByScore(ranked, d, scores[d := s]);
      && Distinct(r) && Scored(r, scores[d := s]) && SortedByScore(r, scores[d := s])
      && forall x :: x in scores[d := s] ==> x in r
  {
    var scores' := scores[d := s];
    assert d !in ranked;
    ScoreNewWord(ranked, scores, d, s);
    InsertByScoreSorted(ranked, d, scores');
    InsertByScoreDistinct(ranked, d, scores');
    var r := InsertByScore(ranked, d, scores');
    forall x | x in scores' ensures x in r {
      assert x in multiset(r);
    }
  }

  lemma {:induction false} DistinctCount(r: seq<string>)
    requires Distinct(r)
    ensures |set x | x in r| == |r|
  {
    if r != [] {
      var init := r[..|r| - 1];
      DistinctCount(init);
      assert r == init + [r[|r| - 1]];
      assert (set x | x in r) == (set x | x in init) + {r[|r| - 1]};
    }
  }

  /** The top `n` of a complete sorted ranking is the closest-words list. */
  lemma TopOfRanking(ranked: seq<string>, scores: map<string, Score>, n: nat)
    requires Distinct(ranked) && Scored(ranked, scores) && SortedByScore(ranked, scores)
    requires forall d :: d in scores ==> d in ranked
    ensures var k := if n < |ranked| then n else |ranked|; IsClosest(ranked[..k], scores, n)
  {
    assert (set x | x in ranked) == scores.Keys;
    DistinctCount(ranked);
    var k := if n < |ranked| then n else |ranked|;
    var r := ranked[..k];
    forall i, d | 0 <= i < |r| && d in scores && d !in r
      ensures ScoreLe(scores[d], scores[r[i]])
    {
      var j :| 0 <= j < |ranked| && ranked[j] == d;
    }
  }
}
