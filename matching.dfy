/** The keyword matcher and the ranking both recommendation paths share: which keywords
    occur in a query, the percentage score `Math.round(matched / total * 100)`, and the
    `sort((a, b) => b.matchScore - a.matchScore).slice(0, 3)` that keeps the best three. */
module Matching {
  import opened Text
  import opened Seqs
  import opened StableSort

  function OccursIn(query: string): string -> bool {
    (k: string) => Contains(query, k)
  }

  /** `keywords.filter(k => query.includes(k))`. */
  function MatchedKeywords(query: string, keywords: seq<string>): seq<string> {
    Filter(keywords, OccursIn(query))
  }

  /** `score` is 100 * matched / total rounded half up: it lies within one half below
      and strictly less than one half above the exact percentage. */
  predicate RoundedPercentage(matched: nat, total: nat, score: int) {
    total * (2 * score - 1) <= 200 * matched < total * (2 * score + 1)
  }

  /** `matched ? Math.round((matched / total) * 100) : 0`, in integers: for a positive
      quotient, rounding half up of 100 * matched / total is (200 * matched + total)
      div (2 * total). */
  function MatchScore(matched: nat, total: nat): (score: nat)
    requires matched <= total
    ensures matched == 0 ==> score == 0
    ensures matched > 0 ==> RoundedPercentage(matched, total, score)
  {
    if matched == 0 then 0
    else
      var q := (200 * matched + total) / (2 * total);
      assert 2 * total * q <= 200 * matched + total < 2 * total * (q + 1);
      q
  }

  function Negated<T>(score: T -> int): T -> int {
    (x: T) => -score(x)
  }

  function ScoreIs<T>(score: T -> int, k: int): T -> bool {
    (x: T) => score(x) == k
  }

  /** Sorts by descending score (stably) and keeps at most the first three. */
  function TopThree<T>(s: seq<T>, score: T -> int): seq<T> {
    var sorted := SortBy(s, Negated(score));
    sorted[..if |sorted| < 3 then |sorted| else 3]
  }

  predicate NonIncreasing<T>(s: seq<T>, score: T -> int) {
    forall i, j :: 0 <= i < j < |s| ==> score(s[i]) >= score(s[j])
  }

  // ---------------------------------------------------------------------------
  // Properties

  /** A keyword is matched exactly when it is in the list and occurs in the query;
      matches keep the table's order. */
  lemma MatchedKeywordsSpec(query: string, keywords: seq<string>)
    ensures forall k :: k in MatchedKeywords(query, keywords) <==> k in keywords && Contains(query, k)
    ensures |MatchedKeywords(query, keywords)| <= |keywords|
    ensures IsSubsequence(MatchedKeywords(query, keywords), keywords)
  {
    forall k ensures k in MatchedKeywords(query, keywords) <==> k in keywords && Contains(query, k) {
      FilterMembership(keywords, OccursIn(query), k);
    }
    FilterIsSubsequence(keywords, OccursIn(query));
  }

  /** The empty query matches no non-empty keyword. */
  lemma EmptyQueryMatchesNothing(keywords: seq<string>)
    requires forall k :: k in keywords ==> k != ""
    ensures MatchedKeywords("", keywords) == []
  {
    MatchedKeywordsSpec("", keywords);
    forall k | k in keywords ensures !Contains("", k) {
    }
  }

  lemma MulCancel(a: int, b: int, c: int)
    requires a > 0 && a * b < a * c
    ensures b < c
  {
  }

  /** With at most 200 keywords, any match scores between 1 and 100, and matching all
      of them scores exactly 100. */
  lemma ScoreBounds(matched: nat, total: nat)
    requires 0 < matched <= total <= 200
    ensures 1 <= MatchScore(matched, total) <= 100
    ensures matched == total ==> MatchScore(matched, total) == 100
  {
    var s := MatchScore(matched, total);
    assert total * 1 <= 200 * matched < total * (2 * s + 1);
    MulCancel(total, 1, 2 * s + 1);
    assert total * (2 * s - 1) <= 200 * matched <= 200 * total < total * 201;
    MulCancel(total, 2 * s - 1, 201);
    if matched == total {
      assert total * 199 < total * 200 == 200 * matched < total * (2 * s + 1);
      MulCancel(total, 199, 2 * s + 1);
    }
  }

  /** The ranking keeps at most three, best first, drawn from the input. */
  lemma TopThreeShape<T>(s: seq<T>, score: T -> int)
    ensures |TopThree(s, score)| == if |s| < 3 then |s| else 3
    ensures NonIncreasing(TopThree(s, score), score)
    ensures multiset(TopThree(s, score)) <= multiset(s)
  {
    var key := Negated(score);
    var sorted := SortBy(s, key);
    SortByPermutes(s, key);
    SortBySorted(s, key);
    var n := if |sorted| < 3 then |sorted| else 3;
    PrefixDominates(sorted, n, key);
    assert forall i, j :: 0 <= i < j < n ==> key(sorted[i]) <= key(sorted[j]);
  }

  /** Nothing the ranking leaves out outscores anything it keeps. */
  lemma TopThreeDominates<T>(s: seq<T>, score: T -> int)
    ensures forall x, y :: x in multiset(s) - multiset(TopThree(s, score)) && y in TopThree(s, score)
              ==> score(x) <= score(y)
  {
    var key := Negated(score);
    var sorted := SortBy(s, key);
    SortByPermutes(s, key);
    SortBySorted(s, key);
    var n := if |sorted| < 3 then |sorted| else 3;
    var r := sorted[..n];
    PrefixDominates(sorted, n, key);
    forall x, y | x in multiset(s) - multiset(r) && y in r ensures score(x) <= score(y) {
      assert x in multiset(sorted[n..]);
      assert key(y) <= key(x);
    }
  }

  /** Equal scores keep their input order: the kept elements of each score are the
      first ones of that score in the input. */
  lemma TopThreeStable<T>(s: seq<T>, score: T -> int, k: int)
    ensures Filter(TopThree(s, score), ScoreIs(score, k)) <= Filter(s, ScoreIs(score, k))
  {
    var key := Negated(score);
    var sorted := SortBy(s, key);
    var n := if |sorted| < 3 then |sorted| else 3;
    forall x ensures ScoreIs(score, k)(x) == KeyIs(key, -k)(x) {
    }
    FilterExtensional(sorted[..n], ScoreIs(score, k), KeyIs(key, -k));
    FilterExtensional(sorted, ScoreIs(score, k), KeyIs(key, -k));
    FilterExtensional(s, ScoreIs(score, k), KeyIs(key, -k));
    SortByStable(s, key, -k);
    PrefixStable(sorted, n, KeyIs(key, -k));
  }

  /** The three ranking facts together: the first min(n, 3) by score, nothing left out
      outscoring a kept one, equal scores in input order. */
  lemma TopThreeRanks<T>(s: seq<T>, score: T -> int)
    ensures |TopThree(s, score)| == if |s| < 3 then |s| else 3
    ensures multiset(TopThree(s, score)) <= multiset(s)
    ensures forall x, y :: x in multiset(s) - multiset(TopThree(s, score)) && y in TopThree(s, score)
              ==> score(x) <= score(y)
    ensures forall k :: Filter(TopThree(s, score), ScoreIs(score, k)) <= Filter(s, ScoreIs(score, k))
  {
    TopThreeShape(s, score);
    TopThreeDominates(s, score);
    forall k ensures Filter(TopThree(s, score), ScoreIs(score, k)) <= Filter(s, ScoreIs(score, k)) {
      TopThreeStable(s, score, k);
    }
  }
}
