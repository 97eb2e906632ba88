/** `getRecommendations` of the client service layer: score every doctor by the share
    of their specialty's keywords found in the lower-cased query, keep the best three,
    and fall back to a General Practice doctor when nothing matched. */
module ClientRecommendations {
  import opened Wrappers
  import opened Text
  import opened Seqs
  import opened Types
  import opened MockData
  import opened Matching

  /** `specialtyKeywords[doctor.specialty] || []`. */
  function KeywordsFor(specialty: string): (kws: seq<string>)
    ensures specialty !in SpecialtyKeywords ==> kws == []
    ensures |kws| <= 9
  {
    KeywordListSizes();
    if specialty in SpecialtyKeywords then SpecialtyKeywords[specialty] else []
  }

  function DoctorMatches(queryLower: string, d: Doctor): seq<string> {
    MatchedKeywords(queryLower, KeywordsFor(d.specialty))
  }

  predicate HasMatch(queryLower: string, d: Doctor) {
    |DoctorMatches(queryLower, d)| > 0
  }

  /** How `${doctor.rating}` prints a rating held in tenths: no decimals for a whole
      number, one decimal otherwise. */
  function RatingText(tenths: nat): string {
    NatToString(tenths / 10) + (if tenths % 10 == 0 then "" else "." + [DigitChar(tenths % 10)])
  }

  /** The recommendation built for a doctor with at least one matching keyword. */
  function Scored(queryLower: string, d: Doctor): Recommendation
    requires HasMatch(queryLower, d)
  {
    var matched := DoctorMatches(queryLower, d);
    MatchedKeywordsSpec(queryLower, KeywordsFor(d.specialty));
    Recommendation(d.id, d.name, d.specialty, MatchScore(|matched|, |KeywordsFor(d.specialty)|), MatchReason(matched, d))
  }

  function MatchReason(matched: seq<string>, d: Doctor): string {
    "Matches your symptoms: " + Join(matched, ", ") + ". " + d.name + " specializes in "
      + d.specialty + " and has a " + RatingText(d.ratingTenths) + " star rating."
  }

  /** The `for (const doctor of mockDoctors)` loop: one recommendation per doctor with
      a match, in roster order. */
  function Candidates(queryLower: string, doctors: seq<Doctor>): seq<Recommendation>
    decreases |doctors|
  {
    if doctors == [] then []
    else if HasMatch(queryLower, doctors[0]) then [Scored(queryLower, doctors[0])] + Candidates(queryLower, doctors[1..])
    else Candidates(queryLower, doctors[1..])
  }

  function MatchScoreOf(r: Recommendation): int {
    r.matchScore
  }

  function IsGeneralPractice(d: Doctor): bool {
    d.specialty == "General Practice"
  }

  /** The fixed suggestion used when no doctor matched. */
  function Fallback(gp: Doctor): Recommendation {
    Recommendation(gp.id, gp.name, gp.specialty, 50, FallbackReason(gp))
  }

  function FallbackReason(gp: Doctor): string {
    "For general health concerns, we recommend seeing " + gp.name
      + ", a General Practitioner who can evaluate your symptoms and refer you to a specialist if needed."
  }

  /** `getRecommendations(query)` over the roster `doctors`. */
  function Recommend(query: string, doctors: seq<Doctor>): seq<Recommendation> {
    var top := TopThree(Candidates(Lower(query), doctors), MatchScoreOf);
    if top != [] then top
    else match FindIndex(doctors, IsGeneralPractice)
      case None => []
      case Some(i) => [Fallback(doctors[i])]
  }

  // ---------------------------------------------------------------------------
  // Properties

  /** Every candidate scores between 1 and 100, and there are no more candidates than
      doctors. */
  lemma {:induction false} CandidateScores(q: string, doctors: seq<Doctor>)
    ensures |Candidates(q, doctors)| <= |doctors|
    ensures forall c :: c in Candidates(q, doctors) ==> 1 <= c.matchScore <= 100
    decreases |doctors|
  {
    if doctors != [] {
      CandidateScores(q, doctors[1..]);
      var d := doctors[0];
      if HasMatch(q, d) {
        var kws := KeywordsFor(d.specialty);
        MatchedKeywordsSpec(q, kws);
        ScoreBounds(|DoctorMatches(q, d)|, |kws|);
      }
    }
  }

  /** A doctor gets a candidate exactly when one of their keywords matched. */
  lemma {:induction false} CandidatesSpec(q: string, doctors: seq<Doctor>)
    ensures forall d :: d in doctors && HasMatch(q, d) ==> Scored(q, d) in Candidates(q, doctors)
    ensures forall c :: c in Candidates(q, doctors) ==>
              exists d :: d in doctors && HasMatch(q, d) && c == Scored(q, d)
    ensures Candidates(q, doctors) == [] <==> forall d :: d in doctors ==> !HasMatch(q, d)
    decreases |doctors|
  {
    if doctors != [] {
      var d0, tail := doctors[0], doctors[1..];
      CandidatesSpec(q, tail);
      assert doctors == [d0] + tail;
      var rest := Candidates(q, tail);
      if HasMatch(q, d0) {
        assert Candidates(q, doctors) == [Scored(q, d0)] + rest;
      } else {
        assert Candidates(q, doctors) == rest;
      }
      forall c | c in Candidates(q, doctors) ensures exists d :: d in doctors && HasMatch(q, d) && c == Scored(q, d) {
        if c !in rest {
          assert d0 in doctors && HasMatch(q, d0) && c == Scored(q, d0);
        }
      }
    }
  }

  lemma RecommendCases(query: string, doctors: seq<Doctor>)
    ensures var top := TopThree(Candidates(Lower(query), doctors), MatchScoreOf);
            top != [] ==> Recommend(query, doctors) == top
    ensures var top := TopThree(Candidates(Lower(query), doctors), MatchScoreOf);
            top == [] ==> (FindIndex(doctors, IsGeneralPractice).None? ==> Recommend(query, doctors) == []) &&
                          (FindIndex(doctors, IsGeneralPractice).Some? ==>
                             Recommend(query, doctors) == [Fallback(doctors[FindIndex(doctors, IsGeneralPractice).value])])
  {
  }

  /** The score of a candidate is the rounded percentage of its specialty's keywords
      that occur in the query. */
  lemma ScoredIsPercentage(q: string, d: Doctor)
    requires HasMatch(q, d)
    ensures var m, n := |DoctorMatches(q, d)|, |KeywordsFor(d.specialty)|;
            0 < m <= n && RoundedPercentage(m, n, Scored(q, d).matchScore)
  {
    var m, n := |DoctorMatches(q, d)|, |KeywordsFor(d.specialty)|;
    MatchedKeywordsSpec(q, KeywordsFor(d.specialty));
    var score := Scored(q, d).matchScore;
    assert score == MatchScore(m, n);
  }

  /** At most three results, best first, every score between 1 and 100. */
  lemma RecommendShape(query: string, doctors: seq<Doctor>)
    ensures |Recommend(query, doctors)| <= 3
    ensures NonIncreasing(Recommend(query, doctors), MatchScoreOf)
    ensures forall r :: r in Recommend(query, doctors) ==> 1 <= r.matchScore <= 100
  {
    var cs := Candidates(Lower(query), doctors);
    var top := TopThree(cs, MatchScoreOf);
    TopThreeShape(cs, MatchScoreOf);
    CandidateScores(Lower(query), doctors);
    RecommendCases(query, doctors);
    forall r | r in top ensures 1 <= r.matchScore <= 100 {
      assert r in multiset(top);
      assert r in cs;
    }
  }

  /** When some doctor matched, the results are the best-scoring of those doctors'
      recommendations: no left-out candidate outscores a kept one, and equal scores keep
      roster order. */
  lemma RecommendRanksMatches(query: string, doctors: seq<Doctor>)
    requires exists d :: d in doctors && HasMatch(Lower(query), d)
    ensures var cs := Candidates(Lower(query), doctors);
            var r := TopThree(cs, MatchScoreOf);
            Recommend(query, doctors) == r &&
            |r| == (if |cs| < 3 then |cs| else 3) &&
            multiset(r) <= multiset(cs) &&
            (forall x, y :: x in multiset(cs) - multiset(r) && y in r ==> x.matchScore <= y.matchScore) &&
            (forall k :: Filter(r, ScoreIs(MatchScoreOf, k)) <= Filter(cs, ScoreIs(MatchScoreOf, k)))
  {
    var cs := Candidates(Lower(query), doctors);
    var r := TopThree(cs, MatchScoreOf);
    RecommendIsTopThree(query, doctors);
    TopThreeRanks(cs, MatchScoreOf);
    forall x: Recommendation, y: Recommendation | x in multiset(cs) - multiset(r) && y in r ensures x.matchScore <= y.matchScore {
      assert MatchScoreOf(x) <= MatchScoreOf(y);
    }
  }

  lemma RecommendIsTopThree(query: string, doctors: seq<Doctor>)
    requires exists d :: d in doctors && HasMatch(Lower(query), d)
    ensures Recommend(query, doctors) == TopThree(Candidates(Lower(query), doctors), MatchScoreOf)
  {
    var d :| d in doctors && HasMatch(Lower(query), d);
    CandidatesSpec(Lower(query), doctors);
    TopThreeShape(Candidates(Lower(query), doctors), MatchScoreOf);
  }

  /** When no doctor matched: the first General Practice doctor with score 50, or
      nothing when the roster has none. */
  lemma RecommendFallback(query: string, doctors: seq<Doctor>)
    requires forall d :: d in doctors ==> !HasMatch(Lower(query), d)
    ensures (exists i :: 0 <= i < |doctors| && IsGeneralPractice(doctors[i])) ==>
              |Recommend(query, doctors)| == 1 && Recommend(query, doctors)[0].matchScore == 50 &&
              Recommend(query, doctors)[0].specialty == "General Practice"
    ensures forall i :: 0 <= i < |doctors| && IsGeneralPractice(doctors[i]) &&
                        (forall j :: 0 <= j < i ==> !IsGeneralPractice(doctors[j])) ==>
              Recommend(query, doctors) == [Fallback(doctors[i])]
    ensures (forall i :: 0 <= i < |doctors| ==> !IsGeneralPractice(doctors[i])) ==> Recommend(query, doctors) == []
  {
    CandidatesSpec(Lower(query), doctors);
    TopThreeShape(Candidates(Lower(query), doctors), MatchScoreOf);
    RecommendCases(query, doctors);
  }

  /** Capitals in the query make no difference. */
  lemma RecommendIgnoresCase(query: string, doctors: seq<Doctor>)
    ensures Recommend(Lower(query), doctors) == Recommend(query, doctors)
  {
    LowerIdempotent(query);
  }
}
