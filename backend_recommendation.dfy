/** The GET handler of the back end's `/recommendations` route: every joined doctor is
    scored against its own, shorter keyword table, zero scores are dropped, and the
    best three are kept. Unlike the client version it has no fallback. */
module BackendRecommendation {
  import opened Wrappers
  import opened Text
  import opened Seqs
  import opened Types
  import opened Store
  import opened MockData
  import opened Matching

  const GeneralPracticeTerms: seq<string> := ["fever", "cold", "flu", "cough", "headache", "fatigue", "checkup"]
  const CardiologyTerms: seq<string> := ["heart", "chest pain", "palpitations", "blood pressure", "breathing"]
  const PediatricsTerms: seq<string> := ["child", "baby", "infant", "toddler", "kids"]
  const DermatologyTerms: seq<string> := ["skin", "rash", "acne", "eczema", "mole", "itching"]
  const OrthopedicsTerms: seq<string> := ["bone", "joint", "muscle", "back pain", "knee", "fracture"]

  /** The route's `keywords` table. */
  const Keywords: map<string, seq<string>> := map[
    "General Practice" := GeneralPracticeTerms,
    "Cardiology" := CardiologyTerms,
    "Pediatrics" := PediatricsTerms,
    "Dermatology" := DermatologyTerms,
    "Orthopedics" := OrthopedicsTerms
  ]

  /** A joined doctor with its score and the matched keywords as its reason. */
  datatype ScoredDoctor = ScoredDoctor(doctor: DoctorProfile, matchScore: int, reason: string)

  /** `keywords[doc.specialty] || []`. */
  function TermsFor(specialty: string): (kws: seq<string>)
    ensures |kws| <= 7
  {
    TermListSizes();
    if specialty in Keywords then Keywords[specialty] else []
  }

  /** `(req.query.query || '').toLowerCase()`: a missing or empty query is the empty
      string. */
  function QueryText(query: Option<string>): (q: string)
    ensures IsLowerText(q)
    ensures query.None? ==> q == ""
  {
    LowerIsLowerText(if query.Some? then query.value else "");
    Lower(if query.Some? then query.value else "")
  }

  /** The `map` step for one doctor. */
  function ScoreDoctor(q: string, doc: DoctorProfile): ScoredDoctor {
    var kws := TermsFor(doc.specialty);
    var matched := MatchedKeywords(q, kws);
    MatchedKeywordsSpec(q, kws);
    ScoredDoctor(doc, if |matched| > 0 then MatchScore(|matched|, |kws|) else 0, Join(matched, ", "))
  }

  function ScoreAll(q: string, docs: seq<DoctorProfile>): (r: seq<ScoredDoctor>)
    ensures |r| == |docs|
    ensures forall i :: 0 <= i < |docs| ==> r[i] == ScoreDoctor(q, docs[i])
    decreases |docs|
  {
    if docs == [] then [] else [ScoreDoctor(q, docs[0])] + ScoreAll(q, docs[1..])
  }

  function HasPositiveScore(s: ScoredDoctor): bool {
    s.matchScore > 0
  }

  function ScoreOf(s: ScoredDoctor): int {
    s.matchScore
  }

  /** The scored doctors that survive `filter(d => d.matchScore > 0)`. */
  function Surviving(query: Option<string>, docs: seq<DoctorProfile>): seq<ScoredDoctor> {
    Filter(ScoreAll(QueryText(query), docs), HasPositiveScore)
  }

  /** The whole pipeline over the joined doctors: map, filter, sort by descending
      score, `slice(0, 3)`. */
  function Recommend(query: Option<string>, docs: seq<DoctorProfile>): seq<ScoredDoctor> {
    TopThree(Surviving(query, docs), ScoreOf)
  }

  // ---------------------------------------------------------------------------
  // Properties

  /** A doctor scores 0 with an empty reason exactly when none of its keywords occur in
      the query; otherwise the score is
      the rounded percentage of its keywords matched, between 1 and 100, and the reason
      lists the matches in table order. */
  lemma ScoreDoctorSpec(q: string, doc: DoctorProfile)
    ensures var s := ScoreDoctor(q, doc);
            var kws := TermsFor(doc.specialty);
            var matched := MatchedKeywords(q, kws);
            (s.matchScore == 0 <==> matched == []) &&
            (matched == [] ==> s.reason == "") &&
            (matched != [] ==>
               1 <= s.matchScore <= 100 &&
               RoundedPercentage(|matched|, |kws|, s.matchScore) &&
               s.reason == Join(matched, ", ")) &&
            s.doctor == doc
  {
    var kws := TermsFor(doc.specialty);
    var matched := MatchedKeywords(q, kws);
    MatchedKeywordsSpec(q, kws);
    if matched != [] {
      var score := MatchScore(|matched|, |kws|);
      assert ScoreDoctor(q, doc).matchScore == score;
      ScoreBounds(|matched|, |kws|);
    }
  }

  /** A doctor whose specialty is not in the table scores 0 with an empty reason. */
  lemma UnknownSpecialtyScoresZero(q: string, doc: DoctorProfile)
    requires doc.specialty !in Keywords
    ensures ScoreDoctor(q, doc).matchScore == 0 && ScoreDoctor(q, doc).reason == ""
  {
    assert TermsFor(doc.specialty) == [];
  }

  /** At most three results, best first, each a doctor of the input with a score from 1
      to 100. */
  lemma RecommendShape(query: Option<string>, docs: seq<DoctorProfile>)
    ensures var r := Recommend(query, docs);
            |r| <= 3 && NonIncreasing(r, ScoreOf) &&
            forall s :: s in r ==> 1 <= s.matchScore <= 100 && s.doctor in docs && s == ScoreDoctor(QueryText(query), s.doctor)
  {
    var q := QueryText(query);
    var all := ScoreAll(q, docs);
    var kept := Filter(all, HasPositiveScore);
    var r := TopThree(kept, ScoreOf);
    TopThreeShape(kept, ScoreOf);
    forall s | s in r ensures 1 <= s.matchScore <= 100 && s.doctor in docs && s == ScoreDoctor(q, s.doctor) {
      assert s in multiset(r);
      FilterMembership(all, HasPositiveScore, s);
      var i :| 0 <= i < |all| && all[i] == s;
      ScoreDoctorSpec(q, docs[i]);
    }
  }

  /** The kept results are the best of the positive scores: every doctor with a positive
      score is kept unless three others score at least as much, and equal scores keep
      input order. */
  lemma RecommendRanks(query: Option<string>, docs: seq<DoctorProfile>)
    ensures var kept := Surviving(query, docs);
            var r := Recommend(query, docs);
            |r| == (if |kept| < 3 then |kept| else 3) &&
            (forall x, y :: x in multiset(kept) - multiset(r) && y in r ==> x.matchScore <= y.matchScore) &&
            (forall k :: Filter(r, ScoreIs(ScoreOf, k)) <= Filter(kept, ScoreIs(ScoreOf, k)))
  {
    var kept := Surviving(query, docs);
    var r := TopThree(kept, ScoreOf);
    TopThreeRanks(kept, ScoreOf);
    forall x: ScoredDoctor, y: ScoredDoctor | x in multiset(kept) - multiset(r) && y in r ensures x.matchScore <= y.matchScore {
      assert ScoreOf(x) <= ScoreOf(y);
    }
  }

  /** The query is lower-cased before matching: capitals in it make no difference. */
  lemma RecommendIgnoresCase(s: string, docs: seq<DoctorProfile>)
    ensures Recommend(Some(Lower(s)), docs) == Recommend(Some(s), docs)
  {
    LowerIdempotent(s);
  }

  /** No fallback: when no doctor's keyword occurs in the query the result is empty. */
  lemma NoMatchNoResult(query: Option<string>, docs: seq<DoctorProfile>)
    requires forall d :: d in docs ==> MatchedKeywords(QueryText(query), TermsFor(d.specialty)) == []
    ensures Recommend(query, docs) == []
  {
    var q := QueryText(query);
    var all := ScoreAll(q, docs);
    forall i | 0 <= i < |all| ensures !HasPositiveScore(all[i]) {
      ScoreDoctorSpec(q, docs[i]);
    }
    FilterNoneKept(all, HasPositiveScore);
  }

  /** In particular a missing or empty query recommends nobody. */
  lemma EmptyQueryNoResult(query: Option<string>, docs: seq<DoctorProfile>)
    requires query.None? || query == Some("")
    ensures Recommend(query, docs) == []
  {
    forall d | d in docs ensures MatchedKeywords(QueryText(query), TermsFor(d.specialty)) == [] {
      TermsNonEmpty(d.specialty);
      EmptyQueryMatchesNothing(TermsFor(d.specialty));
    }
    NoMatchNoResult(query, docs);
  }

  lemma TermsNonEmpty(specialty: string)
    ensures forall k :: k in TermsFor(specialty) ==> k != ""
  {
  }

  lemma {:induction false} FilterNoneKept<T>(s: seq<T>, p: T -> bool)
    requires forall i :: 0 <= i < |s| ==> !p(s[i])
    ensures Filter(s, p) == []
    decreases |s|
  {
    if s != [] {
      FilterNoneKept(s[1..], p);
    }
  }

  /** The table covers the same five specialties as the client's, and each of its
      lists is drawn from the client's list for that specialty. */
  lemma TermsAreClientKeywords()
    ensures Keywords.Keys == SpecialtyKeywords.Keys
    ensures forall sp, k :: sp in Keywords && k in Keywords[sp] ==> k in SpecialtyKeywords[sp]
  {
    TableSpecialties();
  }

  /** The sizes of the lists. */
  lemma TermListSizes()
    ensures |Keywords["General Practice"]| == 7 && |Keywords["Cardiology"]| == 5 &&
            |Keywords["Pediatrics"]| == 5 && |Keywords["Dermatology"]| == 6 && |Keywords["Orthopedics"]| == 6
    ensures forall sp :: sp in Keywords ==> 5 <= |Keywords[sp]| <= 7
  {
  }
}
