/** The client's constant data: the specialty-to-keyword table that drives
    recommendations, and the initially empty entity lists. */
module MockData {
  import opened Types
  import opened Text

  const GeneralPracticeKeywords: seq<string> :=
    ["fever", "cold", "flu", "cough", "headache", "fatigue", "checkup", "vaccination", "general"]
  const CardiologyKeywords: seq<string> :=
    ["heart", "chest pain", "palpitations", "blood pressure", "hypertension", "cardiac", "breathing"]
  const PediatricsKeywords: seq<string> :=
    ["child", "baby", "infant", "toddler", "kids", "childhood", "growth", "development"]
  const DermatologyKeywords: seq<string> :=
    ["skin", "rash", "acne", "eczema", "psoriasis", "mole", "hair loss", "itching"]
  const OrthopedicsKeywords: seq<string> :=
    ["bone", "joint", "muscle", "back pain", "knee", "shoulder", "fracture", "arthritis", "sports injury"]

  /** `specialtyKeywords`: the symptom keywords of each specialty. */
  const SpecialtyKeywords: map<string, seq<string>> := map[
    "General Practice" := GeneralPracticeKeywords,
    "Cardiology" := CardiologyKeywords,
    "Pediatrics" := PediatricsKeywords,
    "Dermatology" := DermatologyKeywords,
    "Orthopedics" := OrthopedicsKeywords
  ]

  const InitialDoctors: seq<Doctor> := []
  const InitialAppointments: seq<Appointment> := []
  const InitialQueueEntries: seq<QueueEntry> := []

  lemma TableSpecialties()
    ensures SpecialtyKeywords.Keys == {"General Practice", "Cardiology", "Pediatrics", "Dermatology", "Orthopedics"}
    ensures |SpecialtyKeywords.Keys| == 5
  {
  }

  lemma KeywordListSizes()
    ensures |SpecialtyKeywords["General Practice"]| == 9
    ensures |SpecialtyKeywords["Cardiology"]| == 7
    ensures |SpecialtyKeywords["Pediatrics"]| == 8
    ensures |SpecialtyKeywords["Dermatology"]| == 8
    ensures |SpecialtyKeywords["Orthopedics"]| == 9
    ensures forall sp :: sp in SpecialtyKeywords ==> 1 <= |SpecialtyKeywords[sp]| <= 9
  {
  }

  predicate AllLowerText(ks: seq<string>) {
    forall k :: k in ks ==> IsLowerText(k)
  }

  lemma GeneralPracticeLower() ensures AllLowerText(GeneralPracticeKeywords) {}
  lemma CardiologyLower() ensures AllLowerText(CardiologyKeywords) {}
  lemma PediatricsLower() ensures AllLowerText(PediatricsKeywords) {}
  lemma DermatologyLower() ensures AllLowerText(DermatologyKeywords) {}
  lemma OrthopedicsLower() ensures AllLowerText(OrthopedicsKeywords) {}

  /** No keyword has a capital letter, so lower-casing the query never stops a keyword
      from matching. */
  lemma KeywordsAreLowerCase()
    ensures forall sp, k :: sp in SpecialtyKeywords && k in SpecialtyKeywords[sp] ==> Lower(k) == k
  {
    GeneralPracticeLower();
    CardiologyLower();
    PediatricsLower();
    DermatologyLower();
    OrthopedicsLower();
    forall sp, k | sp in SpecialtyKeywords && k in SpecialtyKeywords[sp] ensures Lower(k) == k {
      assert AllLowerText(SpecialtyKeywords[sp]);
      LowerOfLowerText(k);
    }
  }

  lemma CardiologyHasHeartAndChestPain()
    ensures "heart" in SpecialtyKeywords["Cardiology"] && "chest pain" in SpecialtyKeywords["Cardiology"]
  {
  }

  lemma InitialListsEmpty()
    ensures |InitialDoctors| == 0 && |InitialAppointments| == 0 && |InitialQueueEntries| == 0
  {
  }
}
