/** The filtering of the doctors page: a free-text box that matches a doctor's name or
    specialty, and a specialty picker that must match exactly, both ignoring case.
    The page's state setters and loading flags are not part of this model. */
module DoctorsPage {
  import opened Wrappers
  import opened Text
  import opened Seqs
  import opened Types

  /** The two filter boxes. */
  datatype Filters = Filters(name: string, specialty: string)

  /** The initial state: the name box takes the `search` URL parameter when it has
      one, the specialty box starts empty. */
  function InitialFilters(search: Option<string>): (f: Filters)
    ensures f.specialty == ""
    ensures search.Some? ==> f.name == search.value
    ensures search.None? ==> f.name == ""
  {
    Filters(if search.Some? then search.value else "", "")
  }

  /** `handleClearFilters`. */
  function ClearFilters(): (f: Filters)
    ensures f.name == "" && f.specialty == ""
  {
    Filters("", "")
  }

  /** The name box matches the lower-cased name or the lower-cased specialty. */
  predicate NameOrSpecialtyContains(d: Doctor, text: string) {
    Contains(Lower(d.name), Lower(text)) || Contains(Lower(d.specialty), Lower(text))
  }

  /** The specialty picker matches the whole lower-cased specialty. */
  predicate SpecialtyEquals(d: Doctor, text: string) {
    Lower(d.specialty) == Lower(text)
  }

  function NameFilter(text: string): Doctor -> bool {
    (d: Doctor) => NameOrSpecialtyContains(d, text)
  }

  function SpecialtyFilter(text: string): Doctor -> bool {
    (d: Doctor) => SpecialtyEquals(d, text)
  }

  /** A doctor passes the filters that are set (non-empty). */
  predicate Passes(d: Doctor, f: Filters) {
    (f.name != "" ==> NameOrSpecialtyContains(d, f.name)) &&
    (f.specialty != "" ==> SpecialtyEquals(d, f.specialty))
  }

  /** The filter effect: the name filter, then the specialty filter, each only when set. */
  function ApplyFilters(doctors: seq<Doctor>, f: Filters): seq<Doctor> {
    var byName := if f.name != "" then Filter(doctors, NameFilter(f.name)) else doctors;
    if f.specialty != "" then Filter(byName, SpecialtyFilter(f.specialty)) else byName
  }

  // ---------------------------------------------------------------------------
  // Properties

  /** The shown doctors are exactly those passing both filters, in roster order. */
  lemma ApplyFiltersSpec(doctors: seq<Doctor>, f: Filters)
    ensures forall d :: d in ApplyFilters(doctors, f) <==> d in doctors && Passes(d, f)
    ensures IsSubsequence(ApplyFilters(doctors, f), doctors)
  {
    var byName := if f.name != "" then Filter(doctors, NameFilter(f.name)) else doctors;
    forall d ensures d in ApplyFilters(doctors, f) <==> d in doctors && Passes(d, f) {
      if f.name != "" {
        FilterMembership(doctors, NameFilter(f.name), d);
      }
      if f.specialty != "" {
        FilterMembership(byName, SpecialtyFilter(f.specialty), d);
      }
    }
    if f.name != "" {
      FilterIsSubsequence(doctors, NameFilter(f.name));
    } else {
      SubsequenceReflexive(doctors);
    }
    if f.specialty != "" {
      FilterIsSubsequence(byName, SpecialtyFilter(f.specialty));
      SubsequenceTransitive(Filter(byName, SpecialtyFilter(f.specialty)), byName, doctors);
    }
  }

  /** With both boxes empty — after clearing, or on a page opened without a search —
      every doctor is shown. */
  lemma NoFiltersShowsAll(doctors: seq<Doctor>)
    ensures ApplyFilters(doctors, ClearFilters()) == doctors
    ensures ApplyFilters(doctors, InitialFilters(None)) == doctors
    ensures ApplyFilters(doctors, InitialFilters(Some(""))) == doctors
  {
  }

  /** The name box also finds doctors by specialty: a specialty that contains the text
      shows the doctor whatever the name. */
  lemma NameBoxMatchesSpecialty(d: Doctor, text: string)
    requires Contains(d.specialty, text)
    ensures Passes(d, Filters(text, ""))
  {
    ContainsLower(d.specialty, text);
  }

  /** Picking a specialty is exact: a doctor whose specialty only contains the picked
      text, and is longer, is not shown. */
  lemma SpecialtyPickIsExact(d: Doctor, text: string)
    requires text != "" && |d.specialty| != |text|
    ensures !Passes(d, Filters("", text))
  {
    assert |Lower(d.specialty)| != |Lower(text)|;
  }
}
