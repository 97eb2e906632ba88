/** The read-only `/doctors` routes of the Express back end: the directory with
    optional specialty and name filters, and lookup by id. Neither stores a queue
    length: each listed doctor's `queueLength` is counted from the queue table. */
module DoctorsRoute {
  import opened Wrappers
  import opened Text
  import opened Seqs
  import opened Types
  import opened Store

  /** A directory row: the joined doctor and its live waiting count. */
  datatype DoctorListing = DoctorListing(profile: DoctorProfile, queueLength: nat)

  /** `(SELECT COUNT(*) FROM queue q WHERE q.doctor_id = d.id AND q.status = 'waiting')`. */
  function WaitingRows(queue: seq<QueueRow>, doctorId: int): (n: nat)
    ensures n <= |queue|
    decreases |queue|
  {
    if queue == [] then 0
    else (if IsWaitingRowFor(queue[0], doctorId) then 1 else 0) + WaitingRows(queue[1..], doctorId)
  }

  /** The count is the number of the doctor's waiting rows. */
  lemma {:induction false} WaitingRowsCounts(queue: seq<QueueRow>, doctorId: int)
    ensures WaitingRows(queue, doctorId) == |Filter(queue, WaitingRowFor(doctorId))|
    decreases |queue|
  {
    if queue != [] {
      WaitingRowsCounts(queue[1..], doctorId);
    }
  }

  /** `LIKE '%text%'` under a case-insensitive collation, with the filter taken as
      plain text. */
  predicate Like(column: string, text: string) {
    Contains(Lower(column), Lower(text))
  }

  /** Whether an optional query-string filter is set: present and non-empty. */
  predicate IsSet(filter: Option<string>) {
    filter.Some? && filter.value != ""
  }

  predicate PassesFilters(p: DoctorProfile, specialty: Option<string>, name: Option<string>) {
    (IsSet(specialty) ==> Like(p.specialty, specialty.value)) &&
    (IsSet(name) ==> Like(p.name, name.value))
  }

  function Listing(queue: seq<QueueRow>): DoctorProfile -> DoctorListing {
    (p: DoctorProfile) => DoctorListing(p, WaitingRows(queue, p.id))
  }

  /** The joined doctors passing both filters, each with its count. */
  function ListRows(profiles: seq<DoctorProfile>, queue: seq<QueueRow>, specialty: Option<string>, name: Option<string>): (r: seq<DoctorListing>)
    ensures |r| <= |profiles|
    decreases |profiles|
  {
    if profiles == [] then []
    else
      var rest := ListRows(profiles[1..], queue, specialty, name);
      if PassesFilters(profiles[0], specialty, name) then [Listing(queue)(profiles[0])] + rest else rest
  }

  /** GET `/doctors?specialty=…&name=…`. */
  function ListDoctors(doctors: seq<DoctorRow>, users: seq<UserRow>, queue: seq<QueueRow>,
                       specialty: Option<string>, name: Option<string>): seq<DoctorListing>
  {
    ListRows(JoinUsers(doctors, users), queue, specialty, name)
  }

  /** GET `/doctors/:id`: the first joined doctor with that id, or a 404. */
  function GetDoctor(doctors: seq<DoctorRow>, users: seq<UserRow>, queue: seq<QueueRow>, id: int): (r: Response<DoctorListing>)
    ensures r.Error? <==> forall p :: p in JoinUsers(doctors, users) ==> p.id != id
    ensures r.Error? ==> r == Error(404, "Not found")
    ensures r.Ok? ==> r.data.profile in JoinUsers(doctors, users) && r.data.profile.id == id &&
                      r.data.queueLength == |Filter(queue, WaitingRowFor(id))|
  {
    var profiles := JoinUsers(doctors, users);
    match FindIndex(profiles, ProfileHasId(id))
    case None => Error(404, "Not found")
    case Some(i) =>
      WaitingRowsCounts(queue, id);
      Ok(Listing(queue)(profiles[i]))
  }

  // ---------------------------------------------------------------------------
  // Properties

  /** Each listed doctor is a joined doctor that passes both filters, with a count equal
      to its waiting rows; every joined doctor passing both filters is listed. */
  lemma {:induction false} ListRowsSpec(profiles: seq<DoctorProfile>, queue: seq<QueueRow>, specialty: Option<string>, name: Option<string>, l: DoctorListing)
    ensures l in ListRows(profiles, queue, specialty, name) <==>
              l.profile in profiles && PassesFilters(l.profile, specialty, name) &&
              l.queueLength == |Filter(queue, WaitingRowFor(l.profile.id))|
    decreases |profiles|
  {
    WaitingRowsCounts(queue, l.profile.id);
    if profiles != [] {
      ListRowsSpec(profiles[1..], queue, specialty, name, l);
      assert profiles == [profiles[0]] + profiles[1..];
    }
  }

  /** GET `/doctors` lists a row exactly for each doctor whose user exists and whose
      joined profile passes both set filters, with that doctor's waiting count. */
  lemma ListDoctorsSpec(doctors: seq<DoctorRow>, users: seq<UserRow>, queue: seq<QueueRow>,
                        specialty: Option<string>, name: Option<string>, l: DoctorListing)
    ensures l in ListDoctors(doctors, users, queue, specialty, name) <==>
              (exists d :: d in doctors && UserName(users, d.userId) == Some(l.profile.name) &&
                           l.profile == DoctorProfile(d.id, d.userId, l.profile.name, d.specialty)) &&
              PassesFilters(l.profile, specialty, name) &&
              l.queueLength == |Filter(queue, WaitingRowFor(l.profile.id))|
  {
    ListRowsSpec(JoinUsers(doctors, users), queue, specialty, name, l);
    JoinUsersSpec(doctors, users, l.profile);
  }

  /** With neither filter set, every joined doctor is listed, in order. */
  lemma {:induction false} NoFiltersListsAll(profiles: seq<DoctorProfile>, queue: seq<QueueRow>, specialty: Option<string>, name: Option<string>)
    requires !IsSet(specialty) && !IsSet(name)
    ensures |ListRows(profiles, queue, specialty, name)| == |profiles|
    ensures forall i :: 0 <= i < |profiles| ==> ListRows(profiles, queue, specialty, name)[i].profile == profiles[i]
    decreases |profiles|
  {
    if profiles != [] {
      NoFiltersListsAll(profiles[1..], queue, specialty, name);
    }
  }

  /** The filters compose: setting both lists exactly the doctors each one alone keeps. */
  lemma FiltersAreConjunctive(profiles: seq<DoctorProfile>, queue: seq<QueueRow>, specialty: string, name: string, l: DoctorListing)
    ensures l in ListRows(profiles, queue, Some(specialty), Some(name)) <==>
              l in ListRows(profiles, queue, Some(specialty), None) && l in ListRows(profiles, queue, None, Some(name))
  {
    ListRowsSpec(profiles, queue, Some(specialty), Some(name), l);
    ListRowsSpec(profiles, queue, Some(specialty), None, l);
    ListRowsSpec(profiles, queue, None, Some(name), l);
  }
}
