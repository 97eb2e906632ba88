/** The client service layer's mock back end: the doctor roster, the appointment list
    and the walk-in queue are shared mutable lists, and the queue operations keep each
    doctor's `queueLength` counter in step with the queue. Ids and clock readings
    (`Date.now()`, `new Date().toISOString()`) are parameters. */
module MockApi {
  import opened Wrappers
  import opened Text
  import opened Seqs
  import opened StableSort
  import opened Types
  import opened MockData

  /** The patient every mock operation acts for. */
  const CurrentUserId: int := 1
  const CurrentUserName: string := "Current User"

  // ---------------------------------------------------------------------------
  // Lookups (`find` / `findIndex` by id)

  function DoctorHasId(id: int): Doctor -> bool {
    (d: Doctor) => d.id == id
  }

  function EntryHasId(id: int): QueueEntry -> bool {
    (e: QueueEntry) => e.id == id
  }

  function AppointmentHasId(id: int): Appointment -> bool {
    (a: Appointment) => a.id == id
  }

  function DoctorIndex(doctors: seq<Doctor>, id: int): Option<nat> {
    FindIndex(doctors, DoctorHasId(id))
  }

  function EntryIndex(entries: seq<QueueEntry>, id: int): Option<nat> {
    FindIndex(entries, EntryHasId(id))
  }

  function AppointmentIndex(appointments: seq<Appointment>, id: int): Option<nat> {
    FindIndex(appointments, AppointmentHasId(id))
  }

  /** With unique ids, the lookup finds exactly the element carrying the id. */
  lemma IndexOfDistinct<T>(s: seq<T>, key: T -> int, p: T -> bool, j: nat)
    requires DistinctBy(s, key) && j < |s|
    requires forall x :: p(x) == (key(x) == key(s[j]))
    ensures FindIndex(s, p) == Some(j)
  {
  }

  // ---------------------------------------------------------------------------
  // Doctors

  /** `getDoctors(specialty?, name?)`: an absent or empty filter is skipped; a present
      one keeps doctors whose lower-cased field contains the lower-cased filter. */
  function GetDoctors(doctors: seq<Doctor>, specialty: Option<string>, name: Option<string>): seq<Doctor> {
    var bySpecialty := if specialty.Some? && specialty.value != "" then Filter(doctors, SpecialtyContains(specialty.value)) else doctors;
    if name.Some? && name.value != "" then Filter(bySpecialty, NameContains(name.value)) else bySpecialty
  }

  function SpecialtyContains(filter: string): Doctor -> bool {
    (d: Doctor) => Contains(Lower(d.specialty), Lower(filter))
  }

  function NameContains(filter: string): Doctor -> bool {
    (d: Doctor) => Contains(Lower(d.name), Lower(filter))
  }

  /** A filter that is absent or empty (falsy) lets every doctor through. */
  predicate PassesDirectoryFilters(d: Doctor, specialty: Option<string>, name: Option<string>) {
    (specialty.Some? && specialty.value != "" ==> Contains(Lower(d.specialty), Lower(specialty.value))) &&
    (name.Some? && name.value != "" ==> Contains(Lower(d.name), Lower(name.value)))
  }

  /** The directory keeps exactly the doctors passing both filters, in roster order;
      with no filters it is the whole roster. */
  lemma GetDoctorsSpec(doctors: seq<Doctor>, specialty: Option<string>, name: Option<string>)
    ensures forall d :: d in GetDoctors(doctors, specialty, name) <==> d in doctors && PassesDirectoryFilters(d, specialty, name)
    ensures IsSubsequence(GetDoctors(doctors, specialty, name), doctors)
    ensures (specialty.None? || specialty == Some("")) && (name.None? || name == Some("")) ==>
              GetDoctors(doctors, specialty, name) == doctors
  {
    var bySpecialty := if specialty.Some? && specialty.value != "" then Filter(doctors, SpecialtyContains(specialty.value)) else doctors;
    forall d ensures d in GetDoctors(doctors, specialty, name) <==> d in doctors && PassesDirectoryFilters(d, specialty, name) {
      if specialty.Some? && specialty.value != "" {
        FilterMembership(doctors, SpecialtyContains(specialty.value), d);
      }
      if name.Some? && name.value != "" {
        FilterMembership(bySpecialty, NameContains(name.value), d);
      }
    }
    if specialty.Some? && specialty.value != "" {
      FilterIsSubsequence(doctors, SpecialtyContains(specialty.value));
    } else {
      SubsequenceReflexive(doctors);
    }
    if name.Some? && name.value != "" {
      FilterIsSubsequence(bySpecialty, NameContains(name.value));
      SubsequenceTransitive(Filter(bySpecialty, NameContains(name.value)), bySpecialty, doctors);
    }
  }

  /** `getDoctorById(id)`: the first doctor with that id, or "Doctor not found". */
  function GetDoctorById(doctors: seq<Doctor>, id: int): (r: Result<Doctor>)
    ensures r.Failure? <==> forall i :: 0 <= i < |doctors| ==> doctors[i].id != id
    ensures r.Failure? ==> r.error == "Doctor not found"
    ensures r.Success? ==> r.value in doctors && r.value.id == id
  {
    match DoctorIndex(doctors, id)
    case None => Failure("Doctor not found")
    case Some(i) => Success(doctors[i])
  }

  // ---------------------------------------------------------------------------
  // Queue

  predicate IsWaitingFor(e: QueueEntry, doctorId: int) {
    e.doctorId == doctorId && e.status == Waiting
  }

  function WaitingPred(doctorId: int): QueueEntry -> bool {
    (e: QueueEntry) => IsWaitingFor(e, doctorId)
  }

  /** `getQueue(doctorId)`: the doctor's waiting entries in stored order. */
  function GetQueue(entries: seq<QueueEntry>, doctorId: int): seq<QueueEntry> {
    Filter(entries, WaitingPred(doctorId))
  }

  /** The doctor's queue is exactly their waiting entries, in stored order. */
  lemma GetQueueSpec(entries: seq<QueueEntry>, doctorId: int)
    ensures forall e :: e in GetQueue(entries, doctorId) <==> e in entries && IsWaitingFor(e, doctorId)
    ensures forall i :: 0 <= i < |GetQueue(entries, doctorId)| ==> IsWaitingFor(GetQueue(entries, doctorId)[i], doctorId)
    ensures IsSubsequence(GetQueue(entries, doctorId), entries)
  {
    forall e ensures e in GetQueue(entries, doctorId) <==> e in entries && IsWaitingFor(e, doctorId) {
      FilterMembership(entries, WaitingPred(doctorId), e);
    }
    FilterIsSubsequence(entries, WaitingPred(doctorId));
  }

  /** The number of the doctor's waiting entries, which `queueLength` caches. */
  function WaitingCount(entries: seq<QueueEntry>, doctorId: int): nat {
    |GetQueue(entries, doctorId)|
  }

  function JoinedAtKey(e: QueueEntry): int {
    e.joinedAt
  }

  // ---------------------------------------------------------------------------
  // Appointments

  /** `getAppointments(doctorId?)`: a truthy doctor id (present and not 0) keeps that
      doctor's appointments; otherwise all of them. */
  function GetAppointments(appointments: seq<Appointment>, doctorId: Option<int>): seq<Appointment> {
    if doctorId.Some? && doctorId.value != 0 then Filter(appointments, ForDoctor(doctorId.value)) else appointments
  }

  function ForDoctor(doctorId: int): Appointment -> bool {
    (a: Appointment) => a.doctorId == doctorId
  }

  /** A truthy doctor id keeps exactly that doctor's appointments, in stored order;
      an absent or zero id keeps all of them. */
  lemma GetAppointmentsSpec(appointments: seq<Appointment>, doctorId: Option<int>)
    ensures doctorId.None? || doctorId == Some(0) ==> GetAppointments(appointments, doctorId) == appointments
    ensures doctorId.Some? && doctorId.value != 0 ==>
              forall a :: a in GetAppointments(appointments, doctorId) <==> a in appointments && a.doctorId == doctorId.value
    ensures IsSubsequence(GetAppointments(appointments, doctorId), appointments)
  {
    if doctorId.Some? && doctorId.value != 0 {
      forall a ensures a in GetAppointments(appointments, doctorId) <==> a in appointments && a.doctorId == doctorId.value {
        FilterMembership(appointments, ForDoctor(doctorId.value), a);
      }
      FilterIsSubsequence(appointments, ForDoctor(doctorId.value));
    } else {
      SubsequenceReflexive(appointments);
    }
  }

  function SlotAt(time: int): Slot -> bool {
    (s: Slot) => s.time == time
  }

  /** Marks the first slot at `time` unavailable (whatever it was before); with no such
      slot nothing changes. Only that slot's availability changes. */
  function MarkSlotTaken(slots: seq<Slot>, time: int): (r: seq<Slot>)
    ensures |r| == |slots|
    ensures (forall i :: 0 <= i < |slots| ==> slots[i].time != time) ==> r == slots
    ensures forall j :: 0 <= j < |slots| && slots[j].time == time && (forall i :: 0 <= i < j ==> slots[i].time != time) ==>
              r[j] == Slot(slots[j].id, time, false) &&
              forall i :: 0 <= i < |slots| && i != j ==> r[i] == slots[i]
  {
    match FindIndex(slots, SlotAt(time))
    case None => slots
    case Some(j) => slots[j := slots[j].(available := false)]
  }

  // ---------------------------------------------------------------------------
  // The queue counters

  /** Every doctor's `queueLength` equals the number of their waiting entries. */
  ghost predicate CountersMatch(doctors: seq<Doctor>, entries: seq<QueueEntry>) {
    forall i :: 0 <= i < |doctors| ==> doctors[i].queueLength == WaitingCount(entries, doctors[i].id)
  }

  /** The roster after an invitation: the doctor's counter drops by one, but only when
      it is positive. */
  function AfterInvite(doctors: seq<Doctor>, doctorId: int): seq<Doctor> {
    match DoctorIndex(doctors, doctorId)
    case None => doctors
    case Some(i) =>
      if doctors[i].queueLength > 0
      then doctors[i := doctors[i].(queueLength := doctors[i].queueLength - 1)]
      else doctors
  }

  /** Joining adds one waiting entry and one to that doctor's counter: if the counters
      matched before, they match after. */
  lemma JoinKeepsCountersMatched(doctors: seq<Doctor>, entries: seq<QueueEntry>, i: nat, e: QueueEntry)
    requires DistinctBy(doctors, DoctorKey) && i < |doctors|
    requires IsWaitingFor(e, doctors[i].id)
    requires CountersMatch(doctors, entries)
    ensures CountersMatch(doctors[i := doctors[i].(queueLength := doctors[i].queueLength + 1)], entries + [e])
  {
    forall t | 0 <= t < |doctors| ensures WaitingCount(entries + [e], doctors[t].id) ==
        WaitingCount(entries, doctors[t].id) + (if t == i then 1 else 0) {
      FilterAppendOne(entries, e, WaitingPred(doctors[t].id));
    }
  }

  /** Inviting a waiting entry removes one waiting entry of that doctor and the counter
      follows it down; the counter was positive, so the floor at zero never bites. */
  lemma InviteKeepsCountersMatched(doctors: seq<Doctor>, entries: seq<QueueEntry>, k: nat, doctorId: int)
    requires DistinctBy(doctors, DoctorKey) && k < |entries|
    requires IsWaitingFor(entries[k], doctorId)
    requires CountersMatch(doctors, entries)
    ensures CountersMatch(AfterInvite(doctors, doctorId), entries[k := entries[k].(status := Invited)])
  {
    var entries' := entries[k := entries[k].(status := Invited)];
    forall t | 0 <= t < |doctors| ensures WaitingCount(entries', doctors[t].id) ==
        WaitingCount(entries, doctors[t].id) - (if doctors[t].id == doctorId then 1 else 0) {
      FilterUpdateLength(entries, k, entries[k].(status := Invited), WaitingPred(doctors[t].id));
    }
    match DoctorIndex(doctors, doctorId)
    case None =>
    case Some(i) =>
      FilterMembership(entries, WaitingPred(doctorId), entries[k]);
      assert doctors[i].queueLength > 0;
  }

  lemma AfterInviteValid(doctors: seq<Doctor>, doctorId: int)
    requires DistinctBy(doctors, DoctorKey)
    requires forall i :: 0 <= i < |doctors| ==> doctors[i].queueLength >= 0
    ensures DistinctBy(AfterInvite(doctors, doctorId), DoctorKey)
    ensures forall i :: 0 <= i < |AfterInvite(doctors, doctorId)| ==> AfterInvite(doctors, doctorId)[i].queueLength >= 0
  {
    match DoctorIndex(doctors, doctorId)
    case None =>
    case Some(i) =>
      if doctors[i].queueLength > 0 {
        DistinctAfterUpdate(doctors, DoctorKey, i, doctors[i].(queueLength := doctors[i].queueLength - 1));
      }
  }

  /** The entry to invite next: among the doctor's waiting entries, the first with the
      smallest join time. */
  function NextToInvite(entries: seq<QueueEntry>, doctorId: int): QueueEntry
    requires GetQueue(entries, doctorId) != []
  {
    var waiting := GetQueue(entries, doctorId);
    waiting[FirstMinIndex(waiting, JoinedAtKey)]
  }

  /** The queue after an invitation: the chosen entry, found by id, becomes `invited`. */
  function AfterInviteEntries(entries: seq<QueueEntry>, doctorId: int): seq<QueueEntry>
    requires GetQueue(entries, doctorId) != []
  {
    match EntryIndex(entries, NextToInvite(entries, doctorId).id)
    case None => entries
    case Some(k) => entries[k := entries[k].(status := Invited)]
  }

  /** The entry `inviteNextPatient` picks by sorting the waiting list is
      `NextToInvite`, and it sits at the index `findIndex` finds for its id. */
  lemma InviteSelection(entries: seq<QueueEntry>, doctorId: int)
    requires DistinctBy(entries, EntryKey)
    requires GetQueue(entries, doctorId) != []
    ensures var next := NextToInvite(entries, doctorId);
            SortBy(GetQueue(entries, doctorId), JoinedAtKey)[0] == next &&
            EntryIndex(entries, next.id).Some? &&
            entries[EntryIndex(entries, next.id).value] == next
  {
    var waiting := GetQueue(entries, doctorId);
    SortByHead(waiting, JoinedAtKey);
    var next := waiting[FirstMinIndex(waiting, JoinedAtKey)];
    FilterMembership(entries, WaitingPred(doctorId), next);
    var j :| 0 <= j < |entries| && entries[j] == next;
    IndexOfDistinct(entries, EntryKey, EntryHasId(next.id), j);
  }

  /** FIFO: the invited entry is a waiting entry of that doctor that joined no later
      than any other, and any waiting entry listed before it joined strictly later
      (ties go to the entry stored first); the invitation changes that entry's status
      and nothing else in the queue. */
  lemma NextToInviteIsEarliest(entries: seq<QueueEntry>, doctorId: int)
    requires DistinctBy(entries, EntryKey)
    requires GetQueue(entries, doctorId) != []
    ensures var next := NextToInvite(entries, doctorId);
            IsWaitingFor(next, doctorId) &&
            (forall e :: e in entries && IsWaitingFor(e, doctorId) ==> next.joinedAt <= e.joinedAt)
    ensures var waiting := GetQueue(entries, doctorId);
            forall j :: 0 <= j < |waiting| && waiting[j] != NextToInvite(entries, doctorId) &&
                        waiting[j].joinedAt == NextToInvite(entries, doctorId).joinedAt ==>
                          j > FirstMinIndex(waiting, JoinedAtKey)
    ensures exists k :: 0 <= k < |entries| && entries[k] == NextToInvite(entries, doctorId) &&
              AfterInviteEntries(entries, doctorId) == entries[k := entries[k].(status := Invited)]
  {
    var waiting := GetQueue(entries, doctorId);
    var n := FirstMinIndex(waiting, JoinedAtKey);
    var next := waiting[n];
    InviteSelection(entries, doctorId);
    FilterMembership(entries, WaitingPred(doctorId), next);
    forall e | e in entries && IsWaitingFor(e, doctorId) ensures next.joinedAt <= e.joinedAt {
      FilterMembership(entries, WaitingPred(doctorId), e);
      var i :| 0 <= i < |waiting| && waiting[i] == e;
    }
    var k := EntryIndex(entries, next.id).value;
    assert entries[k] == next;
  }

  /** What one invitation needs: the entry the sort picks is `NextToInvite`, the
      update keeps ids unique and counters non-negative, and matched counters stay
      matched. */
  lemma InviteStep(doctors: seq<Doctor>, entries: seq<QueueEntry>, doctorId: int)
    requires DistinctBy(doctors, DoctorKey) && DistinctBy(entries, EntryKey)
    requires forall i :: 0 <= i < |doctors| ==> doctors[i].queueLength >= 0
    requires GetQueue(entries, doctorId) != []
    ensures var next := NextToInvite(entries, doctorId);
            SortBy(GetQueue(entries, doctorId), JoinedAtKey)[0] == next &&
            EntryIndex(entries, next.id).Some? &&
            entries[EntryIndex(entries, next.id).value] == next
    ensures DistinctBy(AfterInviteEntries(entries, doctorId), EntryKey)
    ensures DistinctBy(AfterInvite(doctors, doctorId), DoctorKey)
    ensures forall i :: 0 <= i < |AfterInvite(doctors, doctorId)| ==> AfterInvite(doctors, doctorId)[i].queueLength >= 0
    ensures CountersMatch(doctors, entries) ==>
              CountersMatch(AfterInvite(doctors, doctorId), AfterInviteEntries(entries, doctorId))
  {
    InviteSelection(entries, doctorId);
    var next := NextToInvite(entries, doctorId);
    var k := EntryIndex(entries, next.id).value;
    assert AfterInviteEntries(entries, doctorId) == entries[k := entries[k].(status := Invited)];
    DistinctAfterUpdate(entries, EntryKey, k, entries[k].(status := Invited));
    AfterInviteValid(doctors, doctorId);
    GetQueueSpec(entries, doctorId);
    if CountersMatch(doctors, entries) {
      InviteKeepsCountersMatched(doctors, entries, k, doctorId);
    }
  }

  // ---------------------------------------------------------------------------
  // The shared state

  class MockStore {
    var doctors: seq<Doctor>
    var appointments: seq<Appointment>
    var queueEntries: seq<QueueEntry>

    /** Ids are unique in every list and no counter is negative. */
    ghost predicate Valid()
      reads this
    {
      DistinctBy(doctors, DoctorKey) && DistinctBy(queueEntries, EntryKey) &&
      DistinctBy(appointments, AppointmentKey) &&
      forall i :: 0 <= i < |doctors| ==> doctors[i].queueLength >= 0
    }

    /** Every doctor's counter equals the number of their waiting entries. */
    ghost predicate CountersConsistent()
      reads this
    {
      CountersMatch(doctors, queueEntries)
    }

    /** The lists as mockData.ts declares them (empty), with a provisioned roster. */
    constructor (roster: seq<Doctor>)
      requires DistinctBy(roster, DoctorKey)
      requires forall i :: 0 <= i < |roster| ==> roster[i].queueLength >= 0
      ensures Valid()
      ensures doctors == roster && appointments == InitialAppointments && queueEntries == InitialQueueEntries
      ensures CountersConsistent() <==> forall i :: 0 <= i < |roster| ==> roster[i].queueLength == 0
    {
      doctors := roster;
      appointments := InitialAppointments;
      queueEntries := InitialQueueEntries;
    }

    /** `joinQueue(doctorId)`. */
    method JoinQueue(doctorId: int, id: int, now: int) returns (r: Result<QueueEntry>)
      requires Valid()
      requires forall i :: 0 <= i < |queueEntries| ==> queueEntries[i].id != id
      modifies this
      ensures Valid()
      ensures appointments == old(appointments)
      ensures DoctorIndex(old(doctors), doctorId).None? ==>
                r == Failure("Doctor not found") && doctors == old(doctors) && queueEntries == old(queueEntries)
      ensures DoctorIndex(old(doctors), doctorId).Some? ==>
                var i := DoctorIndex(old(doctors), doctorId).value;
                var d := old(doctors)[i];
                var e := QueueEntry(id, CurrentUserId, CurrentUserName, doctorId, d.name, now, Waiting, d.queueLength + 1);
                r == Success(e) &&
                queueEntries == old(queueEntries) + [e] &&
                doctors == old(doctors)[i := d.(queueLength := d.queueLength + 1)]
      ensures old(CountersConsistent()) ==> CountersConsistent()
    {
      var found := DoctorIndex(doctors, doctorId);
      if found.None? {
        return Failure("Doctor not found");
      }
      var i := found.value;
      var doctor := doctors[i];
      var newEntry := QueueEntry(id, CurrentUserId, CurrentUserName, doctorId, doctor.name, now, Waiting, doctor.queueLength + 1);
      if CountersConsistent() {
        JoinKeepsCountersMatched(doctors, queueEntries, i, newEntry);
      }
      doctors := doctors[i := doctor.(queueLength := doctor.queueLength + 1)];
      queueEntries := queueEntries + [newEntry];
      r := Success(newEntry);
    }

    /** `inviteNextPatient(doctorId)`: the earliest-joined waiting entry of the doctor
        (the first such in the list on a tie) becomes `invited`, and the counter drops
        by one when positive. */
    method InviteNextPatient(doctorId: int) returns (r: Result<Option<QueueEntry>>)
      requires Valid()
      modifies this
      ensures Valid()
      ensures r.Success? && appointments == old(appointments)
      ensures GetQueue(old(queueEntries), doctorId) == [] ==>
                r == Success(None) && doctors == old(doctors) && queueEntries == old(queueEntries)
      ensures GetQueue(old(queueEntries), doctorId) != [] ==>
                var next := NextToInvite(old(queueEntries), doctorId);
                r == Success(Some(next.(status := Invited))) &&
                queueEntries == AfterInviteEntries(old(queueEntries), doctorId) &&
                doctors == AfterInvite(old(doctors), doctorId)
      ensures old(CountersConsistent()) ==> CountersConsistent()
    {
      var waitingEntries := GetQueue(queueEntries, doctorId);
      if |waitingEntries| == 0 {
        return Success(None);
      }
      InviteStep(doctors, queueEntries, doctorId);
      var nextPatient := SortBy(waitingEntries, JoinedAtKey)[0];
      var invited := nextPatient;
      var entryIndex := EntryIndex(queueEntries, nextPatient.id);
      if entryIndex.Some? {
        var k := entryIndex.value;
        queueEntries := queueEntries[k := queueEntries[k].(status := Invited)];
        invited := queueEntries[k];
      }
      var found := DoctorIndex(doctors, doctorId);
      if found.Some? && doctors[found.value].queueLength > 0 {
        var i := found.value;
        doctors := doctors[i := doctors[i].(queueLength := doctors[i].queueLength - 1)];
      }
      r := Success(Some(invited));
    }

    /** `createAppointment(doctorId, appointmentTime)`: records a scheduled appointment
        and marks the first slot at that time unavailable, without checking that the
        slot exists or was free. */
    method CreateAppointment(doctorId: int, appointmentTime: int, id: int, createdAt: int) returns (r: Result<Appointment>)
      requires Valid()
      requires forall i :: 0 <= i < |appointments| ==> appointments[i].id != id
      modifies this
      ensures Valid()
      ensures queueEntries == old(queueEntries)
      ensures DoctorIndex(old(doctors), doctorId).None? ==>
                r == Failure("Doctor not found") && doctors == old(doctors) && appointments == old(appointments)
      ensures DoctorIndex(old(doctors), doctorId).Some? ==>
                var i := DoctorIndex(old(doctors), doctorId).value;
                var d := old(doctors)[i];
                var a := Appointment(id, CurrentUserId, CurrentUserName, doctorId, d.name, appointmentTime, Scheduled, createdAt);
                r == Success(a) &&
                appointments == old(appointments) + [a] &&
                doctors == old(doctors)[i := d.(availableSlots := MarkSlotTaken(d.availableSlots, appointmentTime))]
      ensures old(CountersConsistent()) ==> CountersConsistent()
    {
      var found := DoctorIndex(doctors, doctorId);
      if found.None? {
        return Failure("Doctor not found");
      }
      var i := found.value;
      var doctor := doctors[i];
      var newAppointment := Appointment(id, CurrentUserId, CurrentUserName, doctorId, doctor.name, appointmentTime, Scheduled, createdAt);
      appointments := appointments + [newAppointment];
      var slots := doctor.availableSlots;
      var slotIndex := FindIndex(slots, SlotAt(appointmentTime));
      if slotIndex.Some? {
        slots := slots[slotIndex.value := slots[slotIndex.value].(available := false)];
      }
      doctors := doctors[i := doctor.(availableSlots := slots)];
      r := Success(newAppointment);
    }

    /** `updateAppointment(id, status)`: overwrites the status of the appointment with
        that id, whatever it was. */
    method UpdateAppointment(id: int, status: AppointmentStatus) returns (r: Result<Appointment>)
      requires Valid()
      modifies this
      ensures Valid()
      ensures doctors == old(doctors) && queueEntries == old(queueEntries)
      ensures AppointmentIndex(old(appointments), id).None? ==>
                r == Failure("Appointment not found") && appointments == old(appointments)
      ensures AppointmentIndex(old(appointments), id).Some? ==>
                var i := AppointmentIndex(old(appointments), id).value;
                appointments == old(appointments)[i := old(appointments)[i].(status := status)] &&
                r == Success(appointments[i])
      ensures old(CountersConsistent()) ==> CountersConsistent()
    {
      var index := AppointmentIndex(appointments, id);
      if index.None? {
        return Failure("Appointment not found");
      }
      appointments := appointments[index.value := appointments[index.value].(status := status)];
      r := Success(appointments[index.value]);
    }
  }
}
