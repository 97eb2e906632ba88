/** The `/appointments` routes of the Express back end, all behind the auth middleware
    (the authenticated user's id is a parameter): booking inserts one row for the
    caller, listing returns the caller's own appointments, and a status update is
    checked in a fixed order — the status value (400), then the appointment's
    existence (404), then ownership (403) — before it overwrites the status. */
module AppointmentsRoute {
  import opened Wrappers
  import opened Seqs
  import opened Types
  import opened Store

  /** `VALID_STATUSES`, in the source's order. */
  const ValidStatuses: seq<string> := ["scheduled", "in-progress", "completed", "cancelled"]

  /** Reads a status sent by the client: one of the four valid spellings, or nothing. */
  function ParseStatus(s: string): (r: Option<AppointmentStatus>)
    ensures r.Some? <==> s in ValidStatuses
    ensures r.Some? ==> AppointmentStatusName(r.value) == s
  {
    if s == "scheduled" then Some(Scheduled)
    else if s == "in-progress" then Some(InProgress)
    else if s == "completed" then Some(AppointmentStatus.Completed)
    else if s == "cancelled" then Some(AppointmentStatus.Cancelled)
    else None
  }

  /** Every status is accepted in its own spelling, and the four spellings differ. */
  lemma ParseStatusRoundTrip(st: AppointmentStatus)
    ensures ParseStatus(AppointmentStatusName(st)) == Some(st)
    ensures AppointmentStatusName(st) in ValidStatuses
    ensures |ValidStatuses| == 4
    ensures forall i, j :: 0 <= i < j < |ValidStatuses| ==> ValidStatuses[i] != ValidStatuses[j]
  {
  }

  // ---------------------------------------------------------------------------
  // Booking

  /** POST `/appointments`: a missing or falsy `doctorId` or `appointmentTime` is a 400
      and nothing is written; otherwise one `scheduled` row (the column default) is
      inserted for the caller and its new id returned. Neither the doctor nor the time
      is checked. */
  method Create(db: Database, user: int, doctorId: Option<int>, appointmentTime: Option<string>) returns (r: Response<int>)
    requires db.Valid()
    modifies db
    ensures db.Valid()
    ensures db.users == old(db.users) && db.doctors == old(db.doctors)
    ensures db.queue == old(db.queue) && db.nextQueueId == old(db.nextQueueId)
    ensures doctorId.None? || doctorId == Some(0) || appointmentTime.None? || appointmentTime == Some("") ==>
              r == Error(400, "doctorId and appointmentTime are required") &&
              db.appointments == old(db.appointments) && db.nextAppointmentId == old(db.nextAppointmentId)
    ensures doctorId.Some? && doctorId.value != 0 && appointmentTime.Some? && appointmentTime.value != "" ==>
              r == Ok(old(db.nextAppointmentId)) &&
              db.appointments == old(db.appointments) +
                [AppointmentRow(old(db.nextAppointmentId), user, doctorId.value, appointmentTime.value, Scheduled)] &&
              db.nextAppointmentId == old(db.nextAppointmentId) + 1
  {
    if doctorId.None? || doctorId.value == 0 || appointmentTime.None? || appointmentTime.value == "" {
      return Error(400, "doctorId and appointmentTime are required");
    }
    var row := AppointmentRow(db.nextAppointmentId, user, doctorId.value, appointmentTime.value, Scheduled);
    InsertKeepsKeys(db.appointments, AppointmentRowKey, db.nextAppointmentId, row);
    db.appointments := db.appointments + [row];
    db.nextAppointmentId := db.nextAppointmentId + 1;
    r := Ok(row.id);
  }

  // ---------------------------------------------------------------------------
  // Listing

  /** A listed appointment with the patient's and the doctor's names. */
  datatype AppointmentView = AppointmentView(row: AppointmentRow, patientName: string, doctorName: string)

  /** The first doctor row with that id. */
  function DoctorRowOf(doctors: seq<DoctorRow>, id: int): (r: Option<DoctorRow>)
    ensures r.None? <==> forall i :: 0 <= i < |doctors| ==> doctors[i].id != id
    ensures r.Some? ==> r.value in doctors && r.value.id == id
  {
    match FindIndex(doctors, DoctorRowHasId(id))
    case None => None
    case Some(i) => Some(doctors[i])
  }

  /** The three inner joins of the listing query for one appointment: its patient's
      user, its doctor, and the doctor's user must all exist. */
  function ViewOf(a: AppointmentRow, doctors: seq<DoctorRow>, users: seq<UserRow>): Option<AppointmentView> {
    match UserName(users, a.patientId)
    case None => None
    case Some(patientName) =>
      match DoctorRowOf(doctors, a.doctorId)
      case None => None
      case Some(d) =>
        match UserName(users, d.userId)
        case None => None
        case Some(doctorName) => Some(AppointmentView(a, patientName, doctorName))
  }

  /** GET `/appointments`: the caller's appointments (`WHERE a.patient_id = ?`), in
      table order. */
  function ListOwn(appointments: seq<AppointmentRow>, doctors: seq<DoctorRow>, users: seq<UserRow>, user: int): (r: seq<AppointmentView>)
    ensures |r| <= |appointments|
    decreases |appointments|
  {
    if appointments == [] then []
    else
      var rest := ListOwn(appointments[1..], doctors, users, user);
      var a := appointments[0];
      if a.patientId != user then rest
      else match ViewOf(a, doctors, users)
        case None => rest
        case Some(v) => [v] + rest
  }

  /** Only the caller's own appointments are listed, and every one of them whose
      patient, doctor and doctor's user exist is. */
  lemma {:induction false} ListOwnSpec(appointments: seq<AppointmentRow>, doctors: seq<DoctorRow>, users: seq<UserRow>, user: int, v: AppointmentView)
    ensures v in ListOwn(appointments, doctors, users, user) <==>
              v.row in appointments && v.row.patientId == user && ViewOf(v.row, doctors, users) == Some(v)
    decreases |appointments|
  {
    if appointments != [] {
      ListOwnSpec(appointments[1..], doctors, users, user, v);
      assert appointments == [appointments[0]] + appointments[1..];
    }
  }

  /** Nobody sees another patient's appointment. */
  lemma ListOwnIsPrivate(appointments: seq<AppointmentRow>, doctors: seq<DoctorRow>, users: seq<UserRow>, user: int)
    ensures forall v :: v in ListOwn(appointments, doctors, users, user) ==> v.row.patientId == user && v.row in appointments
  {
    forall v | v in ListOwn(appointments, doctors, users, user) ensures v.row.patientId == user && v.row in appointments {
      ListOwnSpec(appointments, doctors, users, user, v);
    }
  }

  // ---------------------------------------------------------------------------
  // Status update

  function AppointmentRowHasId(id: int): AppointmentRow -> bool {
    (a: AppointmentRow) => a.id == id
  }

  /** `UPDATE appointments SET status = ? WHERE id = ?`: every row with the id gets
      the status. */
  function SetStatus(rows: seq<AppointmentRow>, id: int, status: AppointmentStatus): (r: seq<AppointmentRow>)
    ensures |r| == |rows|
    ensures forall i :: 0 <= i < |rows| && rows[i].id != id ==> r[i] == rows[i]
    ensures forall i :: 0 <= i < |rows| && rows[i].id == id ==> r[i] == rows[i].(status := status)
    decreases |rows|
  {
    if rows == [] then []
    else [if rows[0].id == id then rows[0].(status := status) else rows[0]] + SetStatus(rows[1..], id, status)
  }

  /** With unique ids the update touches the one row found by id and nothing else. */
  lemma SetStatusOneRow(rows: seq<AppointmentRow>, id: int, status: AppointmentStatus, k: nat)
    requires DistinctBy(rows, AppointmentRowKey) && k < |rows| && rows[k].id == id
    ensures SetStatus(rows, id, status) == rows[k := rows[k].(status := status)]
  {
  }

  /** The caller is the appointment's patient, or the user behind the first doctor
      row with the appointment's doctor id. */
  predicate MayModify(doctors: seq<DoctorRow>, user: int, a: AppointmentRow) {
    a.patientId == user || (DoctorRowOf(doctors, a.doctorId).Some? && DoctorRowOf(doctors, a.doctorId).value.userId == user)
  }

  /** PUT `/appointments/:id`. Any status value is accepted in place of the current
      one: there is no transition check. */
  method Update(db: Database, user: int, id: int, status: Option<string>) returns (r: Response<()>)
    requires db.Valid()
    modifies db
    ensures db.Valid()
    ensures db.users == old(db.users) && db.doctors == old(db.doctors) && db.queue == old(db.queue)
    ensures db.nextQueueId == old(db.nextQueueId) && db.nextAppointmentId == old(db.nextAppointmentId)
    ensures status.None? || ParseStatus(status.value).None? ==>
              r == Error(400, "Invalid status value") && db.appointments == old(db.appointments)
    ensures status.Some? && ParseStatus(status.value).Some? && FindIndex(old(db.appointments), AppointmentRowHasId(id)).None? ==>
              r == Error(404, "Appointment not found") && db.appointments == old(db.appointments)
    ensures status.Some? && ParseStatus(status.value).Some? && FindIndex(old(db.appointments), AppointmentRowHasId(id)).Some? ==>
              var k := FindIndex(old(db.appointments), AppointmentRowHasId(id)).value;
              var a := old(db.appointments)[k];
              (!MayModify(db.doctors, user, a) ==>
                 r == Error(403, "Unauthorized to modify this appointment") && db.appointments == old(db.appointments)) &&
              (MayModify(db.doctors, user, a) ==>
                 r == Ok(()) && db.appointments == old(db.appointments)[k := a.(status := ParseStatus(status.value).value)])
  {
    if status.None? || ParseStatus(status.value).None? {
      return Error(400, "Invalid status value");
    }
    var newStatus := ParseStatus(status.value).value;
    var found := FindIndex(db.appointments, AppointmentRowHasId(id));
    if found.None? {
      return Error(404, "Appointment not found");
    }
    var appointment := db.appointments[found.value];
    var isPatient := appointment.patientId == user;
    var doctor := DoctorRowOf(db.doctors, appointment.doctorId);
    var isDoctor := doctor.Some? && doctor.value.userId == user;
    if !isPatient && !isDoctor {
      return Error(403, "Unauthorized to modify this appointment");
    }
    SetStatusOneRow(db.appointments, id, newStatus, found.value);
    DistinctAfterUpdate(db.appointments, AppointmentRowKey, found.value, appointment.(status := newStatus));
    db.appointments := SetStatus(db.appointments, id, newStatus);
    r := Ok(());
  }
}
