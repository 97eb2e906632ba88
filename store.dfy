/** The relational store behind the Express routes, as an in-memory database: each
    table is a sequence of rows in storage order, and every insert draws its id from
    the table's auto-increment counter. Only the columns the routes read or write are
    carried; clinics (joined only for display columns) are not part of this model. */
module Store {
  import opened Wrappers
  import opened Seqs
  import opened Types

  datatype UserRow = UserRow(id: int, name: string)

  datatype DoctorRow = DoctorRow(id: int, userId: int, specialty: string)

  /** A row of the `queue` table; `joined_at` and `status` take their column defaults
      (the insertion time and `waiting`) when a patient joins. */
  datatype QueueRow = QueueRow(id: int, patientId: int, doctorId: int, joinedAt: int, status: QueueStatus)

  /** A row of the `appointments` table; the time is kept as the text the client sent. */
  datatype AppointmentRow = AppointmentRow(id: int, patientId: int, doctorId: int, appointmentTime: string, status: AppointmentStatus)

  /** What a handler sends: a JSON body with `success: true`, or an HTTP error status
      with a message. */
  datatype Response<T> = Ok(data: T) | Error(code: int, message: string)

  /** A doctor row joined with its user row (`doctors d JOIN users u ON d.user_id = u.id`). */
  datatype DoctorProfile = DoctorProfile(id: int, userId: int, name: string, specialty: string)

  function UserKey(u: UserRow): int { u.id }
  function DoctorRowKey(d: DoctorRow): int { d.id }
  function QueueRowKey(q: QueueRow): int { q.id }
  function AppointmentRowKey(a: AppointmentRow): int { a.id }

  predicate IsWaitingRowFor(q: QueueRow, doctorId: int) {
    q.doctorId == doctorId && q.status == Waiting
  }

  /** The rows of `WHERE q.doctor_id = ? AND q.status = 'waiting'`. */
  function WaitingRowFor(doctorId: int): QueueRow -> bool {
    (q: QueueRow) => IsWaitingRowFor(q, doctorId)
  }

  function ProfileHasId(id: int): DoctorProfile -> bool {
    (p: DoctorProfile) => p.id == id
  }

  function UserHasId(id: int): UserRow -> bool {
    (u: UserRow) => u.id == id
  }

  function DoctorRowHasId(id: int): DoctorRow -> bool {
    (d: DoctorRow) => d.id == id
  }

  /** The name of the user with that id, when there is one. */
  function UserName(users: seq<UserRow>, id: int): (r: Option<string>)
    ensures r.None? <==> forall i :: 0 <= i < |users| ==> users[i].id != id
    ensures r.Some? ==> exists i :: 0 <= i < |users| && users[i].id == id && users[i].name == r.value
  {
    match FindIndex(users, UserHasId(id))
    case None => None
    case Some(i) => Some(users[i].name)
  }

  /** The inner join of doctors with their users, in doctor-table order: a doctor
      whose user row is missing drops out. */
  function JoinUsers(doctors: seq<DoctorRow>, users: seq<UserRow>): (r: seq<DoctorProfile>)
    ensures |r| <= |doctors|
    decreases |doctors|
  {
    if doctors == [] then []
    else
      var d := doctors[0];
      match UserName(users, d.userId)
      case None => JoinUsers(doctors[1..], users)
      case Some(name) => [DoctorProfile(d.id, d.userId, name, d.specialty)] + JoinUsers(doctors[1..], users)
  }

  /** Every doctor with a user row appears, named after that user, and nothing else does. */
  lemma {:induction false} JoinUsersSpec(doctors: seq<DoctorRow>, users: seq<UserRow>, p: DoctorProfile)
    ensures p in JoinUsers(doctors, users) <==>
              exists d :: d in doctors && UserName(users, d.userId) == Some(p.name) &&
                          p == DoctorProfile(d.id, d.userId, p.name, d.specialty)
    decreases |doctors|
  {
    if doctors != [] {
      JoinUsersSpec(doctors[1..], users, p);
      assert doctors == [doctors[0]] + doctors[1..];
      if p in JoinUsers(doctors, users) && p !in JoinUsers(doctors[1..], users) {
        assert doctors[0] in doctors;
      }
    }
  }

  /** The database. */
  class Database {
    var users: seq<UserRow>
    var doctors: seq<DoctorRow>
    var queue: seq<QueueRow>
    var appointments: seq<AppointmentRow>
    var nextQueueId: int
    var nextAppointmentId: int

    /** Primary keys are unique, and every id handed out lies below its table's
        auto-increment counter. */
    ghost predicate Valid()
      reads this
    {
      DistinctBy(users, UserKey) && DistinctBy(doctors, DoctorRowKey) &&
      DistinctBy(queue, QueueRowKey) && DistinctBy(appointments, AppointmentRowKey) &&
      (forall i :: 0 <= i < |queue| ==> queue[i].id < nextQueueId) &&
      (forall i :: 0 <= i < |appointments| ==> appointments[i].id < nextAppointmentId)
    }

    /** A database with the given users and doctors and no queue rows or appointments. */
    constructor (users0: seq<UserRow>, doctors0: seq<DoctorRow>)
      requires DistinctBy(users0, UserKey) && DistinctBy(doctors0, DoctorRowKey)
      ensures Valid()
      ensures users == users0 && doctors == doctors0 && queue == [] && appointments == []
      ensures nextQueueId == 1 && nextAppointmentId == 1
    {
      users := users0;
      doctors := doctors0;
      queue := [];
      appointments := [];
      nextQueueId := 1;
      nextAppointmentId := 1;
    }
  }

  /** Appending a row whose id is the counter and bumping the counter keeps the keys
      unique and below the counter. */
  lemma InsertKeepsKeys<T>(rows: seq<T>, key: T -> int, next: int, row: T)
    requires DistinctBy(rows, key) && forall i :: 0 <= i < |rows| ==> key(rows[i]) < next
    requires key(row) == next
    ensures DistinctBy(rows + [row], key)
    ensures forall i :: 0 <= i < |rows + [row]| ==> key((rows + [row])[i]) < next + 1
  {
  }
}
