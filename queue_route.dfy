/** The `/queue` routes of the Express back end: an authenticated patient joins a
    doctor's queue with one insert, and anyone may list a doctor's waiting rows in
    order of arrival. The authenticated user's id is a parameter of `Join`; `List`
    takes none, because that route has no auth middleware. */
module QueueRoute {
  import opened Wrappers
  import opened Seqs
  import opened StableSort
  import opened Types
  import opened Store

  /** POST `/queue`: a missing or zero `doctorId` in the body is a 400 and nothing is
      written; otherwise one row is inserted for the caller, with the default status
      and the insertion time, and its new id is returned. The doctor id is not checked
      against the doctors table. */
  method Join(db: Database, user: int, doctorId: Option<int>, now: int) returns (r: Response<int>)
    requires db.Valid()
    modifies db
    ensures db.Valid()
    ensures db.users == old(db.users) && db.doctors == old(db.doctors)
    ensures db.appointments == old(db.appointments) && db.nextAppointmentId == old(db.nextAppointmentId)
    ensures doctorId.None? || doctorId == Some(0) ==>
              r == Error(400, "doctorId is required") &&
              db.queue == old(db.queue) && db.nextQueueId == old(db.nextQueueId)
    ensures doctorId.Some? && doctorId.value != 0 ==>
              r == Ok(old(db.nextQueueId)) &&
              db.queue == old(db.queue) + [QueueRow(old(db.nextQueueId), user, doctorId.value, now, Waiting)] &&
              db.nextQueueId == old(db.nextQueueId) + 1
  {
    if doctorId.None? || doctorId.value == 0 {
      return Error(400, "doctorId is required");
    }
    var row := QueueRow(db.nextQueueId, user, doctorId.value, now, Waiting);
    InsertKeepsKeys(db.queue, QueueRowKey, db.nextQueueId, row);
    db.queue := db.queue + [row];
    db.nextQueueId := db.nextQueueId + 1;
    r := Ok(row.id);
  }

  /** A listed queue row with the patient's name from the users table. */
  datatype QueueView = QueueView(row: QueueRow, patientName: string)

  /** `JOIN users u ON q.patient_id = u.id`: rows whose patient has no user drop out. */
  function WithPatientNames(rows: seq<QueueRow>, users: seq<UserRow>): (r: seq<QueueView>)
    ensures |r| <= |rows|
    decreases |rows|
  {
    if rows == [] then []
    else match UserName(users, rows[0].patientId)
      case None => WithPatientNames(rows[1..], users)
      case Some(name) => [QueueView(rows[0], name)] + WithPatientNames(rows[1..], users)
  }

  function ViewJoinedAt(v: QueueView): int {
    v.row.joinedAt
  }

  /** GET `/queue?doctorId=…`: a missing or empty parameter is a 400; otherwise the
      doctor's waiting rows, `ORDER BY q.joined_at`. A query-string `0` is a non-empty
      string and so passes the check. */
  function List(queue: seq<QueueRow>, users: seq<UserRow>, doctorId: Option<int>): Response<seq<QueueView>> {
    match doctorId
    case None => Error(400, "doctorId query parameter is required")
    case Some(id) => Ok(SortBy(WithPatientNames(Filter(queue, WaitingRowFor(id)), users), ViewJoinedAt))
  }

  // ---------------------------------------------------------------------------
  // Properties

  lemma {:induction false} WithPatientNamesSpec(rows: seq<QueueRow>, users: seq<UserRow>, v: QueueView)
    ensures v in WithPatientNames(rows, users) <==> v.row in rows && UserName(users, v.row.patientId) == Some(v.patientName)
    ensures (forall i :: 0 <= i < |rows| ==> UserName(users, rows[i].patientId).Some?) ==> |WithPatientNames(rows, users)| == |rows|
    decreases |rows|
  {
    if rows != [] {
      WithPatientNamesSpec(rows[1..], users, v);
      assert rows == [rows[0]] + rows[1..];
    }
  }

  /** The listing is exactly the doctor's waiting rows whose patient is a known user,
      each once, earliest arrival first. */
  lemma ListSpec(queue: seq<QueueRow>, users: seq<UserRow>, doctorId: int)
    ensures List(queue, users, Some(doctorId)).Ok?
    ensures var listed := List(queue, users, Some(doctorId)).data;
            SortedBy(listed, ViewJoinedAt) &&
            multiset(listed) == multiset(WithPatientNames(Filter(queue, WaitingRowFor(doctorId)), users)) &&
            forall v :: v in listed <==>
              v.row in queue && IsWaitingRowFor(v.row, doctorId) && UserName(users, v.row.patientId) == Some(v.patientName)
  {
    var waiting := Filter(queue, WaitingRowFor(doctorId));
    var named := WithPatientNames(waiting, users);
    SortBySorted(named, ViewJoinedAt);
    SortByPermutes(named, ViewJoinedAt);
    forall v ensures v in SortBy(named, ViewJoinedAt) <==>
        v.row in queue && IsWaitingRowFor(v.row, doctorId) && UserName(users, v.row.patientId) == Some(v.patientName) {
      assert v in SortBy(named, ViewJoinedAt) <==> v in multiset(named);
      WithPatientNamesSpec(waiting, users, v);
      FilterMembership(queue, WaitingRowFor(doctorId), v.row);
    }
  }

  /** When every patient is a known user, the listing has one entry per waiting row. */
  lemma ListCount(queue: seq<QueueRow>, users: seq<UserRow>, doctorId: int)
    requires forall i :: 0 <= i < |queue| ==> UserName(users, queue[i].patientId).Some?
    ensures |List(queue, users, Some(doctorId)).data| == |Filter(queue, WaitingRowFor(doctorId))|
  {
    var waiting := Filter(queue, WaitingRowFor(doctorId));
    forall i | 0 <= i < |waiting| ensures UserName(users, waiting[i].patientId).Some? {
      FilterMembership(queue, WaitingRowFor(doctorId), waiting[i]);
    }
    WithPatientNamesSpec(waiting, users, QueueView(QueueRow(0, 0, 0, 0, Waiting), ""));
    SortByPermutes(WithPatientNames(waiting, users), ViewJoinedAt);
  }

  /** A patient who joins (and is a known user) is listed in that doctor's queue
      straight after. */
  lemma JoinedIsListed(queue: seq<QueueRow>, users: seq<UserRow>, row: QueueRow)
    requires row.status == Waiting
    requires UserName(users, row.patientId).Some?
    ensures QueueView(row, UserName(users, row.patientId).value) in List(queue + [row], users, Some(row.doctorId)).data
  {
    ListSpec(queue + [row], users, row.doctorId);
    assert row in queue + [row];
  }
}
