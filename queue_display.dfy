/** The queue display component: it lists the waiting entries it is given in the order
    given, numbers them by their place in that list, marks the first, and offers a
    doctor the invite button while anyone is waiting. */
module QueueDisplay {
  import opened Seqs
  import opened StableSort
  import opened Types
  import opened MockApi

  function IsWaitingEntry(e: QueueEntry): bool {
    e.status == Waiting
  }

  /** `entries.filter(e => e.status === 'waiting')`. */
  function WaitingEntries(entries: seq<QueueEntry>): seq<QueueEntry> {
    Filter(entries, IsWaitingEntry)
  }

  /** One rendered row: its number, whether it is highlighted, whether it carries the
      "Next" badge. */
  datatype Row = Row(entry: QueueEntry, number: nat, highlighted: bool, nextBadge: bool)

  /** `waitingEntries.map((entry, index) => …)`. */
  function Rows(entries: seq<QueueEntry>, isDoctor: bool): (rows: seq<Row>)
    ensures |rows| == |WaitingEntries(entries)|
  {
    var waiting := WaitingEntries(entries);
    seq(|waiting|, i requires 0 <= i < |waiting| => Row(waiting[i], i + 1, i == 0, i == 0 && isDoctor))
  }

  /** The number on the count badge. */
  function CountBadge(entries: seq<QueueEntry>): nat {
    |WaitingEntries(entries)|
  }

  /** The invite button is shown to a doctor while the list has a waiting entry. */
  function ShowInviteButton(entries: seq<QueueEntry>, isDoctor: bool): (show: bool)
    ensures show <==> isDoctor && exists e :: e in entries && e.status == Waiting
  {
    AnyoneWaiting(entries);
    isDoctor && |WaitingEntries(entries)| > 0
  }

  lemma AnyoneWaiting(entries: seq<QueueEntry>)
    ensures |WaitingEntries(entries)| > 0 <==> exists e :: e in entries && e.status == Waiting
  {
    if |WaitingEntries(entries)| > 0 {
      FilterMembership(entries, IsWaitingEntry, WaitingEntries(entries)[0]);
    } else {
      forall e | e in entries ensures e.status != Waiting {
        FilterMembership(entries, IsWaitingEntry, e);
      }
    }
  }

  // ---------------------------------------------------------------------------
  // Properties

  /** Rows show exactly the waiting entries, in input order; the number is the place in
      the list plus one, whatever `position` the entry stores; only the first row is
      highlighted, and it has the "Next" badge only for a doctor. */
  lemma RowsSpec(entries: seq<QueueEntry>, isDoctor: bool)
    ensures var rows := Rows(entries, isDoctor);
            (forall e :: e in entries && e.status == Waiting <==> exists i :: 0 <= i < |rows| && rows[i].entry == e) &&
            IsSubsequence(WaitingEntries(entries), entries) &&
            (forall i :: 0 <= i < |rows| ==> rows[i].entry == WaitingEntries(entries)[i] && rows[i].number == i + 1) &&
            (forall i :: 0 <= i < |rows| ==> (rows[i].highlighted <==> i == 0) && (rows[i].nextBadge <==> i == 0 && isDoctor))
  {
    var waiting := WaitingEntries(entries);
    var rows := Rows(entries, isDoctor);
    forall e ensures e in entries && e.status == Waiting <==> exists i :: 0 <= i < |rows| && rows[i].entry == e {
      FilterMembership(entries, IsWaitingEntry, e);
      if e in waiting {
        var i :| 0 <= i < |waiting| && waiting[i] == e;
        assert rows[i].entry == e;
      }
    }
    FilterIsSubsequence(entries, IsWaitingEntry);
  }

  /** Fed the service layer's queue for a doctor, the badge shows that doctor's
      `queueLength` as long as the counters are consistent. */
  lemma CountBadgeMatchesCounter(doctors: seq<Doctor>, entries: seq<QueueEntry>, i: nat)
    requires CountersMatch(doctors, entries) && i < |doctors|
    ensures CountBadge(GetQueue(entries, doctors[i].id)) == doctors[i].queueLength
  {
    var q := GetQueue(entries, doctors[i].id);
    forall k | 0 <= k < |q| ensures IsWaitingEntry(q[k]) {
    }
    FilterKeepsAll(q, IsWaitingEntry);
  }

  /** When entries are stored in order of their join times, the row with the "Next"
      badge is the entry `inviteNextPatient` will invite. */
  lemma NextBadgeIsNextInvited(entries: seq<QueueEntry>, doctorId: int)
    requires SortedBy(entries, JoinedAtKey)
    requires GetQueue(entries, doctorId) != []
    ensures Rows(GetQueue(entries, doctorId), true)[0].nextBadge
    ensures Rows(GetQueue(entries, doctorId), true)[0].entry == NextToInvite(entries, doctorId)
  {
    var q := GetQueue(entries, doctorId);
    forall k | 0 <= k < |q| ensures IsWaitingEntry(q[k]) {
    }
    FilterKeepsAll(q, IsWaitingEntry);
    FilterSorted(entries, WaitingPred(doctorId), JoinedAtKey);
    SortedFirstMin(q, JoinedAtKey);
  }

  /** Without that ordering they can differ: an entry stored first but joined later is
      badged "Next" while the other one is invited. */
  lemma NextBadgeCanDifferFromInvited()
    ensures var late := QueueEntry(1, 1, "A", 7, "Dr", 200, Waiting, 1);
            var early := QueueEntry(2, 2, "B", 7, "Dr", 100, Waiting, 2);
            var entries := [late, early];
            GetQueue(entries, 7) == entries &&
            Rows(GetQueue(entries, 7), true)[0].entry == late &&
            NextToInvite(entries, 7) == early
  {
    var late := QueueEntry(1, 1, "A", 7, "Dr", 200, Waiting, 1);
    var early := QueueEntry(2, 2, "B", 7, "Dr", 100, Waiting, 2);
    var entries := [late, early];
    FilterKeepsAll(entries, WaitingPred(7));
    assert GetQueue(entries, 7) == entries;
    FilterKeepsAll(entries, IsWaitingEntry);
    assert WaitingEntries(entries) == entries;
    assert Rows(entries, true)[0].entry == late;
    assert entries[1..] == [early];
    assert FirstMinIndex(entries[1..], JoinedAtKey) == 0;
    assert FirstMinIndex(entries, JoinedAtKey) == 1;
  }
}
