/** The appointment list component: the order appointments are shown in, the badge
    colour and label of a status, and which action buttons an appointment offers. */
module AppointmentList {
  import opened Seqs
  import opened StableSort
  import opened Text
  import opened Types

  const ScheduledColor := "bg-accent text-accent-foreground"
  const InProgressColor := "bg-primary text-primary-foreground"
  const CompletedColor := "bg-chart-2 text-foreground"
  const CancelledColor := "bg-destructive text-destructive-foreground"
  const MutedColor := "bg-muted text-muted-foreground"

  /** `getStatusColor`: each of the four status spellings has its own class, anything
      else the muted default. */
  function StatusColor(status: string): (c: string)
    ensures status == "scheduled" ==> c == ScheduledColor
    ensures status == "in-progress" ==> c == InProgressColor
    ensures status == "completed" ==> c == CompletedColor
    ensures status == "cancelled" ==> c == CancelledColor
    ensures c == MutedColor <==> status !in ["scheduled", "in-progress", "completed", "cancelled"]
  {
    if status == "scheduled" then ScheduledColor
    else if status == "in-progress" then InProgressColor
    else if status == "completed" then CompletedColor
    else if status == "cancelled" then CancelledColor
    else MutedColor
  }

  /** Different statuses get different colours, none of them the default. */
  lemma StatusColorsDistinct(a: AppointmentStatus, b: AppointmentStatus)
    ensures a != b ==> StatusColor(AppointmentStatusName(a)) != StatusColor(AppointmentStatusName(b))
    ensures StatusColor(AppointmentStatusName(a)) != MutedColor
  {
  }

  /** The badge text: the status with its first letter upper-cased. */
  function StatusLabel(status: string): (text: string)
    ensures |text| == |status|
    ensures status != "" ==> text[0] == UpperChar(status[0]) && text[1..] == status[1..]
  {
    Capitalize(status)
  }

  /** The labels of the four statuses. */
  lemma StatusLabels()
    ensures StatusLabel(AppointmentStatusName(Scheduled)) == "Scheduled"
    ensures StatusLabel(AppointmentStatusName(InProgress)) == "In-progress"
    ensures StatusLabel(AppointmentStatusName(AppointmentStatus.Completed)) == "Completed"
    ensures StatusLabel(AppointmentStatusName(AppointmentStatus.Cancelled)) == "Cancelled"
  {
  }

  function TimeKey(a: Appointment): int {
    a.appointmentTime
  }

  /** `[...appointments].sort((a, b) => time(a) - time(b))`: a sorted copy, earliest
      first (whatever the comment above it says), the input left as it was. */
  function SortedAppointments(appointments: seq<Appointment>): seq<Appointment> {
    SortBy(appointments, TimeKey)
  }

  /** The shown list holds the same appointments, earliest first; appointments at the
      same time keep their input order. */
  lemma SortedAppointmentsSpec(appointments: seq<Appointment>)
    ensures var shown := SortedAppointments(appointments);
            multiset(shown) == multiset(appointments) &&
            (forall i, j :: 0 <= i < j < |shown| ==> shown[i].appointmentTime <= shown[j].appointmentTime) &&
            forall t :: Filter(shown, KeyIs(TimeKey, t)) == Filter(appointments, KeyIs(TimeKey, t))
  {
    SortByPermutes(appointments, TimeKey);
    SortBySorted(appointments, TimeKey);
    forall t ensures Filter(SortedAppointments(appointments), KeyIs(TimeKey, t)) == Filter(appointments, KeyIs(TimeKey, t)) {
      SortByStable(appointments, TimeKey, t);
    }
  }

  /** The first appointment shown is the earliest one. */
  lemma EarliestFirst(appointments: seq<Appointment>)
    requires appointments != []
    ensures SortedAppointments(appointments) != []
    ensures forall a :: a in appointments ==> SortedAppointments(appointments)[0].appointmentTime <= a.appointmentTime
  {
    SortByHead(appointments, TimeKey);
  }

  /** The buttons an appointment row offers. */
  datatype Actions = Actions(complete: bool, cancel: bool)

  /** Buttons appear only on a scheduled appointment: Complete for a doctor when a
      complete handler is given, Cancel whenever a cancel handler is given. */
  function ActionsFor(status: AppointmentStatus, isDoctor: bool, hasOnComplete: bool, hasOnCancel: bool): (r: Actions)
    ensures r.complete <==> status == Scheduled && isDoctor && hasOnComplete
    ensures r.cancel <==> status == Scheduled && hasOnCancel
  {
    if status == Scheduled then Actions(isDoctor && hasOnComplete, hasOnCancel) else Actions(false, false)
  }

  /** A patient is never offered Complete, and only a scheduled appointment has any
      button. */
  lemma ActionsOnlyWhenScheduled(status: AppointmentStatus, isDoctor: bool, hasOnComplete: bool, hasOnCancel: bool)
    ensures !isDoctor ==> !ActionsFor(status, isDoctor, hasOnComplete, hasOnCancel).complete
    ensures status != Scheduled ==> ActionsFor(status, isDoctor, hasOnComplete, hasOnCancel) == Actions(false, false)
  {
  }
}
