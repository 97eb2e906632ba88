/** The entities of the service layer (the shapes declared in src/types/index.ts), as
    values. Fields the core never reads (e-mail, cost, clinic address, coordinates)
    are not carried. Times are milliseconds since the epoch. */
module Types {

  datatype QueueStatus = Waiting | Invited | Completed | Cancelled

  datatype AppointmentStatus = Scheduled | Completed | Cancelled | InProgress

  /** The wire spelling of an appointment status. */
  function AppointmentStatusName(s: AppointmentStatus): string {
    match s
    case Scheduled => "scheduled"
    case Completed => "completed"
    case Cancelled => "cancelled"
    case InProgress => "in-progress"
  }

  /** One bookable time of a doctor. */
  datatype Slot = Slot(id: int, time: int, available: bool)

  /** A doctor as the client holds it. `rating` is a number with one decimal in the
      source; it is kept here in tenths so that its text form is exact. */
  datatype Doctor = Doctor(
    id: int,
    userId: int,
    name: string,
    specialty: string,
    ratingTenths: nat,
    queueLength: int,
    availableSlots: seq<Slot>)

  datatype Appointment = Appointment(
    id: int,
    patientId: int,
    patientName: string,
    doctorId: int,
    doctorName: string,
    appointmentTime: int,
    status: AppointmentStatus,
    createdAt: int)

  /** A walk-in queue entry; `position` is fixed when the entry is created. */
  datatype QueueEntry = QueueEntry(
    id: int,
    patientId: int,
    patientName: string,
    doctorId: int,
    doctorName: string,
    joinedAt: int,
    status: QueueStatus,
    position: int)

  datatype Recommendation = Recommendation(
    doctorId: int,
    doctorName: string,
    specialty: string,
    matchScore: int,
    reason: string)

  function DoctorKey(d: Doctor): int { d.id }
  function EntryKey(e: QueueEntry): int { e.id }
  function AppointmentKey(a: Appointment): int { a.id }
}
