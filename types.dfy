/** The records the booking core works on: bookings, their status and kind,
    and the signed-in user. */
module Types {

  datatype Option<T> = None | Some(value: T)

  /** `BookingStatus`. */
  datatype Status = Booked | InUse | AwaitingReturn | Returned | Cancelled

  /** The `activeStatuses` list that the booking form, the schedule grid and the
      dashboard each declare: a booking in one of these states holds its slot. */
  predicate IsActive(s: Status) {
    s == Booked || s == InUse || s == AwaitingReturn
  }

  /** `Booking['type']`: a reservation ('จอง') or an immediate borrow ('ยืม'). */
  datatype Kind = Reserve | Borrow

  datatype Role = Admin | Teacher

  datatype User = User(name: string, role: Role)

  /** A booking whose `equipment` field has type `E`: a list of strings once
      sanitised, or whatever shape the server sent before that. `createdAt` and
      `bookingDate` are the strings the server stores. */
  datatype BookingOf<E> = BookingOf(
    id: int,
    kind: Kind,
    teacherName: string,
    program: string,
    classroom: string,
    period: int,
    bookingDate: string,
    lessonPlanName: string,
    equipment: E,
    status: Status,
    createdAt: string)

  type Booking = BookingOf<seq<string>>

  /** `Omit<Booking, 'id' | 'status' | 'createdAt'>`: what the booking form sends. */
  datatype NewBooking = NewBooking(
    kind: Kind,
    teacherName: string,
    program: string,
    classroom: string,
    period: int,
    bookingDate: string,
    lessonPlanName: string,
    equipment: seq<string>)

  /** The record `{ id, status, createdAt, ...request }`. */
  function WithIdentity(request: NewBooking, id: int, status: Status, createdAt: string): (b: Booking)
    ensures b.id == id && b.status == status && b.createdAt == createdAt
    ensures Request(b) == request
  {
    BookingOf(id, request.kind, request.teacherName, request.program, request.classroom,
              request.period, request.bookingDate, request.lessonPlanName, request.equipment,
              status, createdAt)
  }

  /** The request fields of a booking. */
  function Request(b: Booking): NewBooking {
    NewBooking(b.kind, b.teacherName, b.program, b.classroom, b.period, b.bookingDate,
               b.lessonPlanName, b.equipment)
  }
}
