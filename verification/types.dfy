/**
 The records the check-in core passes around: the imported event, the stored
 check-in, and the check-in as a caller hands it to the store before an id is
 assigned.
 */
module Types {
  import opened Js

  /** A value that may be absent (`null` or `undefined` in the source). */
  datatype Option<T> = None | Some(value: T)

  /** The imported event (`EventDetails`); `date` is kept as the imported text. */
  datatype Event = Event(id: int, name: string, date: string, totalSeats: int)

  /** A recorded admission. `checkInTime` is the instant in milliseconds since
      the epoch that the source stores as an ISO-8601 string. */
  datatype CheckIn = CheckIn(
    id: int,
    eventId: int,
    ticketNumber: Number,
    userName: string,
    checkInTime: int)

  /** A check-in before the store has numbered it (`Omit<CheckIn, "id">`). */
  datatype Draft = Draft(
    eventId: int,
    ticketNumber: Number,
    userName: string,
    checkInTime: int)
}
