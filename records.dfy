/** The documents stored in the portal's collections: appointment service options,
    bookings and payments. Dates, e-mail addresses, slots and transaction ids are
    opaque strings compared by equality; prices are carried, never computed with. */
module Records {

  datatype Option<T> = None | Some(value: T)

  /** A document of the appointmentServices collection: a treatment with its
      daily slot template. */
  datatype ServiceOption = ServiceOption(name: string, price: int, slots: seq<string>)

  /** The body of a POST /bookings request. */
  datatype BookingRequest = BookingRequest(
    appointmentDate: string,
    treatmentName: string,
    slot: string,
    email: string,
    price: int)

  /** A document of the bookings collection. `id` stands for the `_id` the store
      assigns on insertion; `paid` and `transectionID` are absent until payment
      (modelled as false and None). */
  datatype Booking = Booking(
    id: nat,
    appointmentDate: string,
    treatmentName: string,
    slot: string,
    email: string,
    price: int,
    paid: bool,
    transectionID: Option<string>)

  /** The body of a POST /payments request. `bookingId` names the booking's `_id`. */
  datatype Payment = Payment(bookingId: nat, transectionID: string, email: string, price: int)

  /** A document of the payments collection. */
  datatype StoredPayment = StoredPayment(id: nat, payment: Payment)

  /** What the store answers to an insertion, and the conflict answer of admission. */
  datatype InsertResult = InsertOneResult(insertedId: nat) | Refused(message: string)
  {
    predicate Acknowledged() { InsertOneResult? }
  }

  /** The fields of a booking that came from the client's request body. */
  function Body(b: Booking): BookingRequest
  {
    BookingRequest(b.appointmentDate, b.treatmentName, b.slot, b.email, b.price)
  }

  /** The document `insertOne(booking)` stores: the request as sent, with the
      assigned id and no payment fields yet. */
  function NewBooking(id: nat, req: BookingRequest): (b: Booking)
    ensures Body(b) == req
    ensures b.id == id && !b.paid && b.transectionID == None
  {
    Booking(id, req.appointmentDate, req.treatmentName, req.slot, req.email, req.price, false, None)
  }
}
