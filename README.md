# Doctors portal booking core, modelled in Dafny

This project models the booking backend of a medical-appointment service (the
doctors-portal server). The model covers the three request handlers that hold
domain logic:

- **Slot narrowing** (`GET /appointmentServicesOptions?date=D`). The handler fetches
  every service option (a treatment `name`, a `price` and an ordered `slots`
  template) and every booking whose `appointmentDate` is `D`. In a loop it then
  overwrites each option's `slots` with the template entries that no booking of
  that treatment holds on `D`.
- **Booking admission** (`POST /bookings`). A request is refused with
  `acknowledged: false` and the message `You already have booking on <date>` when
  a stored booking has the same `appointmentDate`, `email` and `treatmentName`.
  Otherwise it is inserted. The slot is not part of that key.
- **Payment finalisation** (`POST /payments`). The payment is inserted. Then the
  booking whose `_id` equals `payment.bookingId` gets `paid: true` and
  `transectionID` (the source's spelling).

The collections are in-memory sequences held by the class `Portal.Database`. Each
handler is a method on it, and each runs as one atomic step. The narrowing handler
works on a fresh array copy of the catalogue, as the source works on the fetched
`options` array. Its per-option filters (`Narrowing.OptionBooked`,
`Narrowing.BookedSlots`, `Narrowing.RemainingSlots`) are pure functions. The store
assigns ids from the counter `nextId`, standing in for the driver's `ObjectId`
generator. `Database.Valid()` holds three things: booking ids are distinct and below
`nextId`, payment ids are below `nextId`, and there is at most one booking per
(date, e-mail, treatment).

Files: `records.dfy` (the documents), `narrowing.dfy`, `admission.dfy`,
`payments.dfy`, and `portal.dfy` (the database class, the handlers and an
end-to-end scenario).

Facts about the code that the model keeps:
- The booking handler inserts the body as sent and sets neither `paid` nor a
  transaction id. The model writes those absent fields as `false` and `None`.
- The payment field is spelt `transectionID`.
- A successful insertion answers with the store's insert result
  (`acknowledged: true`, `insertedId`).
- The payment handler inserts the payment first and updates the booking
  afterwards.
- The booked slots are a list searched with `includes`.
  `Narrowing.RemainingDependsOnlyOnBookedSet` shows that only its members matter.

The slot gap is proved, not fixed. Admission does not look at the slot. So after
one user books a slot, which the availability view then hides, a second user is
still admitted to that same slot (`Admission.SecondUserSameSlotAdmitted`).

## Model

| member | source | states |
|---|---|---|
| Narrowing.BookingsOn | index.js:72-75 | the bookings fetched for a date are exactly the stored bookings with that `appointmentDate` string |
| Narrowing.OptionBooked | index.js:78-80 | the day's bookings kept for an option are exactly those whose `treatmentName` equals the option's name |
| Narrowing.BookedSlots | index.js:81 | a slot is among the booked slots exactly when one of the kept bookings holds it |
| Narrowing.RemainingSlots | index.js:82-84 | a slot survives exactly when it is in the template and not among the booked slots |
| Narrowing.Narrow | index.js:77-86 | narrowing one option keeps its name and price; a slot remains exactly when it is in the template and no booking of the day with that treatment name holds it |
| Narrowing.Availability | index.js:77-88 | the response has one option per catalogue entry, in order, with name and price unchanged and only template slots |
| Narrowing.RemainingIsSubsequence | index.js:82-85 | the narrowed slot list is a subsequence of the template: order kept, nothing added |
| Narrowing.RemainingCounts | index.js:82-84 | every copy of a booked slot is removed and every copy of a free slot is kept (counted as a multiset) |
| Narrowing.RemainingUntouched | index.js:82-84 | a template none of whose slots is booked comes back unchanged |
| Narrowing.RemainingDependsOnlyOnBookedSet | index.js:81-84 | the result depends only on which slots are booked, not on their order or repetition |
| Narrowing.BookedSlotsAreTakenSlots | index.js:72-81 | the slots removed from an option are exactly those some stored booking holds for that date and treatment |
| Narrowing.AvailabilityShape | index.js:77-88 | the response has the catalogue's length and order, each option keeps its name and price, and its slots are a subsequence of its template |
| Narrowing.SlotRemovedIffTaken | index.js:72-86 | a template slot is absent from the response exactly when a booking with that date, treatment and slot exists |
| Narrowing.SlotCopies | index.js:78-85 | a taken slot loses all its copies and a free slot keeps all of them |
| Narrowing.NoBookingsKeepsTemplates | index.js:72-86 | with no booking on the queried date, the response equals the catalogue |
| Narrowing.IrrelevantBookingsIgnored | index.js:72-80 | bookings for another date string or another treatment, wherever they stand in the store, do not change an option's response |
| Admission.AlreadyBooked | index.js:103-110 | the conflict query returns exactly the bookings under the request's (date, e-mail, treatment) key, and is non-empty exactly when such a booking exists |
| Admission.ConflictMessage | index.js:111 | the refusal message ends with the requested date |
| Records.NewBooking | index.js:115 | the stored document carries exactly the request's fields, the assigned id, and is not yet paid |
| Admission.AdmissionPreservesUniqueness | index.js:108-116 | appending a booking whose key is not yet stored keeps at most one booking per user, treatment and day |
| Admission.AdmittedBookingBlocksOnlyItsKey | index.js:103-115 | after an admission, a later request conflicts exactly when it conflicted before or has the admitted booking's key |
| Admission.SecondUserSameSlotAdmitted | index.js:103-115 | once a user holds a slot, the view treats it as taken, yet another user's request for the same slot is admitted, and the store then holds two bookings of one slot |
| Payments.Paid | index.js:242-247 | the patch sets `paid` and `transectionID` and leaves every other field of the booking as it was |
| Payments.MarkPaid | index.js:240-248 | the update keeps length, ids, keys and slots of all bookings, and leaves a store without the named id unchanged |
| Payments.MarkPaidTouchesOnlyTarget | index.js:241-248 | with distinct ids, the booking with the named id gets `paid` and `transectionID` set and every other booking is unchanged |
| Payments.MarkPaidPreservesInvariants | index.js:242-247 | marking a booking paid keeps ids distinct and at most one booking per user, treatment and day |
| Portal.Database.constructor | index.js:42-51 | the database starts with the given catalogue, no bookings and no payments, and satisfies its invariant |
| Portal.Database.AppointmentServicesOptions | index.js:66-89 | the loop returns the catalogue with only the slots rewritten; a slot remains exactly when it is in the template and not taken on that date for that treatment; the store is unchanged |
| Portal.Database.PostBooking | index.js:101-117 | refused with the date-naming message and an unchanged store exactly when a booking under the request's key exists, whatever the slot; otherwise the new booking is appended under a fresh id; the invariant is kept either way |
| Portal.Database.PostPayment | index.js:237-250 | one payment record is appended; the booking with the named id is marked paid with the payment's transaction id; every other booking is unchanged |
| Portal.RepeatedViewIsStable | index.js:66-89 | two availability requests for one date with nothing in between return the same response |
| Portal.CleaningViewAfterOneBooking | index.js:77-86 | concrete case: after a booking of 10AM, the template 9AM, 10AM, 11AM is narrowed to 9AM, 11AM |
| Portal.CleaningScenario | index.js:66-117 | end to end: the empty day shows the full template; the first booking is admitted and hides its slot; the same user's repeat is refused; a second user is admitted to the hidden slot |

## Left out

- HTTP routing, CORS, JSON body parsing, environment configuration and the listener (index.js:1-14, 257-261) are transport, not logic.
- The database client, its queries and `ObjectId` parsing are replaced by sequences and by filters over them. The model does not cover a `bookingId` that is not a valid ObjectId; in the source that throws after the payment is already inserted.
- Token issuance and verification, the `Authorization` header split and the admin role guard (index.js:16-30, 53-63, 192-203) are calls into a foreign library or thin pass-throughs.
- The Stripe payment intent and its `price * 100` amount (index.js:219-235) call an external gateway and compute with floating point.
- The plain pass-through handlers for users, doctors, the speciality projection and bookings by id or e-mail (index.js:91-99, 119-190) hold no logic beyond role and e-mail ownership checks.
- Each handler is one atomic step. The check-then-insert race in admission and the unawaited `updateOne` in payments (index.js:248) are not modelled.
- Fields are strings. A missing query parameter or body field (`undefined`, which the store matches against absent fields) is not modelled, and dates are not validated.
- Extra fields a client sends in a booking or payment body are not modelled. A booking keeps date, treatment, slot, e-mail and price; a payment keeps booking id, transaction id, e-mail and price. Likewise the catalogue documents' `_id` and any other field, which the availability response returns unchanged (index.js:88), are not modelled; an option keeps name, price and slots.
- Prices are integers that are only carried, never computed with.
- The database starts empty of bookings because the constructor models the collections as created by this service. Documents seeded from outside would have to satisfy `Valid()`.
- Admission.ConflictMessage: its contract states only that the message ends with the requested date; the fixed wording `You already have booking on ` is given by its body alone.
