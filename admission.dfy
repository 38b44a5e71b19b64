/** Booking admission of POST /bookings: a request is refused when the store
    already holds a booking with the same date, e-mail and treatment. The slot is
    not part of that key. */
module Admission {
  import opened Records
  import opened Narrowing

  /** The fields of the conflict query: one user, one treatment, one day. */
  datatype BookingKey = BookingKey(appointmentDate: string, email: string, treatmentName: string)

  function KeyOf(b: Booking): BookingKey
  {
    BookingKey(b.appointmentDate, b.email, b.treatmentName)
  }

  function RequestKey(req: BookingRequest): BookingKey
  {
    BookingKey(req.appointmentDate, req.email, req.treatmentName)
  }

  /** Whether the store already holds a booking under key `k`. */
  predicate HasBookingFor(store: seq<Booking>, k: BookingKey)
  {
    exists b :: b in store && KeyOf(b) == k
  }

  /** The bookings collection queried with `{ appointmentDate, email, treatmentName }`;
      it is non-empty exactly when a booking under that key exists. */
  function AlreadyBooked(store: seq<Booking>, k: BookingKey): (r: seq<Booking>)
    ensures forall b :: b in r <==> b in store && KeyOf(b) == k
    ensures |r| > 0 <==> HasBookingFor(store, k)
  {
    if store == [] then []
    else
      assert forall b :: b in store <==> b == store[0] || b in store[1..];
      var rest := AlreadyBooked(store[1..], k);
      var r := (if KeyOf(store[0]) == k then [store[0]] else []) + rest;
      assert |r| > 0 ==> r[0] in r;
      r
  }

  /** The message of a refused request; it ends with the requested date. */
  function ConflictMessage(date: string): (m: string)
    ensures |m| > |date| && m[|m| - |date|..] == date
  {
    "You already have booking on " + date
  }

  /** At most one booking per (appointmentDate, email, treatmentName). */
  predicate AtMostOnePerUserServiceDay(store: seq<Booking>)
  {
    forall i, j :: 0 <= i < j < |store| ==> KeyOf(store[i]) != KeyOf(store[j])
  }

  /** At most one booking per (treatmentName, appointmentDate, slot): the slot
      uniqueness the availability view aims at, which admission does not enforce. */
  predicate AtMostOnePerSlot(store: seq<Booking>)
  {
    forall i, j :: 0 <= i < j < |store| ==>
      !(store[i].treatmentName == store[j].treatmentName &&
        store[i].appointmentDate == store[j].appointmentDate &&
        store[i].slot == store[j].slot)
  }

  /** Appending an admitted booking keeps one booking per user, service and day. */
  lemma AdmissionPreservesUniqueness(store: seq<Booking>, id: nat, req: BookingRequest)
    requires AtMostOnePerUserServiceDay(store)
    requires !HasBookingFor(store, RequestKey(req))
    ensures AtMostOnePerUserServiceDay(store + [NewBooking(id, req)])
  {
  }

  /** After admitting `req`, a later request conflicts exactly when it conflicted
      before or shares the admitted booking's key. */
  lemma AdmittedBookingBlocksOnlyItsKey(store: seq<Booking>, id: nat, req: BookingRequest, k: BookingKey)
    ensures HasBookingFor(store + [NewBooking(id, req)], k) <==> HasBookingFor(store, k) || k == RequestKey(req)
  {
    var nb := NewBooking(id, req);
    if k == RequestKey(req) {
      assert nb in store + [nb] && KeyOf(nb) == k;
    }
    if HasBookingFor(store, k) {
      var b :| b in store && KeyOf(b) == k;
      assert b in store + [nb];
    }
  }

  /** The slot gap: once one user holds a slot, the availability view hides it,
      yet a second user's request for that very slot is still admitted, and the
      store then holds two bookings of one slot. */
  lemma SecondUserSameSlotAdmitted(store: seq<Booking>, id1: nat, first: BookingRequest,
                                   id2: nat, second: BookingRequest)
    requires second.appointmentDate == first.appointmentDate
    requires second.treatmentName == first.treatmentName
    requires second.slot == first.slot
    requires second.email != first.email
    requires !HasBookingFor(store, RequestKey(second))
    ensures SlotTaken(store + [NewBooking(id1, first)], first.appointmentDate, first.treatmentName, first.slot)
    ensures !HasBookingFor(store + [NewBooking(id1, first)], RequestKey(second))
    ensures !AtMostOnePerSlot(store + [NewBooking(id1, first)] + [NewBooking(id2, second)])
  {
    var nb1 := NewBooking(id1, first);
    assert nb1 in store + [nb1];
    AdmittedBookingBlocksOnlyItsKey(store, id1, first, RequestKey(second));
    var after := store + [nb1] + [NewBooking(id2, second)];
    assert after[|store|] == nb1 && after[|store| + 1] == NewBooking(id2, second);
  }
}
