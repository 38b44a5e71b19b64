/** The doctorsPortal database with the three request handlers that hold domain
    logic. Every handler is one atomic step on in-memory collections. */
module Portal {
  import opened Records
  import opened Narrowing
  import opened Admission
  import opened Payments

  class Database {
    /** appointmentServices, bookings and payments collections. */
    var services: seq<ServiceOption>
    var bookings: seq<Booking>
    var payments: seq<StoredPayment>
    /** The next id the store assigns on insertion. */
    var nextId: nat

    ghost predicate Valid()
      reads this
    {
      (forall i :: 0 <= i < |bookings| ==> bookings[i].id < nextId) &&
      (forall i :: 0 <= i < |payments| ==> payments[i].id < nextId) &&
      DistinctIds(bookings) &&
      AtMostOnePerUserServiceDay(bookings)
    }

    constructor (catalogue: seq<ServiceOption>)
      ensures Valid()
      ensures services == catalogue && bookings == [] && payments == [] && nextId == 0
    {
      services := catalogue;
      bookings := [];
      payments := [];
      nextId := 0;
    }

    /** GET /appointmentServicesOptions?date=<date>: the catalogue with every
        option's slots narrowed, in place on the fetched copy. The store is not
        changed. */
    method AppointmentServicesOptions(date: string) returns (response: seq<ServiceOption>)
      ensures response == Availability(services, bookings, date)
      ensures |response| == |services|
      ensures forall i :: 0 <= i < |services| ==>
        response[i].name == services[i].name && response[i].price == services[i].price
      ensures forall i, s :: 0 <= i < |services| ==>
        (s in response[i].slots <==> s in services[i].slots && !SlotTaken(bookings, date, services[i].name, s))
    {
      var catalogue := services;
      var options := new ServiceOption[|catalogue|](i requires 0 <= i < |catalogue| => catalogue[i]);
      var alreadyBooked := BookingsOn(bookings, date);
      for i := 0 to options.Length
        invariant forall k :: 0 <= k < i ==> options[k] == Narrow(catalogue[k], alreadyBooked)
        invariant forall k :: i <= k < options.Length ==> options[k] == catalogue[k]
      {
        var option := options[i];
        var optionBooked := OptionBooked(alreadyBooked, option.name);
        var bookedSlots := BookedSlots(optionBooked);
        var remainingSlots := RemainingSlots(option.slots, bookedSlots);
        options[i] := option.(slots := remainingSlots);
      }
      response := options[..];
      assert response == Availability(catalogue, bookings, date);
      forall i, s | 0 <= i < |services|
        ensures s in response[i].slots <==> s in services[i].slots && !SlotTaken(bookings, date, services[i].name, s)
      {
        SlotRemovedIffTaken(services, bookings, date, i, s);
      }
    }

    /** POST /bookings: refuse when the user already holds a booking for this
        treatment on this date, whatever the slot; otherwise insert it. */
    method PostBooking(booking: BookingRequest) returns (result: InsertResult)
      requires Valid()
      modifies this
      ensures Valid()
      ensures services == old(services) && payments == old(payments)
      ensures result.Acknowledged() <==> !HasBookingFor(old(bookings), RequestKey(booking))
      ensures !result.Acknowledged() ==>
        result == Refused(ConflictMessage(booking.appointmentDate)) &&
        bookings == old(bookings) && nextId == old(nextId)
      ensures result.Acknowledged() ==>
        result == InsertOneResult(old(nextId)) &&
        bookings == old(bookings) + [NewBooking(old(nextId), booking)] &&
        nextId == old(nextId) + 1
    {
      var alreadyBooked := AlreadyBooked(bookings, RequestKey(booking));
      if |alreadyBooked| > 0 {
        var message := ConflictMessage(booking.appointmentDate);
        return Refused(message);
      }
      AdmissionPreservesUniqueness(bookings, nextId, booking);
      bookings := bookings + [NewBooking(nextId, booking)];
      result := InsertOneResult(nextId);
      nextId := nextId + 1;
    }

    /** POST /payments: record the payment, then mark the booking it names paid
        with its transaction id. No other booking changes. */
    method PostPayment(payment: Payment) returns (result: InsertResult)
      requires Valid()
      modifies this
      ensures Valid()
      ensures services == old(services) && nextId == old(nextId) + 1
      ensures result == InsertOneResult(old(nextId))
      ensures payments == old(payments) + [StoredPayment(old(nextId), payment)]
      ensures bookings == MarkPaid(old(bookings), payment.bookingId, payment.transectionID)
      ensures |bookings| == |old(bookings)|
      ensures forall i :: 0 <= i < |bookings| ==>
        bookings[i] == if old(bookings)[i].id == payment.bookingId
                       then Paid(old(bookings)[i], payment.transectionID)
                       else old(bookings)[i]
    {
      payments := payments + [StoredPayment(nextId, payment)];
      result := InsertOneResult(nextId);
      nextId := nextId + 1;
      var before := bookings;
      bookings := MarkPaid(bookings, payment.bookingId, payment.transectionID);
      MarkPaidPreservesInvariants(before, payment.bookingId, payment.transectionID);
      forall i | 0 <= i < |before|
        ensures bookings[i] == if before[i].id == payment.bookingId
                               then Paid(before[i], payment.transectionID) else before[i]
      {
        MarkPaidTouchesOnlyTarget(before, payment.bookingId, payment.transectionID, i);
      }
    }
  }

  /** Two availability requests for one date with no booking or payment in between
      answer alike: the handler changes no collection. */
  method RepeatedViewIsStable(db: Database, date: string) returns (first: seq<ServiceOption>, second: seq<ServiceOption>)
    ensures first == second
  {
    first := db.AppointmentServicesOptions(date);
    second := db.AppointmentServicesOptions(date);
  }

  /** The view of "Cleaning" on 2024-01-05 once a@x.com holds its 10AM slot. */
  lemma CleaningViewAfterOneBooking()
    ensures Availability([ServiceOption("Cleaning", 100, ["9AM", "10AM", "11AM"])],
                         [NewBooking(0, BookingRequest("2024-01-05", "Cleaning", "10AM", "a@x.com", 100))],
                         "2024-01-05")[0].slots == ["9AM", "11AM"]
  {
  }

  /** One offering, one date: the first user's booking hides its slot from the
      view, the same user's repeat is refused, and a second user still gets the
      hidden slot. */
  method CleaningScenario() returns (before: seq<string>, after: seq<string>,
                                     first: InsertResult, repeat: InsertResult, second: InsertResult)
    ensures before == ["9AM", "10AM", "11AM"]
    ensures after == ["9AM", "11AM"]
    ensures first.Acknowledged() && !repeat.Acknowledged() && second.Acknowledged()
  {
    var cleaning := ServiceOption("Cleaning", 100, ["9AM", "10AM", "11AM"]);
    var db := new Database([cleaning]);
    var view := db.AppointmentServicesOptions("2024-01-05");
    NoBookingsKeepsTemplates([cleaning], [], "2024-01-05");
    before := view[0].slots;

    var a := BookingRequest("2024-01-05", "Cleaning", "10AM", "a@x.com", 100);
    first := db.PostBooking(a);
    view := db.AppointmentServicesOptions("2024-01-05");
    assert db.bookings == [NewBooking(0, a)] && db.services == [cleaning];
    CleaningViewAfterOneBooking();
    after := view[0].slots;

    repeat := db.PostBooking(a);

    var b := a.(email := "b@x.com");
    second := db.PostBooking(b);
  }
}
