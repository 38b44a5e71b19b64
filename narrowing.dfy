/** Slot-availability narrowing of GET /appointmentServicesOptions: each service
    option's slot template loses the slots that bookings for that treatment on the
    queried date already hold. */
module Narrowing {
  import opened Records

  /** The bookings collection queried with `{ appointmentDate: date }`. */
  function BookingsOn(store: seq<Booking>, date: string): (r: seq<Booking>)
    ensures forall b :: b in r <==> b in store && b.appointmentDate == date
  {
    if store == [] then []
    else
      assert forall b :: b in store <==> b == store[0] || b in store[1..];
      (if store[0].appointmentDate == date then [store[0]] else []) + BookingsOn(store[1..], date)
  }

  /** `alreadyBooked.filter(book => book.treatmentName === name)`. */
  function OptionBooked(alreadyBooked: seq<Booking>, name: string): (r: seq<Booking>)
    ensures forall b :: b in r <==> b in alreadyBooked && b.treatmentName == name
  {
    if alreadyBooked == [] then []
    else
      assert forall b :: b in alreadyBooked <==> b == alreadyBooked[0] || b in alreadyBooked[1..];
      (if alreadyBooked[0].treatmentName == name then [alreadyBooked[0]] else [])
        + OptionBooked(alreadyBooked[1..], name)
  }

  /** `optionBooked.map(book => book.slot)`. */
  function BookedSlots(optionBooked: seq<Booking>): (r: seq<string>)
    ensures forall s :: s in r <==> exists b :: b in optionBooked && b.slot == s
  {
    if optionBooked == [] then []
    else
      assert forall b :: b in optionBooked <==> b == optionBooked[0] || b in optionBooked[1..];
      [optionBooked[0].slot] + BookedSlots(optionBooked[1..])
  }

  /** `template.filter(slot => !bookedSlots.includes(slot))`. */
  function RemainingSlots(template: seq<string>, bookedSlots: seq<string>): (r: seq<string>)
    ensures forall s :: s in r <==> s in template && s !in bookedSlots
  {
    if template == [] then []
    else
      assert forall s :: s in template <==> s == template[0] || s in template[1..];
      (if template[0] in bookedSlots then [] else [template[0]])
        + RemainingSlots(template[1..], bookedSlots)
  }

  /** The body of the forEach callback: the option with its slots narrowed by the
      bookings of the day that name its treatment. */
  function Narrow(option: ServiceOption, alreadyBooked: seq<Booking>): (r: ServiceOption)
    ensures r.name == option.name && r.price == option.price
    ensures forall s :: s in r.slots <==>
      s in option.slots && !(exists b :: b in alreadyBooked && b.treatmentName == option.name && b.slot == s)
  {
    option.(slots := RemainingSlots(option.slots, BookedSlots(OptionBooked(alreadyBooked, option.name))))
  }

  /** The response of GET /appointmentServicesOptions?date=<date>. */
  function Availability(catalogue: seq<ServiceOption>, store: seq<Booking>, date: string): (r: seq<ServiceOption>)
    ensures |r| == |catalogue|
    ensures forall i :: 0 <= i < |r| ==> r[i].name == catalogue[i].name && r[i].price == catalogue[i].price
    ensures forall i, s :: 0 <= i < |r| && s in r[i].slots ==> s in catalogue[i].slots
  {
    var alreadyBooked := BookingsOn(store, date);
    seq(|catalogue|, i requires 0 <= i < |catalogue| => Narrow(catalogue[i], alreadyBooked))
  }

  /** Whether some booking holds `slot` of treatment `name` on `date`. */
  predicate SlotTaken(store: seq<Booking>, date: string, name: string, slot: string)
  {
    exists b :: b in store && b.appointmentDate == date && b.treatmentName == name && b.slot == slot
  }

  /** `s` is a subsequence of `t`: `t` with some elements deleted, order kept. */
  predicate IsSubsequence<T(==)>(s: seq<T>, t: seq<T>)
    decreases |t|
  {
    if s == [] then true
    else if t == [] then false
    else (s[0] == t[0] && IsSubsequence(s[1..], t[1..])) || IsSubsequence(s, t[1..])
  }

  // ---------------------------------------------------------------------------
  // Properties of the filter on one template

  lemma {:induction false} RemainingIsSubsequence(template: seq<string>, bookedSlots: seq<string>)
    ensures IsSubsequence(RemainingSlots(template, bookedSlots), template)
  {
    if template != [] {
      RemainingIsSubsequence(template[1..], bookedSlots);
      var rest := RemainingSlots(template[1..], bookedSlots);
      if template[0] !in bookedSlots {
        var r := RemainingSlots(template, bookedSlots);
        assert r == [template[0]] + rest;
        assert r[0] == template[0] && r[1..] == rest;
      } else {
        assert RemainingSlots(template, bookedSlots) == rest;
      }
    }
  }

  /** Every copy of a booked slot goes, every copy of a free one stays. */
  lemma {:induction false} RemainingCounts(template: seq<string>, bookedSlots: seq<string>, s: string)
    ensures multiset(RemainingSlots(template, bookedSlots))[s] ==
            if s in bookedSlots then 0 else multiset(template)[s]
  {
    if template != [] {
      RemainingCounts(template[1..], bookedSlots, s);
      assert template == [template[0]] + template[1..];
      assert multiset(template) == multiset([template[0]]) + multiset(template[1..]);
    }
  }

  /** A template none of whose slots is booked comes back unchanged. */
  lemma {:induction false} RemainingUntouched(template: seq<string>, bookedSlots: seq<string>)
    requires forall s :: s in template ==> s !in bookedSlots
    ensures RemainingSlots(template, bookedSlots) == template
  {
    if template != [] {
      assert template[0] in template;
      assert forall s :: s in template[1..] ==> s in template;
      RemainingUntouched(template[1..], bookedSlots);
      assert template == [template[0]] + template[1..];
    }
  }

  /** Only which slots are booked matters, not how often or in which order. */
  lemma {:induction false} RemainingDependsOnlyOnBookedSet(template: seq<string>, booked1: seq<string>, booked2: seq<string>)
    requires forall s :: s in booked1 <==> s in booked2
    ensures RemainingSlots(template, booked1) == RemainingSlots(template, booked2)
  {
    if template != [] {
      RemainingDependsOnlyOnBookedSet(template[1..], booked1, booked2);
    }
  }

  // ---------------------------------------------------------------------------
  // Properties of the whole response

  /** The slots the narrowing removes for treatment `name` are exactly the slots
      some booking on `date` for that treatment holds. */
  lemma BookedSlotsAreTakenSlots(store: seq<Booking>, date: string, name: string, s: string)
    ensures s in BookedSlots(OptionBooked(BookingsOn(store, date), name)) <==> SlotTaken(store, date, name, s)
  {
  }

  /** Same length and order as the catalogue; names and prices unchanged; each
      slot list a subsequence of its template. */
  lemma AvailabilityShape(catalogue: seq<ServiceOption>, store: seq<Booking>, date: string)
    ensures |Availability(catalogue, store, date)| == |catalogue|
    ensures forall i :: 0 <= i < |catalogue| ==>
      Availability(catalogue, store, date)[i].name == catalogue[i].name &&
      Availability(catalogue, store, date)[i].price == catalogue[i].price &&
      IsSubsequence(Availability(catalogue, store, date)[i].slots, catalogue[i].slots)
  {
    var alreadyBooked := BookingsOn(store, date);
    forall i | 0 <= i < |catalogue|
      ensures IsSubsequence(Availability(catalogue, store, date)[i].slots, catalogue[i].slots)
    {
      RemainingIsSubsequence(catalogue[i].slots, BookedSlots(OptionBooked(alreadyBooked, catalogue[i].name)));
    }
  }

  /** A template slot is missing from the response exactly when a booking on that
      date for that treatment holds it. */
  lemma SlotRemovedIffTaken(catalogue: seq<ServiceOption>, store: seq<Booking>, date: string, i: nat, s: string)
    requires i < |catalogue|
    ensures s in Availability(catalogue, store, date)[i].slots <==>
            s in catalogue[i].slots && !SlotTaken(store, date, catalogue[i].name, s)
  {
  }

  /** All copies of a taken slot are removed; a free slot keeps all its copies. */
  lemma SlotCopies(catalogue: seq<ServiceOption>, store: seq<Booking>, date: string, i: nat, s: string)
    requires i < |catalogue|
    ensures multiset(Availability(catalogue, store, date)[i].slots)[s] ==
            if SlotTaken(store, date, catalogue[i].name, s) then 0 else multiset(catalogue[i].slots)[s]
  {
    BookedSlotsAreTakenSlots(store, date, catalogue[i].name, s);
    RemainingCounts(catalogue[i].slots, BookedSlots(OptionBooked(BookingsOn(store, date), catalogue[i].name)), s);
  }

  /** With no booking on the queried date, every template comes back whole. */
  lemma NoBookingsKeepsTemplates(catalogue: seq<ServiceOption>, store: seq<Booking>, date: string)
    requires forall b :: b in store ==> b.appointmentDate != date
    ensures Availability(catalogue, store, date) == catalogue
  {
    var alreadyBooked := BookingsOn(store, date);
    forall i | 0 <= i < |catalogue|
      ensures Availability(catalogue, store, date)[i] == catalogue[i]
    {
      RemainingUntouched(catalogue[i].slots, BookedSlots(OptionBooked(alreadyBooked, catalogue[i].name)));
    }
  }

  /** Bookings for another date or another treatment do not affect an option,
      wherever they stand in the store. */
  lemma IrrelevantBookingsIgnored(catalogue: seq<ServiceOption>, pre: seq<Booking>, extra: seq<Booking>,
                                  post: seq<Booking>, date: string, i: nat)
    requires i < |catalogue|
    requires forall b :: b in extra ==> b.appointmentDate != date || b.treatmentName != catalogue[i].name
    ensures Availability(catalogue, pre + extra + post, date)[i] == Availability(catalogue, pre + post, date)[i]
  {
    var name := catalogue[i].name;
    forall s
      ensures s in BookedSlots(OptionBooked(BookingsOn(pre + extra + post, date), name)) <==>
              s in BookedSlots(OptionBooked(BookingsOn(pre + post, date), name))
    {
      BookedSlotsAreTakenSlots(pre + extra + post, date, name, s);
      BookedSlotsAreTakenSlots(pre + post, date, name, s);
      if SlotTaken(pre + extra + post, date, name, s) {
        var b :| b in pre + extra + post && b.appointmentDate == date && b.treatmentName == name && b.slot == s;
        assert b in pre + post;
      }
      if SlotTaken(pre + post, date, name, s) {
        var b :| b in pre + post && b.appointmentDate == date && b.treatmentName == name && b.slot == s;
        assert b in pre + extra + post;
      }
    }
    RemainingDependsOnlyOnBookedSet(catalogue[i].slots,
      BookedSlots(OptionBooked(BookingsOn(pre + extra + post, date), name)),
      BookedSlots(OptionBooked(BookingsOn(pre + post, date), name)));
  }
}
