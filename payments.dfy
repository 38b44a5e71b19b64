/** Payment finalisation of POST /payments: the booking whose id the payment
    names is marked paid and gets the payment's transaction id. */
module Payments {
  import opened Records
  import opened Admission

  /** The `$set: { paid: true, transectionID }` patch applied to one booking. */
  function Paid(b: Booking, transectionID: string): (r: Booking)
    ensures r.paid && r.transectionID == Some(transectionID)
    ensures r.(paid := b.paid, transectionID := b.transectionID) == b
  {
    b.(paid := true, transectionID := Some(transectionID))
  }

  /** No two bookings share an id. */
  predicate DistinctIds(store: seq<Booking>)
  {
    forall i, j :: 0 <= i < j < |store| ==> store[i].id != store[j].id
  }

  /** `updateOne({ _id: id }, patch)`: the first booking with that id is patched;
      ids, keys and slots of every booking stay as they were, and a store without
      that id is left unchanged. */
  function MarkPaid(store: seq<Booking>, id: nat, transectionID: string): (r: seq<Booking>)
    ensures |r| == |store|
    ensures forall i :: 0 <= i < |r| ==>
      r[i].id == store[i].id && KeyOf(r[i]) == KeyOf(store[i]) && r[i].slot == store[i].slot
    ensures (forall i :: 0 <= i < |store| ==> store[i].id != id) ==> r == store
  {
    if store == [] then []
    else if store[0].id == id then [Paid(store[0], transectionID)] + store[1..]
    else [store[0]] + MarkPaid(store[1..], id, transectionID)
  }

  /** With distinct ids, exactly the booking with that id is patched and every
      other booking is untouched. */
  lemma {:induction false} MarkPaidTouchesOnlyTarget(store: seq<Booking>, id: nat, transectionID: string, i: nat)
    requires DistinctIds(store)
    requires i < |store|
    ensures MarkPaid(store, id, transectionID)[i] ==
            if store[i].id == id then Paid(store[i], transectionID) else store[i]
  {
    if store[0].id == id {
      if i > 0 {
        assert store[i].id != id;
      }
    } else if i > 0 {
      assert DistinctIds(store[1..]) by {
        forall a, b | 0 <= a < b < |store| - 1 ensures store[1..][a].id != store[1..][b].id {
          assert store[1..][a] == store[a + 1] && store[1..][b] == store[b + 1];
        }
      }
      MarkPaidTouchesOnlyTarget(store[1..], id, transectionID, i - 1);
    }
  }

  /** Marking a booking paid keeps the store's invariants. */
  lemma MarkPaidPreservesInvariants(store: seq<Booking>, id: nat, transectionID: string)
    ensures DistinctIds(store) ==> DistinctIds(MarkPaid(store, id, transectionID))
    ensures AtMostOnePerUserServiceDay(store) ==> AtMostOnePerUserServiceDay(MarkPaid(store, id, transectionID))
  {
  }
}
