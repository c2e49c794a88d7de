/**
  The capacity guard: at most six people per (date, start time) slot,
  counting only active bookings.
 */
module Capacity {
  import opened Clock
  import opened Store

  const MaxPerSlot: int := 6
  const SlotFullMessage: string := "This time slot is full. Max 6 people per slot."

  /** Whether a booking takes up room in the slot. */
  predicate Occupies(b: Booking, date: Date, time: Time) {
    b.date == date && b.startTime == time && b.status == Active
  }

  /** COALESCE(SUM(party_size), 0) over the active bookings of the slot. */
  function SlotTotal(bs: seq<Booking>, date: Date, time: Time): (total: int)
    ensures (forall i :: 0 <= i < |bs| ==> bs[i].partySize > 0) ==> total >= 0
    ensures (forall i :: 0 <= i < |bs| ==> !Occupies(bs[i], date, time)) ==> total == 0
    ensures ((exists i :: 0 <= i < |bs| && Occupies(bs[i], date, time))
             && (forall i :: 0 <= i < |bs| ==> bs[i].partySize > 0)) ==> total > 0
  {
    if bs == [] then 0
    else (if Occupies(bs[0], date, time) then bs[0].partySize else 0) + SlotTotal(bs[1..], date, time)
  }

  /** Every slot holds at most six people. */
  ghost predicate WithinCapacity(bs: seq<Booking>) {
    forall date, time :: SlotTotal(bs, date, time) <= MaxPerSlot
  }

  /** Occupies is the row filter of the capacity query: same date, same
      start time, and the status column holding 'active'. */
  lemma OccupiesIsQueryFilter(b: Booking, date: Date, time: Time)
    ensures Occupies(b, date, time)
            <==> b.date == date && b.startTime == time && StatusText(b.status) == "active"
  {
  }

  datatype Decision = Admit | Full(message: string)

  function CheckCapacity(bs: seq<Booking>, date: Date, time: Time, size: int): (d: Decision)
    ensures d.Full? ==> d.message == SlotFullMessage
  {
    var currentTotal := SlotTotal(bs, date, time);
    if currentTotal + size > MaxPerSlot then Full(SlotFullMessage) else Admit
  }

  /** Adding one booking changes the total of its own slot only, and only when active. */
  lemma {:induction false} SlotTotalAppend(bs: seq<Booking>, b: Booking, date: Date, time: Time)
    ensures SlotTotal(bs + [b], date, time)
            == SlotTotal(bs, date, time) + (if Occupies(b, date, time) then b.partySize else 0)
  {
    if bs != [] {
      assert (bs + [b])[1..] == bs[1..] + [b];
      SlotTotalAppend(bs[1..], b, date, time);
    }
  }

  /** A slot nobody occupies totals zero. */
  lemma {:induction false} EmptySlotTotalsZero(bs: seq<Booking>, date: Date, time: Time)
    requires forall i :: 0 <= i < |bs| ==> !Occupies(bs[i], date, time)
    ensures SlotTotal(bs, date, time) == 0
  {
    if bs != [] {
      EmptySlotTotalsZero(bs[1..], date, time);
    }
  }

  /** The guard admits exactly when the slot, with the new active booking
      added, still holds at most six people. */
  lemma AdmitIffSlotStaysWithinCapacity(bs: seq<Booking>, b: Booking)
    requires b.status == Active
    ensures CheckCapacity(bs, b.date, b.startTime, b.partySize).Admit?
            <==> SlotTotal(bs + [b], b.date, b.startTime) <= MaxPerSlot
  {
    SlotTotalAppend(bs, b, b.date, b.startTime);
  }

  /** Adding an admitted booking keeps every slot within capacity. */
  lemma AdmittedKeepsCapacity(bs: seq<Booking>, b: Booking)
    requires WithinCapacity(bs)
    requires CheckCapacity(bs, b.date, b.startTime, b.partySize).Admit?
    ensures WithinCapacity(bs + [b])
  {
    forall date, time ensures SlotTotal(bs + [b], date, time) <= MaxPerSlot {
      SlotTotalAppend(bs, b, date, time);
    }
  }

  /** With five people in a slot, one more fits and two more do not. */
  lemma CapacityBoundary(bs: seq<Booking>, date: Date, time: Time)
    requires SlotTotal(bs, date, time) == 5
    ensures CheckCapacity(bs, date, time, 1) == Admit
    ensures CheckCapacity(bs, date, time, 2) == Full(SlotFullMessage)
  {
  }
}
