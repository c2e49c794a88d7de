/**
  The write half of the create handler: one transaction that inserts the
  booking row, resolves the requested amenity names against the reference
  set and inserts the association rows, then shapes the response.
 */
module Writer {
  import opened Optional
  import opened Clock
  import opened Store
  import opened Shape
  import opened Validation

  /** The database calls of the create handler, in the order they run. */
  datatype Stage = CapacityQuery | Begin | InsertBooking | AmenityLookup | LinkInsert | Commit

  /** Storage behaviour is outside the model: a fault names the call that fails, if any. */
  datatype Fault = NoFault | FailAt(stage: Stage)

  /** Committed carries the new store and the response body; RolledBack
      means the store is left as it was. */
  datatype Transaction = Committed(store: Store, booking: BookingJson) | RolledBack

  /** SELECT id, name FROM amenities WHERE name = ANY(names): each reference
      amenity at most once, in table order; unknown names match nothing. */
  function Resolve(ams: seq<Amenity>, names: seq<string>): (r: seq<Amenity>)
    ensures forall a :: a in r <==> a in ams && a.name in names
    ensures multiset(r) <= multiset(ams)
    ensures names == [] ==> r == []
  {
    if ams == [] then []
    else
      assert ams == [ams[0]] + ams[1..];
      assert forall a :: a in ams[1..] ==> a in ams;
      (if ams[0].name in names then [ams[0]] else []) + Resolve(ams[1..], names)
  }

  /** Resolution never yields the same amenity, id or name twice. */
  lemma {:induction false} ResolveUnique(ams: seq<Amenity>, names: seq<string>)
    requires UniqueAmenityIds(ams) && UniqueAmenityNames(ams)
    ensures UniqueAmenityIds(Resolve(ams, names)) && UniqueAmenityNames(Resolve(ams, names))
  {
    if ams != [] {
      var tail := ams[1..];
      ResolveUnique(tail, names);
      var rest := Resolve(tail, names);
      var r := Resolve(ams, names);
      if ams[0].name in names {
        assert r == [ams[0]] + rest;
        forall j | 0 < j < |r| ensures r[0].id != r[j].id && r[0].name != r[j].name {
          assert r[j] in rest;
          var k :| 0 <= k < |tail| && tail[k] == r[j];
          assert ams[k + 1] == r[j];
        }
      } else {
        assert r == rest;
      }
    }
  }

  /** The booking_amenities rows for a booking and its resolved amenities. */
  function Pairs(id: BookingId, found: seq<Amenity>): (r: seq<Link>)
    ensures |r| == |found|
    ensures forall i :: 0 <= i < |r| ==> r[i] == Link(id, found[i].id)
  {
    if found == [] then [] else [Link(id, found[0].id)] + Pairs(id, found[1..])
  }

  function Names(found: seq<Amenity>): (r: seq<string>)
    ensures |r| == |found|
    ensures forall i :: 0 <= i < |r| ==> r[i] == found[i].name
  {
    if found == [] then [] else [found[0].name] + Names(found[1..])
  }

  /** The booking row the insert creates. */
  function NewBooking(s: Store, req: BookingRequest, now: Stamp): (b: Booking)
    ensures forall i :: 0 <= i < |s.bookings| ==> s.bookings[i].id != b.id
    ensures b.status == Active && b.createdAt == now
    ensures b.memberName == req.memberName && b.date == req.date && b.startTime == req.startTime
    ensures b.partySize == req.size
  {
    Booking(NextId(s.bookings), req.memberName, req.date, req.startTime, req.size, NewBookingStatus, now)
  }

  /** The row RETURNING hands back (the driver renders TIME as text), with the
      amenity names attached. */
  function ReturnedRow(b: Booking, names: seq<string>): Row {
    Row(b.id, b.memberName, b.date, TimeString(Render(b.startTime)), b.partySize, b.status, Some(names), b.createdAt)
  }

  function Finish(st: Store, b: Booking, names: seq<string>, fault: Fault): Transaction {
    if fault == FailAt(Commit) then RolledBack
    else Committed(st, MapBookingRow(ReturnedRow(b, names)))
  }

  /** BEGIN, insert the booking, resolve and link the amenities, COMMIT. A
      fault at any call that is reached rolls the whole unit back. */
  function Create(s: Store, req: BookingRequest, now: Stamp, fault: Fault): (r: Transaction)
    ensures r.Committed? ==>
              var b := NewBooking(s, req, now);
              var found := Resolve(s.amenities, req.amenityNames);
              && r.store.bookings == s.bookings + [b]
              && r.store.amenities == s.amenities
              && r.store.links == s.links + Pairs(b.id, found)
              && r.booking == MapBookingRow(ReturnedRow(b, Names(found)))
    ensures fault == NoFault ==> r.Committed?
    ensures fault.FailAt? && fault.stage in {Begin, InsertBooking, Commit} ==> r.RolledBack?
    ensures fault == FailAt(AmenityLookup) && req.amenityNames != [] ==> r.RolledBack?
    ensures fault == FailAt(LinkInsert) && Resolve(s.amenities, req.amenityNames) != [] ==> r.RolledBack?
    ensures fault == FailAt(AmenityLookup) && req.amenityNames == [] ==> r.Committed?
    ensures fault == FailAt(LinkInsert) && Resolve(s.amenities, req.amenityNames) == [] ==> r.Committed?
  {
    if fault == FailAt(Begin) || fault == FailAt(InsertBooking) then RolledBack
    else
      var b := NewBooking(s, req, now);
      var bookings := s.bookings + [b];
      if |req.amenityNames| == 0 then
        assert Resolve(s.amenities, req.amenityNames) == [];
        Finish(Store(bookings, s.amenities, s.links), b, [], fault)
      else if fault == FailAt(AmenityLookup) then RolledBack
      else
        var found := Resolve(s.amenities, req.amenityNames);
        if |found| == 0 then
          Finish(Store(bookings, s.amenities, s.links), b, [], fault)
        else if fault == FailAt(LinkInsert) then RolledBack
        else
          Finish(Store(bookings, s.amenities, s.links + Pairs(b.id, found)), b, Names(found), fault)
  }

  /** The response's amenities are exactly the reference amenities whose
      names were requested: no duplicates, unknown names dropped. */
  lemma CreatedAmenities(s: Store, req: BookingRequest, now: Stamp, fault: Fault)
    requires Wf(s)
    requires Create(s, req, now, fault).Committed?
    ensures var names := Create(s, req, now, fault).booking.amenities;
      && (forall n :: n in names <==> n in req.amenityNames && exists a :: a in s.amenities && a.name == n)
      && (forall i, j :: 0 <= i < j < |names| ==> names[i] != names[j])
  {
    var found := Resolve(s.amenities, req.amenityNames);
    ResolveUnique(s.amenities, req.amenityNames);
    var names := Names(found);
    forall n ensures n in names <==> n in req.amenityNames && exists a :: a in s.amenities && a.name == n {
      if n in names {
        var i :| 0 <= i < |names| && names[i] == n;
        assert found[i] in found;
      }
      if n in req.amenityNames && exists a :: a in s.amenities && a.name == n {
        var a :| a in s.amenities && a.name == n;
        assert a in found;
        var i :| 0 <= i < |found| && found[i] == a;
        assert names[i] == n;
      }
    }
  }

  /** The create response shows the start time as TO_CHAR's "HH:MM". */
  lemma CreatedStartTime(s: Store, req: BookingRequest, now: Stamp, fault: Fault)
    requires Create(s, req, now, fault).Committed?
    ensures Create(s, req, now, fault).booking.startTime == TimeString(HourMinute(req.startTime))
  {
    SliceOfRenderIsHourMinute(req.startTime);
  }

  /** A committed create keeps the table constraints. */
  lemma CreatePreservesWf(s: Store, req: BookingRequest, now: Stamp, fault: Fault)
    requires Wf(s)
    requires req.size > 0
    requires Create(s, req, now, fault).Committed?
    ensures Wf(Create(s, req, now, fault).store)
  {
    var b := NewBooking(s, req, now);
    var found := Resolve(s.amenities, req.amenityNames);
    var st := Create(s, req, now, fault).store;
    assert st == Store(s.bookings + [b], s.amenities, s.links + Pairs(b.id, found));
    ResolveUnique(s.amenities, req.amenityNames);
    AddedLinksValid(s, b, found);
    AddedLinksDistinct(s, b, found);
    AddedBookingKeepsRows(s.bookings, b);
  }

  lemma AddedBookingKeepsRows(bs: seq<Booking>, b: Booking)
    requires UniqueBookingIds(bs)
    requires forall i :: 0 <= i < |bs| ==> bs[i].partySize > 0 && bs[i].id < b.id
    requires b.partySize > 0
    ensures UniqueBookingIds(bs + [b])
    ensures forall i :: 0 <= i < |bs + [b]| ==> (bs + [b])[i].partySize > 0
  {
  }

  lemma AddedLinksValid(s: Store, b: Booking, found: seq<Amenity>)
    requires forall i :: 0 <= i < |s.links| ==>
               HasBooking(s.bookings, s.links[i].booking) && HasAmenity(s.amenities, s.links[i].amenity)
    requires forall a :: a in found ==> a in s.amenities
    ensures var bs := s.bookings + [b];
      var links := s.links + Pairs(b.id, found);
      forall i :: 0 <= i < |links| ==> HasBooking(bs, links[i].booking) && HasAmenity(s.amenities, links[i].amenity)
  {
    var bs := s.bookings + [b];
    var links := s.links + Pairs(b.id, found);
    assert bs[|s.bookings|] == b;
    forall i | 0 <= i < |links|
      ensures HasBooking(bs, links[i].booking) && HasAmenity(s.amenities, links[i].amenity)
    {
      if i < |s.links| {
        assert links[i] == s.links[i];
        var k :| 0 <= k < |s.bookings| && s.bookings[k].id == s.links[i].booking;
        assert bs[k] == s.bookings[k];
      } else {
        var a := found[i - |s.links|];
        assert links[i] == Link(b.id, a.id);
        assert a in found;
        var k :| 0 <= k < |s.amenities| && s.amenities[k] == a;
      }
    }
  }

  lemma AddedLinksDistinct(s: Store, b: Booking, found: seq<Amenity>)
    requires UniqueLinks(s.links)
    requires forall i :: 0 <= i < |s.links| ==> HasBooking(s.bookings, s.links[i].booking)
    requires forall i :: 0 <= i < |s.bookings| ==> s.bookings[i].id < b.id
    requires UniqueAmenityIds(found)
    ensures UniqueLinks(s.links + Pairs(b.id, found))
  {
    var links := s.links + Pairs(b.id, found);
    forall i, j | 0 <= i < j < |links| ensures links[i] != links[j] {
      if j >= |s.links| && i < |s.links| {
        var k :| 0 <= k < |s.bookings| && s.bookings[k].id == s.links[i].booking;
        assert links[i].booking < b.id;
      } else if i >= |s.links| {
        assert links[i].amenity == found[i - |s.links|].id;
        assert links[j].amenity == found[j - |s.links|].id;
      }
    }
  }
}
