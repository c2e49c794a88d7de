/**
  The two request handlers as one state machine over the store: a request
  and the current store give the next store and the response.
 */
module Server {
  import opened Ordering
  import opened Clock
  import opened Store
  import opened Shape
  import opened Validation
  import opened Capacity
  import opened Writer
  import opened Reader

  const CreateErrorMessage: string := "Server error creating booking"
  const FetchErrorMessage: string := "Server error fetching bookings"

  /** POST carries the body, the time the database would stamp, and which
      database call fails, if any; GET carries whether its query fails. */
  datatype Request =
    | PostBooking(body: BookingBody, now: Stamp, fault: Fault)
    | GetBookings(queryFails: bool)

  datatype Response =
    | Created(booking: BookingJson)
    | Listed(entries: seq<BookingJson>)
    | BadRequest(error: string)
    | ServerError(error: string)

  function StatusCode(r: Response): int {
    match r
    case Created(_) => 201
    case Listed(_) => 200
    case BadRequest(_) => 400
    case ServerError(_) => 500
  }

  /** POST /api/bookings: validate, check capacity, then run the write
      transaction. Anything but a commit leaves the store as it was. */
  function Post(s: Store, body: BookingBody, now: Stamp, fault: Fault): (r: (Store, Response))
    ensures !r.1.Created? ==> r.0 == s
    ensures StatusCode(r.1) in {201, 400, 500}
  {
    match Validate(body)
    case Invalid(message) => (s, BadRequest(message))
    case Valid(req) =>
      if fault == FailAt(CapacityQuery) then (s, ServerError(CreateErrorMessage))
      else
        match CheckCapacity(s.bookings, req.date, req.startTime, req.size)
        case Full(message) => (s, BadRequest(message))
        case Admit =>
          match Create(s, req, now, fault)
          case RolledBack => (s, ServerError(CreateErrorMessage))
          case Committed(next, booking) => (next, Created(booking))
  }

  /** GET /api/bookings: a read of the store. */
  function Get(s: Store, queryFails: bool): (r: (Store, Response))
    ensures r.0 == s
    ensures queryFails <==> r.1 == ServerError(FetchErrorMessage)
    ensures !queryFails ==> r.1 == Listed(List(s))
  {
    if queryFails then (s, ServerError(FetchErrorMessage)) else (s, Listed(List(s)))
  }

  function Step(s: Store, req: Request): (r: (Store, Response))
    ensures !r.1.Created? ==> r.0 == s
  {
    match req
    case PostBooking(body, now, fault) => Post(s, body, now, fault)
    case GetBookings(queryFails) => Get(s, queryFails)
  }

  predicate HasRequiredFields(body: BookingBody) {
    body.memberName.Given? && body.date.Given? && body.startTime.Given?
  }

  /** A missing or falsy memberName, date or startTime is refused with the
      exact message whatever the store holds and whatever the database would do. */
  lemma MissingFieldRejected(s: Store, body: BookingBody, now: Stamp, fault: Fault)
    ensures !HasRequiredFields(body) <==>
            Post(s, body, now, fault) == (s, BadRequest(RequiredFieldsMessage))
  {
  }

  /** A party size Number() cannot read, or a negative one, is refused
      before the capacity query runs. */
  lemma BadPartySizeRejected(s: Store, body: BookingBody, now: Stamp, fault: Fault)
    requires HasRequiredFields(body)
    ensures (body.partySize.NotANumber? || (body.partySize.Number? && body.partySize.n < 0)) <==>
            Post(s, body, now, fault) == (s, BadRequest(PartySizeMessage))
  {
  }

  /** Once the capacity query answers, a valid request for a slot whose
      active total plus its party size exceeds six is refused with the
      slot-full message and nothing is written, whatever the later database
      calls would do; and only such a request is refused that way. With no
      storage failure, every other valid request is created. */
  lemma CapacityDecides(s: Store, body: BookingBody, now: Stamp, fault: Fault)
    requires Validate(body).Valid?
    ensures var req := Validate(body).request;
      var full := SlotTotal(s.bookings, req.date, req.startTime) + req.size > MaxPerSlot;
      && (fault != FailAt(CapacityQuery) ==>
            (Post(s, body, now, fault) == (s, BadRequest(SlotFullMessage)) <==> full))
      && (fault == NoFault ==> (Post(s, body, now, fault).1.Created? <==> !full))
  {
  }

  /** A valid request answers 201 exactly when the capacity query runs, the
      slot has room and the write transaction commits; the 201 then carries
      the transaction's response, the mapped row it inserted, and the store
      becomes the committed one. */
  lemma CreatedIffCommitted(s: Store, body: BookingBody, now: Stamp, fault: Fault)
    requires Validate(body).Valid?
    ensures var req := Validate(body).request;
      var t := Create(s, req, now, fault);
      && (Post(s, body, now, fault).1.Created? <==>
            && fault != FailAt(CapacityQuery)
            && CheckCapacity(s.bookings, req.date, req.startTime, req.size).Admit?
            && t.Committed?)
      && (Post(s, body, now, fault).1.Created? ==>
            Post(s, body, now, fault) == (t.store, Created(t.booking)))
  {
  }

  /** A successful create appends exactly one active booking carrying the
      request's fields and a fresh id, adds one association row per resolved
      amenity, and changes nothing else. */
  lemma CreateAddsOneBooking(s: Store, body: BookingBody, now: Stamp, fault: Fault)
    requires Post(s, body, now, fault).1.Created?
    ensures Validate(body).Valid?
    ensures var req := Validate(body).request;
      var next := Post(s, body, now, fault).0;
      && |next.bookings| == |s.bookings| + 1
      && next.bookings[..|s.bookings|] == s.bookings
      && var b := next.bookings[|s.bookings|];
      && (forall i :: 0 <= i < |s.bookings| ==> s.bookings[i].id != b.id)
      && b.memberName == req.memberName && b.date == req.date && b.startTime == req.startTime
      && b.partySize == req.size && b.status == Active && b.createdAt == now
      && next.amenities == s.amenities
      && next.links[..|s.links|] == s.links
      && (forall i :: |s.links| <= i < |next.links| ==>
            && next.links[i].booking == b.id
            && exists a :: a in s.amenities && a.name in req.amenityNames && a.id == next.links[i].amenity)
  {
    var req := Validate(body).request;
    var found := Resolve(s.amenities, req.amenityNames);
    var next := Post(s, body, now, fault).0;
    assert next.links == s.links + Pairs(NextId(s.bookings), found);
    forall i | |s.links| <= i < |next.links|
      ensures exists a :: a in s.amenities && a.name in req.amenityNames && a.id == next.links[i].amenity
    {
      assert found[i - |s.links|] in found;
    }
  }

  /** Every request keeps the table constraints and the per-slot limit. */
  lemma StepPreservesInvariants(s: Store, req: Request)
    requires Wf(s) && WithinCapacity(s.bookings)
    ensures Wf(Step(s, req).0) && WithinCapacity(Step(s, req).0.bookings)
  {
    if req.PostBooking? && Step(s, req).1.Created? {
      var r := Validate(req.body).request;
      var b := NewBooking(s, r, req.now);
      CreatePreservesWf(s, r, req.now, req.fault);
      AdmittedKeepsCapacity(s.bookings, b);
    }
  }

  /** Listing does not write, so listing twice in a row answers the same. */
  lemma ListingIsReadOnly(s: Store, queryFails: bool)
    ensures Step(s, GetBookings(queryFails)).0 == s
    ensures Step(Step(s, GetBookings(queryFails)).0, GetBookings(queryFails)) == Step(s, GetBookings(queryFails))
  {
  }

  /** The listing entry and the create response show the same booking: same
      fields, same "HH:MM" start time, the same amenity names (sorted in the
      listing). */
  predicate SameBooking(e: BookingJson, c: BookingJson) {
    && e.id == c.id && e.memberName == c.memberName && e.date == c.date
    && e.startTime == c.startTime && e.partySize == c.partySize
    && e.status == c.status && e.createdAt == c.createdAt
    && multiset(e.amenities) == multiset(c.amenities)
    && Sorted(e.amenities, LexLe)
  }

  predicate ListsBooking(r: seq<BookingJson>, c: BookingJson) {
    exists i :: 0 <= i < |r| && SameBooking(r[i], c)
  }

  lemma {:induction false} JoinedNamesOfPairs(ams: seq<Amenity>, id: BookingId, found: seq<Amenity>)
    requires UniqueAmenityIds(ams)
    requires forall a :: a in found ==> a in ams
    ensures JoinedNames(Pairs(id, found), ams, id) == Names(found)
  {
    if found != [] {
      assert Pairs(id, found)[1..] == Pairs(id, found[1..]);
      assert Names(found) == [found[0].name] + Names(found[1..]);
      NamesWithIdUnique(ams, found[0]);
      JoinedNamesOfPairs(ams, id, found[1..]);
    }
  }

  /** The association rows of a committed create join back to exactly the
      amenity names of its response. */
  lemma CommittedJoinsItsAmenities(s: Store, req: BookingRequest, now: Stamp, fault: Fault)
    requires Wf(s)
    requires Create(s, req, now, fault).Committed?
    ensures var t := Create(s, req, now, fault);
      JoinedNames(t.store.links, t.store.amenities, NextId(s.bookings)) == t.booking.amenities
  {
    var t := Create(s, req, now, fault);
    var id := NextId(s.bookings);
    var found := Resolve(s.amenities, req.amenityNames);
    forall i | 0 <= i < |s.links| ensures s.links[i].booking != id {
      assert HasBooking(s.bookings, s.links[i].booking);
      var k :| 0 <= k < |s.bookings| && s.bookings[k].id == s.links[i].booking;
    }
    NoMatchingLinks(s.links, s.amenities, id);
    JoinedNamesAppend(s.links, Pairs(id, found), s.amenities, id);
    JoinedNamesOfPairs(s.amenities, id, found);
  }

  /** After a committed create, the listing shows the new booking as the
      create response showed it. */
  lemma CommittedIsListed(s: Store, req: BookingRequest, now: Stamp, fault: Fault)
    requires Wf(s)
    requires Create(s, req, now, fault).Committed?
    ensures var t := Create(s, req, now, fault);
      ListsBooking(List(t.store), t.booking)
  {
    var t := Create(s, req, now, fault);
    var b := NewBooking(s, req, now);
    CreatedStartTime(s, req, now, fault);
    CommittedJoinsItsAmenities(s, req, now, fault);
    ListSpec(t.store);
    var r := List(t.store);
    assert t.store.bookings[|s.bookings|] == b;
    assert Shows(r, b);
    var i :| 0 <= i < |r| && Describes(r[i], b);
    assert SameBooking(r[i], t.booking);
  }

  /** After a successful create, the next listing shows the new booking as
      active, with the start time and amenity names of the create response. */
  lemma CreatedBookingIsListed(s: Store, body: BookingBody, now: Stamp, fault: Fault)
    requires Wf(s)
    requires Post(s, body, now, fault).1.Created?
    ensures var (next, resp) := Post(s, body, now, fault);
      && |next.bookings| == |s.bookings| + 1
      && resp.booking.id == next.bookings[|s.bookings|].id
      && resp.booking.status == Active
      && ListsBooking(List(next), resp.booking)
  {
    CommittedIsListed(s, Validate(body).request, now, fault);
  }

  /** Requesting "wifi", "parking" and an unknown name, where only the first
      two exist, books those two: the create response lists them in table
      order, the listing in name order. */
  lemma AmenityExample(now: Stamp)
    ensures var s := Store([], [Amenity(1, "wifi"), Amenity(2, "parking")], []);
      var body := BookingBody(Given("Ana"), Given(0), Given(TimeOfDay(9, 5, 0)), NoSize,
                              Array(["wifi", "parking", "doesnotexist"]));
      var (next, resp) := Post(s, body, now, NoFault);
      && resp.Created?
      && resp.booking.amenities == ["wifi", "parking"]
      && resp.booking.partySize == 1
      && resp.booking.startTime == TimeString("09:05")
      && List(next)[0].amenities == ["parking", "wifi"]
  {
    var s := Store([], [Amenity(1, "wifi"), Amenity(2, "parking")], []);
    var body := BookingBody(Given("Ana"), Given(0), Given(TimeOfDay(9, 5, 0)), NoSize,
                            Array(["wifi", "parking", "doesnotexist"]));
    var req := BookingRequest("Ana", 0, TimeOfDay(9, 5, 0), 1, ["wifi", "parking", "doesnotexist"]);
    assert Validate(body) == Valid(req);
    var b := NewBooking(s, req, now);
    var next := Store([b], s.amenities, [Link(b.id, 1), Link(b.id, 2)]);
    ExampleCreate(s, req, now);
    assert Post(s, body, now, NoFault) == (next, Created(Create(s, req, now, NoFault).booking));
    ExampleJoin(next, b.id);
    ExampleSort();
    SlotLeTotalPreorder();
    assert Sort([b], SlotLe) == [b];
    assert List(next) == [Entry(next, b)];
  }

  lemma ExampleCreate(s: Store, req: BookingRequest, now: Stamp)
    requires s == Store([], [Amenity(1, "wifi"), Amenity(2, "parking")], [])
    requires req == BookingRequest("Ana", 0, TimeOfDay(9, 5, 0), 1, ["wifi", "parking", "doesnotexist"])
    ensures CheckCapacity(s.bookings, req.date, req.startTime, req.size) == Admit
    ensures var t := Create(s, req, now, NoFault);
      && t.store == Store([NewBooking(s, req, now)], s.amenities, [Link(1, 1), Link(1, 2)])
      && t.booking.amenities == ["wifi", "parking"]
      && t.booking.partySize == 1
      && t.booking.startTime == TimeString("09:05")
  {
    ExampleResolve(s.amenities, req.amenityNames);
    assert NextId([]) == 1;
    CreatedStartTime(s, req, now, NoFault);
    ExampleTime(req.startTime);
  }

  lemma ExampleResolve(ams: seq<Amenity>, names: seq<string>)
    requires ams == [Amenity(1, "wifi"), Amenity(2, "parking")]
    requires names == ["wifi", "parking", "doesnotexist"]
    ensures Resolve(ams, names) == ams
    ensures Names(ams) == ["wifi", "parking"]
    ensures Pairs(1, ams) == [Link(1, 1), Link(1, 2)]
  {
    assert ams[1..] == [Amenity(2, "parking")];
  }

  lemma ExampleTime(t: Time)
    requires t == TimeOfDay(9, 5, 0)
    ensures HourMinute(t) == "09:05"
  {
  }

  lemma ExampleJoin(s: Store, id: BookingId)
    requires s.amenities == [Amenity(1, "wifi"), Amenity(2, "parking")]
    requires s.links == [Link(id, 1), Link(id, 2)]
    ensures JoinedNames(s.links, s.amenities, id) == ["wifi", "parking"]
  {
    assert s.amenities[1..] == [Amenity(2, "parking")];
    assert NamesWithId(s.amenities, 1) == ["wifi"];
    assert NamesWithId(s.amenities, 2) == ["parking"];
    assert s.links[1..] == [Link(id, 2)];
    assert s.links[1..][1..] == [];
    assert JoinedNames(s.links[1..][1..], s.amenities, id) == [];
    assert JoinedNames(s.links[1..], s.amenities, id) == ["parking"];
  }

  lemma ExampleSort()
    ensures TotalPreorder(LexLe) && Sort(["wifi", "parking"], LexLe) == ["parking", "wifi"]
  {
    LexTotalPreorder();
    assert !LexLe("wifi", "parking");
    assert ["wifi", "parking"][1..] == ["parking"];
    assert Sort(["parking"], LexLe) == ["parking"];
    assert Insert("wifi", ["parking"], LexLe) == ["parking", "wifi"];
  }

  /** A database failure the handler reaches answers 500 with the generic
      message and leaves the store as it was: at the capacity query, or
      anywhere inside the write transaction. */
  lemma StorageFailureAnswers500(s: Store, body: BookingBody, now: Stamp, fault: Fault)
    requires Validate(body).Valid?
    ensures var req := Validate(body).request;
      Post(s, body, now, fault) == (s, ServerError(CreateErrorMessage)) <==>
        || fault == FailAt(CapacityQuery)
        || (&& CheckCapacity(s.bookings, req.date, req.startTime, req.size).Admit?
            && Create(s, req, now, fault).RolledBack?)
  {
  }

  /** If the association insert fails after the booking insert, neither
      the booking nor any association row persists. */
  lemma FailedLinkInsertPersistsNothing(s: Store, body: BookingBody, now: Stamp)
    requires Validate(body).Valid?
    requires var req := Validate(body).request;
      && CheckCapacity(s.bookings, req.date, req.startTime, req.size).Admit?
      && Resolve(s.amenities, req.amenityNames) != []
    ensures Post(s, body, now, FailAt(LinkInsert)) == (s, ServerError(CreateErrorMessage))
  {
  }
}
