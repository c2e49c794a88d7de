/**
  The three tables the booking API reads and writes: bookings, the fixed
  reference set of amenities, and the booking_amenities association pairs.
 */
module Store {
  import opened Clock

  type BookingId = nat
  type AmenityId = nat

  /** A calendar day; only equality and order matter, e.g. days since an epoch. */
  type Date = int

  /** The created_at value the database assigns; opaque to the model. */
  type Stamp = int

  /** A status text other than the one the capacity query counts. */
  type OtherStatus = v: string | v != "active" witness "cancelled"

  /** Only Active is ever written or read; every other status text is
      reserved, so no reserved value spells "active". */
  datatype Status = Active | Reserved(value: OtherStatus)

  /** The text stored in the status column. */
  function StatusText(st: Status): (text: string)
    ensures text == "active" <==> st == Active
    ensures st.Reserved? ==> text == st.value
  {
    match st
    case Active => "active"
    case Reserved(v) => v
  }

  /** The insert never names a status, so a new row takes the column default,
      which this model takes to be Active. */
  const NewBookingStatus: Status := Active

  datatype Booking = Booking(
    id: BookingId,
    memberName: string,
    date: Date,
    startTime: Time,
    partySize: int,
    status: Status,
    createdAt: Stamp)

  datatype Amenity = Amenity(id: AmenityId, name: string)

  /** One booking_amenities row. */
  datatype Link = Link(booking: BookingId, amenity: AmenityId)

  datatype Store = Store(bookings: seq<Booking>, amenities: seq<Amenity>, links: seq<Link>)

  predicate UniqueBookingIds(bs: seq<Booking>) {
    forall i, j :: 0 <= i < j < |bs| ==> bs[i].id != bs[j].id
  }

  predicate UniqueAmenityIds(ams: seq<Amenity>) {
    forall i, j :: 0 <= i < j < |ams| ==> ams[i].id != ams[j].id
  }

  predicate UniqueAmenityNames(ams: seq<Amenity>) {
    forall i, j :: 0 <= i < j < |ams| ==> ams[i].name != ams[j].name
  }

  predicate UniqueLinks(links: seq<Link>) {
    forall i, j :: 0 <= i < j < |links| ==> links[i] != links[j]
  }

  predicate HasBooking(bs: seq<Booking>, id: BookingId) {
    exists k :: 0 <= k < |bs| && bs[k].id == id
  }

  predicate HasAmenity(ams: seq<Amenity>, id: AmenityId) {
    exists k :: 0 <= k < |ams| && ams[k].id == id
  }

  /** The table constraints: keys are unique, amenity names are unique,
      party sizes are positive and every association row points at a booking
      and at an amenity that exist. */
  predicate Wf(s: Store) {
    && UniqueBookingIds(s.bookings)
    && UniqueAmenityIds(s.amenities)
    && UniqueAmenityNames(s.amenities)
    && UniqueLinks(s.links)
    && (forall i :: 0 <= i < |s.bookings| ==> s.bookings[i].partySize > 0)
    && (forall i :: 0 <= i < |s.links| ==>
          HasBooking(s.bookings, s.links[i].booking) && HasAmenity(s.amenities, s.links[i].amenity))
  }

  /** An abstract fresh id: larger than every id in use. */
  function NextId(bs: seq<Booking>): (id: BookingId)
    ensures forall i :: 0 <= i < |bs| ==> bs[i].id < id
  {
    if bs == [] then 1
    else
      var rest := NextId(bs[1..]);
      assert forall i :: 1 <= i < |bs| ==> bs[i] == bs[1..][i - 1];
      if bs[0].id < rest then rest else bs[0].id + 1
  }
}
