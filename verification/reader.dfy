/**
  The listing query: every booking LEFT JOINed with its amenities, grouped
  per booking, amenity names aggregated in name order (empty when there are
  none), rows ordered by date and then start time.
 */
module Reader {
  import opened Ordering
  import opened Clock
  import opened Store
  import opened Shape

  predicate IsAmenityName(ams: seq<Amenity>, n: string) {
    exists a :: a in ams && a.name == n
  }

  /** Names of the reference amenities with the given id (the inner join step). */
  function NamesWithId(ams: seq<Amenity>, id: AmenityId): (r: seq<string>)
    ensures |r| <= |ams|
    ensures forall n :: n in r ==> IsAmenityName(ams, n)
  {
    if ams == [] then []
    else (if ams[0].id == id then [ams[0].name] else []) + NamesWithId(ams[1..], id)
  }

  /** The non-null amenity names joined to one booking, in association-row order. */
  function JoinedNames(links: seq<Link>, ams: seq<Amenity>, id: BookingId): (r: seq<string>)
    ensures forall n :: n in r ==> IsAmenityName(ams, n)
    ensures (forall i :: 0 <= i < |links| ==> links[i].booking != id) ==> r == []
  {
    if links == [] then []
    else (if links[0].booking == id then NamesWithId(ams, links[0].amenity) else [])
         + JoinedNames(links[1..], ams, id)
  }

  /** ORDER BY b.date, b.start_time. */
  predicate SlotLe(a: Booking, b: Booking) {
    a.date < b.date || (a.date == b.date && TimeLe(a.startTime, b.startTime))
  }

  lemma SlotLeTotalPreorder()
    ensures TotalPreorder(SlotLe)
  {
  }

  /** The order of listed entries: date, then the "HH:MM" text. */
  predicate EntryLe(a: BookingJson, b: BookingJson) {
    || a.date < b.date
    || (a.date == b.date && a.startTime.TimeString? && b.startTime.TimeString?
        && LexLe(a.startTime.text, b.startTime.text))
  }

  /** Whenever entry i comes before entry j, the bookings they were read from
      (ids identify bookings) are on an earlier date, or on the same date at
      the same or an earlier instant, seconds included. */
  predicate InSlotOrder(r: seq<BookingJson>, bs: seq<Booking>) {
    forall i, j, k, l ::
      && 0 <= i < j < |r| && 0 <= k < |bs| && 0 <= l < |bs|
      && r[i].id == bs[k].id && r[j].id == bs[l].id
      ==> || bs[k].date < bs[l].date
          || (bs[k].date == bs[l].date
              && SecondOfDay(bs[k].startTime) <= SecondOfDay(bs[l].startTime))
  }

  /** Some entry of the listing shows b. */
  predicate Shows(r: seq<BookingJson>, b: Booking) {
    exists i :: 0 <= i < |r| && Describes(r[i], b)
  }

  /** e shows some booking of bs. */
  predicate ShowsOneOf(e: BookingJson, bs: seq<Booking>) {
    exists k :: 0 <= k < |bs| && Describes(e, bs[k])
  }

  /** An entry shows this booking: same fields, start time as "HH:MM". */
  predicate Describes(e: BookingJson, b: Booking) {
    && e.id == b.id && e.memberName == b.memberName && e.date == b.date
    && e.startTime == TimeString(HourMinute(b.startTime))
    && e.partySize == b.partySize && e.status == b.status && e.createdAt == b.createdAt
  }

  /** One result row of the query. */
  function Entry(s: Store, b: Booking): (e: BookingJson)
    ensures Describes(e, b)
    ensures Sorted(e.amenities, LexLe)
    ensures multiset(e.amenities) == multiset(JoinedNames(s.links, s.amenities, b.id))
  {
    LexTotalPreorder();
    var names := Sort(JoinedNames(s.links, s.amenities, b.id), LexLe);
    BookingJson(b.id, b.memberName, b.date, TimeString(HourMinute(b.startTime)),
                b.partySize, b.status, names, b.createdAt)
  }

  function Entries(s: Store, bs: seq<Booking>): (r: seq<BookingJson>)
    ensures |r| == |bs|
    ensures forall i :: 0 <= i < |r| ==> r[i] == Entry(s, bs[i])
  {
    if bs == [] then [] else [Entry(s, bs[0])] + Entries(s, bs[1..])
  }

  /** GET /api/bookings: the bookings in slot order, each as one entry. */
  function List(s: Store): (r: seq<BookingJson>)
    ensures |r| == |s.bookings|
  {
    SlotLeTotalPreorder();
    Entries(s, Sort(s.bookings, SlotLe))
  }

  /** The listing shows every booking and nothing else, ordered by date and
      then start time (the full TIME value, seconds included, when ids are
      unique), each with its joined amenity names sorted. */
  lemma ListSpec(s: Store)
    ensures var r := List(s);
      && (forall k :: 0 <= k < |s.bookings| ==> Shows(r, s.bookings[k]))
      && (forall i :: 0 <= i < |r| ==> ShowsOneOf(r[i], s.bookings))
      && (forall i, j :: 0 <= i < j < |r| ==> EntryLe(r[i], r[j]))
      && (UniqueBookingIds(s.bookings) ==> InSlotOrder(r, s.bookings))
      && (forall i :: 0 <= i < |r| ==>
            && Sorted(r[i].amenities, LexLe)
            && multiset(r[i].amenities) == multiset(JoinedNames(s.links, s.amenities, r[i].id)))
  {
    SlotLeTotalPreorder();
    var ordered := Sort(s.bookings, SlotLe);
    var r := Entries(s, ordered);
    assert r == List(s);
    ListFacts(s, ordered, r);
    ListedAmenities(s, ordered, r);
    if UniqueBookingIds(s.bookings) {
      ListedInSlotOrder(s, ordered, r);
    }
  }

  lemma {:induction false} ListedAmenities(s: Store, ordered: seq<Booking>, r: seq<BookingJson>)
    requires r == Entries(s, ordered)
    ensures forall i :: 0 <= i < |r| ==>
              && Sorted(r[i].amenities, LexLe)
              && multiset(r[i].amenities) == multiset(JoinedNames(s.links, s.amenities, r[i].id))
  {
    forall i | 0 <= i < |r|
      ensures Sorted(r[i].amenities, LexLe)
      ensures multiset(r[i].amenities) == multiset(JoinedNames(s.links, s.amenities, r[i].id))
    {
      assert r[i] == Entry(s, ordered[i]);
    }
  }

  lemma {:induction false} ListFacts(s: Store, ordered: seq<Booking>, r: seq<BookingJson>)
    requires multiset(ordered) == multiset(s.bookings)
    requires Sorted(ordered, SlotLe)
    requires r == Entries(s, ordered)
    ensures forall k :: 0 <= k < |s.bookings| ==> Shows(r, s.bookings[k])
    ensures forall i :: 0 <= i < |r| ==> ShowsOneOf(r[i], s.bookings)
    ensures forall i, j :: 0 <= i < j < |r| ==> EntryLe(r[i], r[j])
  {
    EveryBookingListed(s, ordered, r);
    OnlyBookingsListed(s, ordered, r);
    ListedInOrder(s, ordered, r);
  }

  lemma {:induction false} EveryBookingListed(s: Store, ordered: seq<Booking>, r: seq<BookingJson>)
    requires multiset(ordered) == multiset(s.bookings)
    requires |r| == |ordered| && forall i :: 0 <= i < |r| ==> Describes(r[i], ordered[i])
    ensures forall k :: 0 <= k < |s.bookings| ==> Shows(r, s.bookings[k])
  {
    forall k | 0 <= k < |s.bookings| ensures Shows(r, s.bookings[k]) {
      assert s.bookings[k] in multiset(ordered);
      var i :| 0 <= i < |ordered| && ordered[i] == s.bookings[k];
      assert Describes(r[i], ordered[i]);
      assert Describes(r[i], s.bookings[k]);
    }
  }

  lemma {:induction false} OnlyBookingsListed(s: Store, ordered: seq<Booking>, r: seq<BookingJson>)
    requires multiset(ordered) == multiset(s.bookings)
    requires |r| == |ordered| && forall i :: 0 <= i < |r| ==> Describes(r[i], ordered[i])
    ensures forall i :: 0 <= i < |r| ==> ShowsOneOf(r[i], s.bookings)
  {
    forall i | 0 <= i < |r| ensures ShowsOneOf(r[i], s.bookings) {
      assert ordered[i] in multiset(s.bookings);
      var k :| 0 <= k < |s.bookings| && s.bookings[k] == ordered[i];
      assert Describes(r[i], ordered[i]);
      assert Describes(r[i], s.bookings[k]);
    }
  }

  lemma {:induction false} ListedInOrder(s: Store, ordered: seq<Booking>, r: seq<BookingJson>)
    requires Sorted(ordered, SlotLe)
    requires |r| == |ordered| && forall i :: 0 <= i < |r| ==> Describes(r[i], ordered[i])
    ensures forall i, j :: 0 <= i < j < |r| ==> EntryLe(r[i], r[j])
  {
    forall i, j | 0 <= i < j < |r| ensures EntryLe(r[i], r[j]) {
      assert SlotLe(ordered[i], ordered[j]);
      assert Describes(r[i], ordered[i]) && Describes(r[j], ordered[j]);
      if ordered[i].date == ordered[j].date {
        HourMinuteMonotone(ordered[i].startTime, ordered[j].startTime);
      }
    }
  }

  lemma {:induction false} ListedInSlotOrder(s: Store, ordered: seq<Booking>, r: seq<BookingJson>)
    requires UniqueBookingIds(s.bookings)
    requires multiset(ordered) == multiset(s.bookings)
    requires Sorted(ordered, SlotLe)
    requires |r| == |ordered| && forall i :: 0 <= i < |r| ==> Describes(r[i], ordered[i])
    ensures InSlotOrder(r, s.bookings)
  {
    var bs := s.bookings;
    forall i, j, k, l |
      && 0 <= i < j < |r| && 0 <= k < |bs| && 0 <= l < |bs|
      && r[i].id == bs[k].id && r[j].id == bs[l].id
      ensures || bs[k].date < bs[l].date
              || (bs[k].date == bs[l].date
                  && SecondOfDay(bs[k].startTime) <= SecondOfDay(bs[l].startTime))
    {
      assert ordered[i] in multiset(bs) && ordered[j] in multiset(bs);
      IdDeterminesBooking(bs, ordered[i], k);
      IdDeterminesBooking(bs, ordered[j], l);
      assert SlotLe(ordered[i], ordered[j]);
      TimeLeIsChronological(bs[k].startTime, bs[l].startTime);
    }
  }

  /** With unique ids, a booking of the table is the row carrying its id. */
  lemma IdDeterminesBooking(bs: seq<Booking>, b: Booking, k: int)
    requires UniqueBookingIds(bs)
    requires b in bs && 0 <= k < |bs| && b.id == bs[k].id
    ensures b == bs[k]
  {
    var m :| 0 <= m < |bs| && bs[m] == b;
    assert m == k;
  }

  /** A booking without association rows lists an empty amenity array. */
  lemma NoLinksNoAmenities(s: Store, b: Booking)
    requires forall i :: 0 <= i < |s.links| ==> s.links[i].booking != b.id
    ensures Entry(s, b).amenities == []
  {
    NoMatchingLinks(s.links, s.amenities, b.id);
  }

  lemma {:induction false} NoMatchingLinks(links: seq<Link>, ams: seq<Amenity>, id: BookingId)
    requires forall i :: 0 <= i < |links| ==> links[i].booking != id
    ensures JoinedNames(links, ams, id) == []
  {
    if links != [] {
      NoMatchingLinks(links[1..], ams, id);
    }
  }

  lemma {:induction false} JoinedNamesAppend(a: seq<Link>, b: seq<Link>, ams: seq<Amenity>, id: BookingId)
    ensures JoinedNames(a + b, ams, id) == JoinedNames(a, ams, id) + JoinedNames(b, ams, id)
  {
    if a == [] {
      assert a + b == b;
    } else {
      assert (a + b)[1..] == a[1..] + b;
      JoinedNamesAppend(a[1..], b, ams, id);
    }
  }

  /** With unique amenity ids, an id in the table joins to exactly its one name. */
  lemma {:induction false} NamesWithIdUnique(ams: seq<Amenity>, a: Amenity)
    requires UniqueAmenityIds(ams)
    requires a in ams
    ensures NamesWithId(ams, a.id) == [a.name]
  {
    if ams[0] == a {
      assert forall i :: 0 <= i < |ams[1..]| ==> ams[1..][i].id != a.id by {
        forall i | 0 <= i < |ams[1..]| ensures ams[1..][i].id != a.id {
          assert ams[1..][i] == ams[i + 1];
        }
      }
      NamesWithIdAbsent(ams[1..], a.id);
    } else {
      assert a in ams[1..];
      var k :| 0 <= k < |ams| && ams[k] == a;
      assert ams[0].id != a.id;
      NamesWithIdUnique(ams[1..], a);
    }
  }

  lemma {:induction false} NamesWithIdAbsent(ams: seq<Amenity>, id: AmenityId)
    requires forall i :: 0 <= i < |ams| ==> ams[i].id != id
    ensures NamesWithId(ams, id) == []
  {
    if ams != [] {
      NamesWithIdAbsent(ams[1..], id);
    }
  }
}
