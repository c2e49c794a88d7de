/**
  The JSON shape of a booking in responses, and mapBookingRow, which turns a
  row returned by the database into that shape.
 */
module Shape {
  import opened Optional
  import opened Clock
  import opened Store

  /** A start-time value as JavaScript sees it: text, or some other value
      (a Date object, null, ...) identified here by an opaque tag. */
  datatype JsTime = TimeString(text: string) | TimeOther(tag: int)

  /** A row as returned by the database, possibly carrying an amenity array. */
  datatype Row = Row(
    id: BookingId,
    memberName: string,
    date: Date,
    startTime: JsTime,
    partySize: int,
    status: Status,
    amenities: Option<seq<string>>,
    createdAt: Stamp)

  datatype BookingJson = BookingJson(
    id: BookingId,
    memberName: string,
    date: Date,
    startTime: JsTime,
    partySize: int,
    status: Status,
    amenities: seq<string>,
    createdAt: Stamp)

  /** mapBookingRow: text start times keep only their first five characters,
      other start times pass through, a missing amenity array becomes empty,
      and every other field is copied. */
  function MapBookingRow(row: Row): (r: BookingJson)
    ensures r.id == row.id && r.memberName == row.memberName && r.date == row.date
    ensures r.partySize == row.partySize && r.status == row.status && r.createdAt == row.createdAt
    ensures row.startTime.TimeString? ==>
              && r.startTime.TimeString?
              && |r.startTime.text| == (if |row.startTime.text| < 5 then |row.startTime.text| else 5)
              && r.startTime.text == row.startTime.text[..|r.startTime.text|]
    ensures row.startTime.TimeOther? ==> r.startTime == row.startTime
    ensures row.amenities.None? ==> r.amenities == []
    ensures row.amenities.Some? ==> r.amenities == row.amenities.value
  {
    var startTime :=
      match row.startTime
      case TimeString(text) => TimeString(Slice(text, 5))
      case TimeOther(_) => row.startTime;
    BookingJson(
      row.id, row.memberName, row.date, startTime, row.partySize, row.status,
      if row.amenities.Some? then row.amenities.value else [],
      row.createdAt)
  }
}
