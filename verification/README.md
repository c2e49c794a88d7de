# Booking admission and listing, modelled in Dafny

This project models the core of a small booking API for a shared room. The API
has two handlers:

- `POST /api/bookings` validates a reservation request and checks the slot's capacity.
  A slot is a (date, start time) pair and holds at most six people over its
  active bookings. If the request is admitted, one transaction inserts the
  booking and its amenity association rows. The handler then returns the new
  booking.
- `GET /api/bookings` lists every booking with its amenity names.

The database is modelled as an immutable `Store`. It holds the booking rows,
the fixed reference set of amenities and the `booking_amenities` pairs. Each
SQL statement becomes a pure function over the store: the capacity `SUM`, the
`name = ANY(...)` lookup, the inserts, and the `LEFT JOIN … GROUP BY … ORDER BY`
listing. The two handlers together form the state machine `Server.Step`.

Modules, one per component:

- `Ordering` (ordering.dfy): insertion sort over any total preorder, and the
  code-point lexicographic order on text.
- `Clock` (clock.dfy): `TIME` values, the driver's `HH:MM:SS` text, `TO_CHAR`'s
  `HH24:MI`, and JavaScript's `slice(0, 5)`.
- `Store` (store.dfy): bookings, amenities, association rows and the table
  constraints (`Wf`).
- `Shape` (shape.dfy): the response JSON and `mapBookingRow`.
- `Validation` (validation.dfy): required fields, the party-size default and
  its rejection rule, and the amenities array.
- `Capacity` (capacity.dfy): the slot total, the admission rule and the
  per-slot invariant.
- `Writer` (writer.dfy): the create transaction and amenity resolution.
- `Reader` (reader.dfy): the listing query.
- `Server` (server.dfy): the handlers as one step function, and the
  properties that relate several operations.

Assumptions the model makes explicit:

- The insert never sets `status`, and the column default is not part of this
  model. `Store.NewBookingStatus` takes it to be `Active`.
- Storage behaviour is a parameter. A `Writer.Fault` names the database call
  that fails, if any. A fault at a call the handler actually reaches gives
  HTTP 500 and leaves the store unchanged.
- The id the database assigns is an abstract fresh id, `Store.NextId`: larger
  than every id in use. `created_at` is the opaque parameter `now`.

Two behaviours of the code are easy to misread:

- The create response lists amenity names in the order the `amenities` lookup
  returns them. That query has no `ORDER BY`, so the model uses table order.
  Only the listing sorts names (see `Server.AmenityExample`).
- A `partySize` of `0` is falsy, so `partySize || 1` turns it into 1. It is
  not rejected.

## Model

| member | source | states |
|---|---|---|
| Validation.Validate | API/server.js:37-49 | A missing or falsy memberName, date or startTime gives exactly the "required" message. Only after those three are present, a NaN or negative party size gives exactly the party-size message. Every other body is accepted, and the accepted request keeps the three fields, has a positive size (the given number, or 1 when absent or falsy, 0 included) and has the amenity array, or an empty list when amenities is not an array. |
| Validation.DefaultPartySize | API/server.js:44 | With the required fields present, an absent or falsy party size, including 0, is accepted as 1. |
| Capacity.SlotTotalAppend | API/server.js:53-62 | Appending a booking raises the summed party size of its own slot by its size when it is active, and leaves every other slot's total unchanged. |
| Capacity.EmptySlotTotalsZero | API/server.js:55 | A slot no active booking occupies totals 0 (the COALESCE). |
| Capacity.OccupiesIsQueryFilter | API/server.js:53-62 | A booking counts toward a slot exactly when its date and start time are the slot's and its status column holds 'active'. |
| Capacity.AdmitIffSlotStaysWithinCapacity | API/server.js:53-69 | The guard admits a new active booking exactly when its slot, with the booking added, holds at most 6 people. |
| Capacity.AdmittedKeepsCapacity | API/server.js:64-69 | If every slot holds at most 6 and the guard admits a booking, every slot still holds at most 6 after it is appended. |
| Capacity.CapacityBoundary | API/server.js:65-68 | With 5 people already in a slot, a party of 1 is admitted and a party of 2 is refused with the slot-full message. |
| Writer.Resolve | API/server.js:91-99 | The resolved amenities are exactly the reference amenities whose name is among the requested names. As a multiset they are contained in the reference set, so each reference amenity appears at most as often as in the table. No names means no rows. |
| Writer.ResolveUnique | API/server.js:92-99 | Resolution never returns the same amenity id or name twice. |
| Writer.Create | API/server.js:71-125 | A commit appends exactly the new booking, keeps the amenities, and appends one association row per resolved amenity. Its response is mapBookingRow of the returned row with the resolved names. With no fault it commits. A fault at BEGIN, at the booking insert or at COMMIT rolls back. A fault at the amenity lookup rolls back when names were requested, and a fault at the association insert rolls back when some name resolved. Either fault commits when its call is never reached. |
| Writer.CreatedAmenities | API/server.js:88-117 | A committed response's amenity names are exactly the requested names that exist in the reference set, without duplicates. Unknown names are dropped, and no match gives an empty list. |
| Writer.CreatedStartTime | API/server.js:16-19 | The create response shows the start time as HH:MM, the first five characters of the driver's HH:MM:SS text. |
| Writer.CreatePreservesWf | API/server.js:72-120 | A committed create keeps the store's keys and amenity names unique. It also keeps party sizes positive, association rows distinct, and every association row pointing at an existing booking and amenity. |
| Shape.MapBookingRow | API/server.js:16-31 | Text start times become their first min(5, length) characters. Other start times pass through unchanged. A missing amenity array becomes empty. All other fields are copied. |
| Clock.SliceOfRenderIsHourMinute | API/server.js:144 | The first five characters of a time's HH:MM:SS text equal its TO_CHAR HH24:MI text, so create and list render start times the same way. |
| Clock.ParseHourMinuteRoundTrip | API/server.js:144 | Reading back a rendered HH24:MI text yields the time's hour and minute. |
| Clock.ParseHourMinuteOnlyRendered | API/server.js:144 | Every text that reads as a valid hour and minute is the HH24:MI rendering of that time. |
| Clock.HourMinuteMonotone | API/server.js:157 | Earlier start times render to HH:MM texts that do not sort after later ones. |
| Clock.TimeLeIsChronological | API/server.js:157 | The order used for start times holds exactly when the first time is at the same or an earlier second of the day, the order a TIME column sorts by. |
| Ordering.Sort | API/server.js:149 | The result is a permutation of the input (same multiset, same length) and is sorted by the given total preorder. |
| Ordering.InsertSorted | API/server.js:149 | Inserting into a sorted sequence keeps it sorted. |
| Ordering.LexTotalPreorder | API/server.js:149 | Code-point text order is total and transitive, so it can key an ORDER BY. |
| Reader.Entry | API/server.js:140-152 | One listing row shows the booking's fields with its start time as HH:MM. Its amenity names are sorted and are exactly the names joined to the booking. |
| Reader.ListSpec | API/server.js:138-157 | The listing shows every booking and only bookings, one entry per booking. Entries are ordered by date, then by start time: the shown HH:MM texts are in order, and with unique ids the bookings behind any two entries are on earlier dates or at the same or an earlier instant of the day, seconds included. Each entry's amenity names are sorted and are exactly its joined names. |
| Reader.NoLinksNoAmenities | API/server.js:148-152 | A booking with no association rows lists an empty amenity array, not a missing one. |
| Reader.NamesWithIdUnique | API/server.js:155 | With unique amenity ids, an amenity id joins to exactly its one name. |
| Reader.JoinedNamesAppend | API/server.js:154-155 | The names joined over two runs of association rows are the names joined over each run, in order. |
| Store.NextId | API/server.js:75-79 | The id given to a new booking is larger than, so different from, every id already in use. |
| Store.StatusText | API/server.js:59 | The status column holds 'active' exactly for the Active status, so no other status is counted by the capacity query. |
| Server.Post | API/server.js:34-133 | Every outcome other than a created booking leaves the store unchanged. The handler's status code is only 201, 400 or 500. |
| Server.Get | API/server.js:136-166 | Listing never changes the store. A failing query gives exactly the fetch-error response, and a succeeding one answers with the listing of the store. |
| Server.StorageFailureAnswers500 | API/server.js:128-131 | For a valid body, the answer is 500 "Server error creating booking" with the store unchanged exactly when the capacity query fails, or when the request is admitted and the write transaction rolls back. |
| Server.FailedLinkInsertPersistsNothing | API/server.js:108-131 | When the association insert fails after the booking insert, neither the booking nor any association row persists, and the answer is the generic 500. |
| Capacity.SlotTotal | API/server.js:53-62 | With positive party sizes the slot total is never negative. It is 0 when no active booking occupies the slot, and positive when one does. |
| Capacity.CheckCapacity | API/server.js:64-69 | A refusal carries exactly the slot-full message. Admission is stated by Capacity.AdmitIffSlotStaysWithinCapacity. |
| Reader.List | API/server.js:138-161 | The listing has as many entries as the store has bookings. What the entries are is stated by Reader.ListSpec. |
| Reader.JoinedNames | API/server.js:148-155 | Every joined name is the name of a reference amenity. A booking no association row names joins to no names. |
| Writer.NewBooking | API/server.js:75-85 | The inserted row has a fresh id, status Active, the stamp `now`, and the request's member name, date, start time and party size. |
| Writer.Pairs | API/server.js:102-114 | One association row per resolved amenity, in order, each linking the new booking to that amenity's id. |
| Clock.HourMinute | API/server.js:144 | The HH24:MI text has five characters: two digits that read as the hour, a colon, and two digits that read as the minute. |
| Clock.Slice | API/server.js:19 | slice(0, n) has length min(n, length) and is a prefix of the text. |
| Server.Step | API/server.js:34-166 | For either request, any response other than a created booking leaves the store unchanged. |
| Server.MissingFieldRejected | API/server.js:38-42 | The "required" message comes back, with the store unchanged and whatever the database would do, exactly when one of the three fields is missing or falsy. |
| Server.BadPartySizeRejected | API/server.js:44-47 | With the required fields present, the party-size message comes back before any database call, exactly when the size is NaN or negative. |
| Server.CapacityDecides | API/server.js:53-72 | Once the capacity query has answered, a valid request gets the slot-full message with the store unchanged exactly when the slot's active total plus its size exceeds 6, whatever BEGIN, the inserts, the lookup or COMMIT would do. Without storage faults, every valid request whose slot has room is created. |
| Server.CreatedIffCommitted | API/server.js:64-127 | A valid request gets 201 exactly when the capacity query answers, the slot has room and the write transaction commits, including when a fault names a call that is never reached. The 201 carries the transaction's response, mapBookingRow of the inserted row with its amenity names, and the store becomes the committed one. |
| Server.CreateAddsOneBooking | API/server.js:72-120 | A successful create appends exactly one booking. It has a fresh id, the request's fields and status Active. The amenities and the old association rows stay as they were. Each new association row links that booking to a requested reference amenity. |
| Server.StepPreservesInvariants | API/server.js:65-120 | Every request keeps the table constraints and the at-most-6-per-slot invariant. |
| Server.ListingIsReadOnly | API/server.js:136-161 | A listing leaves the store unchanged, so two consecutive listings answer identically. |
| Server.JoinedNamesOfPairs | API/server.js:108-116 | The association rows written for resolved amenities join back to exactly those amenities' names, in order. |
| Server.CommittedJoinsItsAmenities | API/server.js:106-116 | After a commit, the new booking's association rows join to exactly the amenity names of the create response. |
| Server.CommittedIsListed | API/server.js:122-157 | After a commit, the listing has an entry that agrees with the create response on every field. Its amenity names are the same multiset, in sorted order. |
| Server.CreatedBookingIsListed | API/server.js:34-157 | After a successful POST, the response carries the id of the booking the POST appended, that booking is Active, and the next GET lists it as the create response showed it. |
| Server.AmenityExample | API/server.js:91-157 | Requesting wifi, parking and an unknown name, where only wifi and parking exist, creates a booking of size 1 at "09:05". Its response shows ["wifi", "parking"] and the listing shows ["parking", "wifi"]. |

## Left out

- The Express app, CORS and JSON middleware, dotenv and `PORT`, `app.listen`
  and console logging are left out: they are I/O plumbing. The connection pool
  and `db.js` are not part of this model.
- The SQL text, the `$n` placeholder building and the parameter arrays are
  left out. Only what each statement computes is modelled.
- Concurrency is left out, including the check-then-act race. The capacity
  read runs before `BEGIN`, so two concurrent requests can both be admitted
  and overfill a slot. The model runs requests one at a time, and the
  per-slot invariant holds only under that sequential execution.
- `BEGIN`/`COMMIT`/`ROLLBACK` are modelled only by their result: a unit either
  commits completely or leaves the store unchanged. A failure of `ROLLBACK`
  itself is not modelled.
- JavaScript `Number` coercion is left out. The body's `partySize` arrives
  already seen through `Number()`. Fractional sizes, `Infinity`, booleans and
  numeric strings are floating-point or coercion behaviour.
- Parsing date and time text is left out; the database does that. The request
  carries parsed values. Malformed text, which the database would reject with
  a 500, is not modelled.
- Dates are opaque ordered integers. The driver's conversion of `DATE`
  columns to JavaScript `Date` objects is not modelled.
- `TIME` values are whole seconds from 00:00:00 to 23:59:59. Fractional
  seconds are not modelled, and neither is the end-of-day value 24:00:00 that
  a PostgreSQL `TIME` column also accepts; a request for "24:00" cannot be
  expressed.
- Shape.MapBookingRow: the camelCase/snake_case fallbacks are not modelled
  (`row.startTime || row.start_time` and the like). The model has a single
  row shape, so the fallback taken when the camelCase field is falsy is absent.
- Non-string elements of the `amenities` array, and non-string truthy
  `memberName` values, are not modelled.
- Store.NextId: ids are not those of a database sequence. A sequence never
  hands out a value again once an insert took it, even if that insert was
  rolled back. The model picks one more than the largest id in use, or 1 for
  an empty table, so after a rollback it can reuse the rolled-back id. The
  table's schema is not part of this model.
- Text ordering assumes code-point ("C") collation. A locale-aware collation
  of the database is not modelled.
- Reader.ListSpec: the contract says nothing about the order of two bookings
  in the same slot (same date, same start time to the second).
  `ORDER BY date, start_time` leaves that order unspecified. The model's stable
  sort picks one order, but no contract relies on it. The order to the second
  is stated through the bookings' ids, so only for a table whose ids are
  unique, as its primary key makes them; otherwise only the HH:MM order is.
