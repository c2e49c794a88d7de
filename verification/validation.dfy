/**
  The input checks of the create handler: the three required fields, the
  party-size default and rejection rule, and the amenities array.
 */
module Validation {
  import opened Clock
  import opened Store

  const RequiredFieldsMessage: string := "memberName, date, and startTime are required"
  const PartySizeMessage: string := "partySize must be a positive number"

  /** A body field: absent, present but falsy (null, "", ...), or a value. */
  datatype Field<T> = Missing | Falsy | Given(value: T)

  type Name = s: string | s != [] witness "x"

  /** partySize as the body carries it, already seen through Number():
      absent, a falsy value, a value Number() turns into NaN, or a number. */
  datatype PartySizeInput = NoSize | FalsySize | NotANumber | Number(n: int)

  /** amenities as the body carries it. */
  datatype AmenitiesInput = NotAnArray | Array(names: seq<string>)

  datatype BookingBody = BookingBody(
    memberName: Field<Name>,
    date: Field<Date>,
    startTime: Field<Time>,
    partySize: PartySizeInput,
    amenities: AmenitiesInput)

  /** A body that passed validation. */
  datatype BookingRequest = BookingRequest(
    memberName: Name,
    date: Date,
    startTime: Time,
    size: int,
    amenityNames: seq<string>)

  datatype Checked = Valid(request: BookingRequest) | Invalid(message: string)

  /** The outcome of Number(x) in the model: a NaN or an integer. */
  datatype JsNumber = NaN | Int(i: int)

  /** partySize || 1: a falsy value, including the number 0, becomes 1. */
  function OrOne(p: PartySizeInput): PartySizeInput {
    match p
    case NoSize => Number(1)
    case FalsySize => Number(1)
    case Number(n) => if n == 0 then Number(1) else p
    case NotANumber => p
  }

  function ToNumber(p: PartySizeInput): JsNumber {
    match p
    case Number(n) => Int(n)
    case _ => NaN
  }

  /** The handler's first step: either a normalised request or the exact
      error text. */
  function Validate(body: BookingBody): (r: Checked)
    ensures r.Invalid? && r.message == RequiredFieldsMessage <==>
              !(body.memberName.Given? && body.date.Given? && body.startTime.Given?)
    ensures r.Invalid? && r.message == PartySizeMessage <==>
              && body.memberName.Given? && body.date.Given? && body.startTime.Given?
              && (body.partySize.NotANumber? || (body.partySize.Number? && body.partySize.n < 0))
    ensures r.Valid? <==>
              && body.memberName.Given? && body.date.Given? && body.startTime.Given?
              && !(body.partySize.NotANumber? || (body.partySize.Number? && body.partySize.n < 0))
    ensures r.Valid? ==>
              && r.request.memberName == body.memberName.value
              && r.request.date == body.date.value
              && r.request.startTime == body.startTime.value
              && r.request.size > 0
              && r.request.size == (if body.partySize.Number? && body.partySize.n != 0 then body.partySize.n else 1)
              && r.request.amenityNames == (if body.amenities.Array? then body.amenities.names else [])
  {
    if !body.memberName.Given? || !body.date.Given? || !body.startTime.Given? then
      Invalid(RequiredFieldsMessage)
    else
      match ToNumber(OrOne(body.partySize))
      case NaN => Invalid(PartySizeMessage)
      case Int(size) =>
        if size <= 0 then Invalid(PartySizeMessage)
        else
          var names := if body.amenities.Array? then body.amenities.names else [];
          Valid(BookingRequest(body.memberName.value, body.date.value, body.startTime.value, size, names))
  }

  /** Omitting partySize, or sending a falsy one (0 included), books one person. */
  lemma DefaultPartySize(body: BookingBody)
    requires body.memberName.Given? && body.date.Given? && body.startTime.Given?
    requires body.partySize.NoSize? || body.partySize.FalsySize? || body.partySize == Number(0)
    ensures Validate(body).Valid? && Validate(body).request.size == 1
  {
  }
}
