/** The reservation request and its bean-validation constraints: a non-blank
    room title of 1 to 32 characters, a non-blank date of exactly 10 characters
    (an ISO 8601 calendar date such as 2025-12-25), two non-null hours in
    [0, 23], and `getHourRangeValidity`, which demands start <= end. */
module ReservationRequest {

  import opened Wrappers
  import opened Bits
  import opened Masks
  import opened Text
  import Service

  /** Every field may be null, as in the Java record. */
  datatype ReservationRequestDto = ReservationRequestDto(
    roomTitle: Option<string>,
    date: Option<string>,
    startHour: Option<int>,
    endHour: Option<int>)

  /** One failed constraint. */
  datatype Violation =
    | RoomTitleBlank | RoomTitleSize
    | DateBlank | DateSize
    | StartHourNull | StartHourBelowMin | StartHourAboveMax
    | EndHourNull | EndHourBelowMin | EndHourAboveMax
    | HourRangeInvalid

  /** `@NotBlank`: not null, and something is left after `trim()`. */
  predicate NotBlank(s: Option<string>) {
    s.Some? && |Trim(s.value)| > 0
  }

  /** `@Size(min, max)`: null passes; otherwise the length lies in [min, max]. */
  predicate SizeWithin(s: Option<string>, min: nat, max: nat) {
    s.Some? ==> min <= |s.value| <= max
  }

  /** `@Min(min)` and `@Max(max)`: null passes each of them. */
  predicate AtLeast(n: Option<int>, min: int) {
    n.Some? ==> min <= n.value
  }

  predicate AtMost(n: Option<int>, max: int) {
    n.Some? ==> n.value <= max
  }

  /** `getHourRangeValidity`: `startHour <= endHour` on the unboxed hours, which
      throws NullPointerException when either hour is null. */
  function HourRangeValidity(dto: ReservationRequestDto): (r: Result<bool, Service.Error>)
    ensures r.Failure? <==> dto.startHour.None? || dto.endHour.None?
    ensures r.Failure? ==> r.error == Service.NullPointer
    ensures r.Success? ==> (r.value <==> dto.startHour.value <= dto.endHour.value)
  {
    if dto.startHour.None? || dto.endHour.None? then Failure(Service.NullPointer)
    else Success(dto.startHour.value <= dto.endHour.value)
  }

  /** The failed constraints `dto` reports for one property, in declaration
      order. */
  function Check(holds: bool, v: Violation): (r: seq<Violation>)
    ensures |r| == if holds then 0 else 1
  {
    if holds then [] else [v]
  }

  /** The violated constraints of a request in declaration order, or the
      exception the validator propagates when `getHourRangeValidity` throws. */
  function Violations(dto: ReservationRequestDto): Result<seq<Violation>, Service.Error> {
    match HourRangeValidity(dto)
    case Failure(e) => Failure(e)
    case Success(rangeValid) =>
      Success(
        Check(NotBlank(dto.roomTitle), RoomTitleBlank) +
        Check(SizeWithin(dto.roomTitle, 1, 32), RoomTitleSize) +
        Check(NotBlank(dto.date), DateBlank) +
        Check(SizeWithin(dto.date, 10, 10), DateSize) +
        Check(dto.startHour.Some?, StartHourNull) +
        Check(AtLeast(dto.startHour, 0), StartHourBelowMin) +
        Check(AtMost(dto.startHour, 23), StartHourAboveMax) +
        Check(dto.endHour.Some?, EndHourNull) +
        Check(AtLeast(dto.endHour, 0), EndHourBelowMin) +
        Check(AtMost(dto.endHour, 23), EndHourAboveMax) +
        Check(rangeValid, HourRangeInvalid))
  }

  /** A request passes validation when no constraint is violated. */
  predicate IsValid(dto: ReservationRequestDto) {
    Violations(dto) == Success([])
  }

  /** The constraints, stated directly on the fields. */
  predicate WellFormed(dto: ReservationRequestDto) {
    && dto.roomTitle.Some? && |Trim(dto.roomTitle.value)| > 0 && 1 <= |dto.roomTitle.value| <= 32
    && dto.date.Some? && |Trim(dto.date.value)| > 0 && |dto.date.value| == 10
    && dto.startHour.Some? && dto.endHour.Some?
    && 0 <= dto.startHour.value <= dto.endHour.value <= 23
  }

  lemma ValidWellFormed(dto: ReservationRequestDto)
    requires IsValid(dto)
    ensures WellFormed(dto)
  {
    var vs := Violations(dto).value;
    assert |vs| == 0;
  }

  lemma WellFormedValid(dto: ReservationRequestDto)
    requires WellFormed(dto)
    ensures IsValid(dto)
  {
    assert |Violations(dto).value| == 0;
  }

  /** A request is valid exactly when its title is a non-blank string of 1 to
      32 characters, its date a non-blank string of 10 characters, and its
      hours satisfy 0 <= startHour <= endHour <= 23. */
  lemma ValidIff(dto: ReservationRequestDto)
    ensures IsValid(dto) <==> WellFormed(dto)
  {
    if IsValid(dto) {
      ValidWellFormed(dto);
    }
    if WellFormed(dto) {
      WellFormedValid(dto);
    }
  }

  /** The hour range of a valid request is one `reserveRoom` accepts, and its
      mask is non-empty and holds exactly the contiguous hours start..end, so
      nothing from bit 24 up. */
  lemma ValidRequestMask(dto: ReservationRequestDto)
    requires IsValid(dto)
    ensures 0 <= dto.startHour.value <= dto.endHour.value < HoursPerDay
    ensures RangeMask(dto.startHour.value, dto.endHour.value) != 0
    ensures forall h: BitIndex ::
      Has(RangeMask(dto.startHour.value, dto.endHour.value), h) <==>
        dto.startHour.value <= h <= dto.endHour.value
  {
    ValidIff(dto);
    var s, e := dto.startHour.value, dto.endHour.value;
    forall h: BitIndex
      ensures Has(RangeMask(s, e), h) <==> s <= h <= e
    {
      RangeMaskHas(s, e, h);
    }
    assert Has(RangeMask(s, e), s);
    HasZero(s);
  }
}
