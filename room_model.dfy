/** The room document of the other revision, with the INVERTED encoding: a SET
    bit h of a stored weekday mask means that the room is available during the
    hour h:00-h:59. The stored mask is the complement (Java's `~`) of the OR of
    the closed hours, so the bits from 24 up are always set. */
module RoomModel {

  import opened Wrappers
  import opened Bits
  import opened Masks
  import opened Text

  /** The configuration transfer form: per weekday a nullable list of closed
      hours, Sunday before Saturday as the record declares them. */
  datatype RoomConfigurationDto = RoomConfigurationDto(
    roomTitle: string,
    mondayUnavailable: Option<seq<int>>,
    tuesdayUnavailable: Option<seq<int>>,
    wednesdayUnavailable: Option<seq<int>>,
    thursdayUnavailable: Option<seq<int>>,
    fridayUnavailable: Option<seq<int>>,
    sundayUnavailable: Option<seq<int>>,
    saturdayUnavailable: Option<seq<int>>)

  /** The `@Min(0) @Max(23)` constraints on every list of the transfer form. */
  predicate ValidConfiguration(dto: RoomConfigurationDto) {
    && ValidHours(dto.mondayUnavailable)
    && ValidHours(dto.tuesdayUnavailable)
    && ValidHours(dto.wednesdayUnavailable)
    && ValidHours(dto.thursdayUnavailable)
    && ValidHours(dto.fridayUnavailable)
    && ValidHours(dto.sundayUnavailable)
    && ValidHours(dto.saturdayUnavailable)
  }

  /** `convertUnavailabilityListToMask`, as a value: null stays null, and
      otherwise exactly the hours NOT in the list have their bit set. */
  function AvailabilityOf(unavailable: Option<seq<int>>): (mask: Option<Int32>)
    requires ValidHours(unavailable)
    ensures unavailable.None? <==> mask.None?
    ensures mask.Some? ==> forall h: BitIndex :: Has(mask.value, h) <==> h !in unavailable.value
  {
    match unavailable
    case None => None
    case Some(hs) =>
      InvertHas(hs);
      Some(Invert(OrOfBits(hs)))
  }

  /** Java's `~m`. */
  function Invert(m: Int32): Int32 {
    !m
  }

  /** The inverted OR has bit h set iff h is not in the list. */
  lemma InvertHas(hs: seq<int>)
    requires AllHours(hs)
    ensures forall h: BitIndex :: Has(Invert(OrOfBits(hs)), h) <==> h !in hs
  {
    forall h: BitIndex
      ensures Has(Invert(OrOfBits(hs)), h) <==> h !in hs
    {
      OrOfBitsHas(hs, h);
      HasNot(OrOfBits(hs), h);
    }
  }

  /** `convertMaskToUnavailabilityList`, as a value: null stays null, and
      otherwise the ascending list of exactly the hours 0..23 whose bit is clear. */
  function UnavailabilityOf(mask: Option<Int32>): (unavailable: Option<seq<int>>)
    ensures mask.None? <==> unavailable.None?
    ensures unavailable.Some? ==> Ascending(unavailable.value)
    ensures unavailable.Some? ==>
      forall x :: x in unavailable.value <==> 0 <= x < HoursPerDay && !Has(mask.value, x)
  {
    match mask
    case None => None
    case Some(m) =>
      HoursWithSpec(m, HoursPerDay, false);
      Some(HoursWith(m, HoursPerDay, false))
  }

  /** Reading back the stored form of a closed-hours list gives the list in
      ascending, duplicate-free form, and null for null. */
  lemma UnavailabilityRoundTrip(unavailable: Option<seq<int>>)
    requires ValidHours(unavailable)
    ensures Normalised(unavailable, UnavailabilityOf(AvailabilityOf(unavailable)))
  {
    if unavailable.Some? {
      var hs := unavailable.value;
      var back := UnavailabilityOf(AvailabilityOf(unavailable)).value;
      forall x
        ensures x in back <==> x in hs
      {
        if 0 <= x < HoursPerDay {
          assert Has(AvailabilityOf(unavailable).value, x) <==> x !in hs;
        } else {
          forall i | 0 <= i < |hs|
            ensures hs[i] != x
          {
          }
        }
      }
    }
  }

  /** The per-weekday masks of a room; `None` is a weekday without a stored mask. */
  class AvailabilityMask {
    var monday: Option<Int32>
    var tuesday: Option<Int32>
    var wednesday: Option<Int32>
    var thursday: Option<Int32>
    var friday: Option<Int32>
    var sunday: Option<Int32>
    var saturday: Option<Int32>

    /** Java's default constructor: every weekday null. */
    constructor ()
      ensures monday.None? && tuesday.None? && wednesday.None? && thursday.None?
      ensures friday.None? && sunday.None? && saturday.None?
    {
      monday, tuesday, wednesday, thursday := None, None, None, None;
      friday, sunday, saturday := None, None, None;
    }
  }

  /** A room document of this revision. */
  class Room {
    var id: Option<string>
    var roomTitle: string
    var availabilityMask: AvailabilityMask

    /** A room with the title, no id yet, and a fresh mask record with every
        weekday unset. */
    constructor (roomTitle: string)
      ensures this.roomTitle == roomTitle && id.None?
      ensures fresh(availabilityMask)
      ensures availabilityMask.monday.None? && availabilityMask.tuesday.None?
      ensures availabilityMask.wednesday.None? && availabilityMask.thursday.None?
      ensures availabilityMask.friday.None? && availabilityMask.sunday.None?
      ensures availabilityMask.saturday.None?
    {
      id := None;
      this.roomTitle := roomTitle;
      availabilityMask := new AvailabilityMask();
    }

    /** `fromDto`: a new room with the trimmed title, each weekday's list
        stored, in its own weekday's field, in the inverted encoding. */
    static method FromDto(dto: RoomConfigurationDto) returns (room: Room)
      requires ValidConfiguration(dto)
      ensures fresh(room) && fresh(room.availabilityMask)
      ensures room.id.None? && room.roomTitle == Trim(dto.roomTitle)
      ensures room.availabilityMask.monday == AvailabilityOf(dto.mondayUnavailable)
      ensures room.availabilityMask.tuesday == AvailabilityOf(dto.tuesdayUnavailable)
      ensures room.availabilityMask.wednesday == AvailabilityOf(dto.wednesdayUnavailable)
      ensures room.availabilityMask.thursday == AvailabilityOf(dto.thursdayUnavailable)
      ensures room.availabilityMask.friday == AvailabilityOf(dto.fridayUnavailable)
      ensures room.availabilityMask.sunday == AvailabilityOf(dto.sundayUnavailable)
      ensures room.availabilityMask.saturday == AvailabilityOf(dto.saturdayUnavailable)
    {
      room := new Room(Trim(dto.roomTitle));
      var mask := room.availabilityMask;
      mask.monday := ConvertUnavailabilityListToMask(dto.mondayUnavailable);
      mask.tuesday := ConvertUnavailabilityListToMask(dto.tuesdayUnavailable);
      mask.thursday := ConvertUnavailabilityListToMask(dto.thursdayUnavailable);
      mask.wednesday := ConvertUnavailabilityListToMask(dto.wednesdayUnavailable);
      mask.friday := ConvertUnavailabilityListToMask(dto.fridayUnavailable);
      mask.sunday := ConvertUnavailabilityListToMask(dto.sundayUnavailable);
      mask.saturday := ConvertUnavailabilityListToMask(dto.saturdayUnavailable);
    }

    /** `toDto`: the title and, per weekday, the closed hours read back from
        that weekday's mask, Sunday and Saturday in the record's order. */
    method ToDto() returns (dto: RoomConfigurationDto)
      ensures dto.roomTitle == roomTitle
      ensures dto.mondayUnavailable == UnavailabilityOf(availabilityMask.monday)
      ensures dto.tuesdayUnavailable == UnavailabilityOf(availabilityMask.tuesday)
      ensures dto.wednesdayUnavailable == UnavailabilityOf(availabilityMask.wednesday)
      ensures dto.thursdayUnavailable == UnavailabilityOf(availabilityMask.thursday)
      ensures dto.fridayUnavailable == UnavailabilityOf(availabilityMask.friday)
      ensures dto.sundayUnavailable == UnavailabilityOf(availabilityMask.sunday)
      ensures dto.saturdayUnavailable == UnavailabilityOf(availabilityMask.saturday)
    {
      var monday := ConvertMaskToUnavailabilityList(availabilityMask.monday);
      var tuesday := ConvertMaskToUnavailabilityList(availabilityMask.tuesday);
      var wednesday := ConvertMaskToUnavailabilityList(availabilityMask.wednesday);
      var thursday := ConvertMaskToUnavailabilityList(availabilityMask.thursday);
      var friday := ConvertMaskToUnavailabilityList(availabilityMask.friday);
      var sunday := ConvertMaskToUnavailabilityList(availabilityMask.sunday);
      var saturday := ConvertMaskToUnavailabilityList(availabilityMask.saturday);
      dto := RoomConfigurationDto(roomTitle, monday, tuesday, wednesday, thursday, friday, sunday, saturday);
    }

    /** `convertUnavailabilityListToMask`: null stays null; otherwise the
        complement of the OR of `1 << h`, so bit h is set iff h is not in the
        list, and every bit from 24 up is set. */
    static method ConvertUnavailabilityListToMask(unavailable: Option<seq<int>>) returns (mask: Option<Int32>)
      requires ValidHours(unavailable)
      ensures mask == AvailabilityOf(unavailable)
    {
      if unavailable.None? {
        return None;
      }
      var hs := unavailable.value;
      var m: Int32 := 0;
      for i := 0 to |hs|
        invariant m == OrOfBits(hs[..i])
      {
        assert hs[..i + 1][..i] == hs[..i];
        m := m | Bit(hs[i]);
      }
      assert hs[..|hs|] == hs;
      return Some(Invert(m));
    }

    /** `convertMaskToUnavailabilityList`: null stays null; otherwise the hours
        0..23 whose bit is clear, in ascending order. */
    static method ConvertMaskToUnavailabilityList(mask: Option<Int32>) returns (unavailable: Option<seq<int>>)
      ensures unavailable == UnavailabilityOf(mask)
    {
      if mask.None? {
        return None;
      }
      var m := mask.value;
      var list: seq<int> := [];
      for i := 0 to HoursPerDay
        invariant list == HoursWith(m, i, false)
      {
        if !Has(m, i) {
          list := list + [i];
        }
      }
      return Some(list);
    }
  }

  /** `toDto` after `fromDto`: the trimmed title and, per weekday, the closed
      hours in ascending, duplicate-free form, or null where the input was null;
      no weekday's list ends up in another weekday's field. */
  lemma ConfigurationRoundTrip(dto: RoomConfigurationDto)
    requires ValidConfiguration(dto)
    ensures Normalised(dto.mondayUnavailable, UnavailabilityOf(AvailabilityOf(dto.mondayUnavailable)))
    ensures Normalised(dto.tuesdayUnavailable, UnavailabilityOf(AvailabilityOf(dto.tuesdayUnavailable)))
    ensures Normalised(dto.wednesdayUnavailable, UnavailabilityOf(AvailabilityOf(dto.wednesdayUnavailable)))
    ensures Normalised(dto.thursdayUnavailable, UnavailabilityOf(AvailabilityOf(dto.thursdayUnavailable)))
    ensures Normalised(dto.fridayUnavailable, UnavailabilityOf(AvailabilityOf(dto.fridayUnavailable)))
    ensures Normalised(dto.sundayUnavailable, UnavailabilityOf(AvailabilityOf(dto.sundayUnavailable)))
    ensures Normalised(dto.saturdayUnavailable, UnavailabilityOf(AvailabilityOf(dto.saturdayUnavailable)))
  {
    UnavailabilityRoundTrip(dto.mondayUnavailable);
    UnavailabilityRoundTrip(dto.tuesdayUnavailable);
    UnavailabilityRoundTrip(dto.wednesdayUnavailable);
    UnavailabilityRoundTrip(dto.thursdayUnavailable);
    UnavailabilityRoundTrip(dto.fridayUnavailable);
    UnavailabilityRoundTrip(dto.sundayUnavailable);
    UnavailabilityRoundTrip(dto.saturdayUnavailable);
  }

  /** `fromDto` followed by `toDto` on the new room: the title comes back
      trimmed, so a second round leaves it alone, and each weekday's list comes
      back normalised in its own weekday. */
  method RoundTrip(dto: RoomConfigurationDto) returns (back: RoomConfigurationDto)
    requires ValidConfiguration(dto)
    ensures back.roomTitle == Trim(dto.roomTitle) && Trim(back.roomTitle) == back.roomTitle
    ensures Normalised(dto.mondayUnavailable, back.mondayUnavailable)
    ensures Normalised(dto.tuesdayUnavailable, back.tuesdayUnavailable)
    ensures Normalised(dto.wednesdayUnavailable, back.wednesdayUnavailable)
    ensures Normalised(dto.thursdayUnavailable, back.thursdayUnavailable)
    ensures Normalised(dto.fridayUnavailable, back.fridayUnavailable)
    ensures Normalised(dto.sundayUnavailable, back.sundayUnavailable)
    ensures Normalised(dto.saturdayUnavailable, back.saturdayUnavailable)
  {
    var room := Room.FromDto(dto);
    back := room.ToDto();
    ConfigurationRoundTrip(dto);
    TrimIdempotent(dto.roomTitle);
  }
}
