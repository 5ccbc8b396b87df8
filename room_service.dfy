/** The room service: a table of rooms, each with a closed-hours mask per
    weekday, a table of reservations, and the admission rule that decides
    whether a new reservation may be added. In this module a SET bit h of a
    weekday mask means that the room is unavailable during the hour h:00-h:59. */
module Service {

  import opened Wrappers
  import opened Bits
  import opened Masks
  import opened Calendar
  import opened Text

  /** Store-generated identifiers (Mongo object ids) are modelled as numbers. */
  type RoomId = nat
  type ReservationId = nat

  /** A room's closed hours per weekday; `None` is a weekday without a stored mask. */
  datatype UnavailabilityMasks = UnavailabilityMasks(
    monday: Option<Int32>,
    tuesday: Option<Int32>,
    wednesday: Option<Int32>,
    thursday: Option<Int32>,
    friday: Option<Int32>,
    saturday: Option<Int32>,
    sunday: Option<Int32>)
  {
    /** The mask for weekday `w`, as the `switch` of `reserveRoom` picks it. */
    function ForDay(w: Weekday): Option<Int32> {
      match w
      case Monday => monday
      case Tuesday => tuesday
      case Wednesday => wednesday
      case Thursday => thursday
      case Friday => friday
      case Saturday => saturday
      case Sunday => sunday
    }
  }

  /** A stored room document. */
  datatype Room = Room(id: Option<RoomId>, roomTitle: string, unavailabilityMasks: UnavailabilityMasks)

  /** A stored reservation document: one room, one day, a mask of reserved hours. */
  datatype Reservation = Reservation(id: ReservationId, roomId: RoomId, date: Day, reservationMask: Int32)

  /** The transfer form of a room: per weekday a nullable list of closed hours. */
  datatype RoomDto = RoomDto(
    roomTitle: string,
    mondayUnavailable: Option<seq<int>>,
    tuesdayUnavailable: Option<seq<int>>,
    wednesdayUnavailable: Option<seq<int>>,
    thursdayUnavailable: Option<seq<int>>,
    fridayUnavailable: Option<seq<int>>,
    saturdayUnavailable: Option<seq<int>>,
    sundayUnavailable: Option<seq<int>>)

  /** The exceptions the service throws. `NullPointer` is the unboxing of a
      weekday mask that is not stored; `DuplicateKey` comes from the unique
      index on room titles. */
  datatype Error =
    | RoomNotFoundByTitle(title: string)
    | RoomNotFoundById(id: RoomId)
    | DuplicateKey(title: string)
    | UnavailableReservation(reason: string)
    | NullPointer

  const UnavailableTime: string := "Unavailable time"
  const AlreadyReserved: string := "Already reserved"

  // ---------------------------------------------------------------------------
  // Hour codecs

  /** `convertHourListToMask`, as a value. */
  function ListMask(hours: Option<seq<int>>): Option<Int32>
    requires ValidHours(hours)
  {
    match hours
    case None => None
    case Some(hs) => Some(OrOfBits(hs))
  }

  /** `convertHourMaskToList`, as a value. */
  function MaskList(mask: Option<Int32>): Option<seq<int>> {
    match mask
    case None => None
    case Some(m) => Some(HoursWith(m, HoursPerDay, true))
  }

  /** `convertHourListToMask`: null stays null; otherwise bit h is set iff h is in
      the list, so order and duplicates do not matter and no bit from 24 up is set. */
  method ConvertHourListToMask(hours: Option<seq<int>>) returns (mask: Option<Int32>)
    requires ValidHours(hours)
    ensures mask == ListMask(hours)
    ensures hours.None? <==> mask.None?
    ensures mask.Some? ==> forall h: BitIndex :: Has(mask.value, h) <==> h in hours.value
  {
    if hours.None? {
      return None;
    }
    var hs := hours.value;
    var m: Int32 := 0;
    for i := 0 to |hs|
      invariant m == OrOfBits(hs[..i])
    {
      assert hs[..i + 1][..i] == hs[..i];
      m := m | Bit(hs[i]);
    }
    assert hs[..|hs|] == hs;
    forall h: BitIndex
      ensures Has(m, h) <==> h in hs
    {
      OrOfBitsHas(hs, h);
    }
    return Some(m);
  }

  /** `convertHourMaskToList`: null stays null; otherwise the strictly ascending
      list of exactly the set bits among 0..23 (bits from 24 up are ignored). */
  method ConvertHourMaskToList(mask: Option<Int32>) returns (list: Option<seq<int>>)
    ensures list == MaskList(mask)
    ensures mask.None? <==> list.None?
    ensures list.Some? ==> Ascending(list.value)
    ensures list.Some? ==> forall x :: x in list.value <==> 0 <= x < HoursPerDay && Has(mask.value, x)
  {
    if mask.None? {
      return None;
    }
    var m := mask.value;
    var l: seq<int> := [];
    for i := 0 to HoursPerDay
      invariant l == HoursWith(m, i, true)
    {
      if Has(m, i) {
        l := l + [i];
      }
    }
    HoursWithSpec(m, HoursPerDay, true);
    return Some(l);
  }

  /** `convertHourRangeToMask`: bits s..e exactly, and 0 when s > e. */
  method ConvertHourRangeToMask(startHour: int, endHour: int) returns (mask: Int32)
    requires endHour < startHour || (0 <= startHour && endHour < HoursPerDay)
    ensures mask == RangeMask(startHour, endHour)
    ensures forall h: BitIndex :: Has(mask, h) <==> startHour <= h <= endHour
    ensures endHour < startHour ==> mask == 0
  {
    mask := 0;
    var hour := startHour;
    while hour <= endHour
      invariant endHour < startHour ==> hour == startHour
      invariant startHour <= endHour ==> startHour <= hour <= endHour + 1
      invariant mask == RangeMask(startHour, hour - 1)
      decreases endHour - hour
    {
      mask := mask | Bit(hour);
      hour := hour + 1;
    }
    forall h: BitIndex
      ensures Has(mask, h) <==> startHour <= h <= endHour
    {
      RangeMaskHas(startHour, endHour, h);
    }
  }

  /** Round trip list -> mask -> list: null stays null, and a list within
      [0, 23] comes back ascending, without duplicates, with the same hours. */
  lemma ListRoundTrip(hours: Option<seq<int>>)
    requires ValidHours(hours)
    ensures Normalised(hours, MaskList(ListMask(hours)))
  {
    if hours.Some? {
      var hs := hours.value;
      var m := OrOfBits(hs);
      HoursWithSpec(m, HoursPerDay, true);
      forall x
        ensures x in HoursWith(m, HoursPerDay, true) <==> x in hs
      {
        if 0 <= x < HoursPerDay {
          OrOfBitsHas(hs, x);
        }
      }
    }
  }

  /** Round trip mask -> list -> mask: the stored mask comes back with the bits
      from 24 up cleared; a mask without such bits comes back unchanged. */
  lemma MaskRoundTrip(m: Int32)
    ensures forall h: BitIndex :: Has(OrOfBits(HoursWith(m, HoursPerDay, true)), h) <==>
              h < HoursPerDay && Has(m, h)
    ensures (forall h: BitIndex :: h >= HoursPerDay ==> !Has(m, h)) ==>
              ListMask(MaskList(Some(m))) == Some(m)
  {
    var l := HoursWith(m, HoursPerDay, true);
    HoursWithSpec(m, HoursPerDay, true);
    forall h: BitIndex
      ensures Has(OrOfBits(l), h) <==> h < HoursPerDay && Has(m, h)
    {
      OrOfBitsHas(l, h);
    }
    if forall h: BitIndex :: h >= HoursPerDay ==> !Has(m, h) {
      BitsExtensional(OrOfBits(l), m);
    }
  }

  // ---------------------------------------------------------------------------
  // Rooms and their transfer form

  /** The room `getRoomFromDto` builds: no id yet, the trimmed title, and each
      weekday's list encoded into that same weekday's mask. */
  function RoomOf(dto: RoomDto): Room
    requires ValidDto(dto)
  {
    Room(None, Trim(dto.roomTitle), UnavailabilityMasks(
      ListMask(dto.mondayUnavailable),
      ListMask(dto.tuesdayUnavailable),
      ListMask(dto.wednesdayUnavailable),
      ListMask(dto.thursdayUnavailable),
      ListMask(dto.fridayUnavailable),
      ListMask(dto.saturdayUnavailable),
      ListMask(dto.sundayUnavailable)))
  }

  /** The transfer form `convertRoomToDto` builds. */
  function DtoOf(room: Room): RoomDto {
    var ms := room.unavailabilityMasks;
    RoomDto(room.roomTitle,
      MaskList(ms.monday), MaskList(ms.tuesday), MaskList(ms.wednesday),
      MaskList(ms.thursday), MaskList(ms.friday), MaskList(ms.saturday),
      MaskList(ms.sunday))
  }

  /** The `@Min(0) @Max(23)` constraints on every list of the transfer form. */
  predicate ValidDto(dto: RoomDto) {
    && ValidHours(dto.mondayUnavailable)
    && ValidHours(dto.tuesdayUnavailable)
    && ValidHours(dto.wednesdayUnavailable)
    && ValidHours(dto.thursdayUnavailable)
    && ValidHours(dto.fridayUnavailable)
    && ValidHours(dto.saturdayUnavailable)
    && ValidHours(dto.sundayUnavailable)
  }

  /** `getRoomFromDto`. */
  method GetRoomFromDto(dto: RoomDto) returns (room: Room)
    requires ValidDto(dto)
    ensures room == RoomOf(dto)
    ensures room.id.None? && room.roomTitle == Trim(dto.roomTitle)
  {
    var masks := UnavailabilityMasks(None, None, None, None, None, None, None);
    var m;
    m := ConvertHourListToMask(dto.mondayUnavailable);
    masks := masks.(monday := m);
    m := ConvertHourListToMask(dto.tuesdayUnavailable);
    masks := masks.(tuesday := m);
    m := ConvertHourListToMask(dto.thursdayUnavailable);
    masks := masks.(thursday := m);
    m := ConvertHourListToMask(dto.wednesdayUnavailable);
    masks := masks.(wednesday := m);
    m := ConvertHourListToMask(dto.fridayUnavailable);
    masks := masks.(friday := m);
    m := ConvertHourListToMask(dto.saturdayUnavailable);
    masks := masks.(saturday := m);
    m := ConvertHourListToMask(dto.sundayUnavailable);
    masks := masks.(sunday := m);
    room := Room(None, Trim(dto.roomTitle), masks);
  }

  /** `convertRoomToDto`. */
  method ConvertRoomToDto(room: Room) returns (dto: RoomDto)
    ensures dto == DtoOf(room)
    ensures dto.roomTitle == room.roomTitle
  {
    var ms := room.unavailabilityMasks;
    var mon := ConvertHourMaskToList(ms.monday);
    var tue := ConvertHourMaskToList(ms.tuesday);
    var wed := ConvertHourMaskToList(ms.wednesday);
    var thu := ConvertHourMaskToList(ms.thursday);
    var fri := ConvertHourMaskToList(ms.friday);
    var sat := ConvertHourMaskToList(ms.saturday);
    var sun := ConvertHourMaskToList(ms.sunday);
    dto := RoomDto(room.roomTitle, mon, tue, wed, thu, fri, sat, sun);
  }

  /** Transfer form -> room -> transfer form: the title comes back trimmed and
      every weekday's list comes back normalised (null stays null), each in
      its own weekday. */
  lemma DtoRoundTrip(dto: RoomDto)
    requires ValidDto(dto)
    ensures DtoOf(RoomOf(dto)).roomTitle == Trim(dto.roomTitle)
    ensures Normalised(dto.mondayUnavailable, DtoOf(RoomOf(dto)).mondayUnavailable)
    ensures Normalised(dto.tuesdayUnavailable, DtoOf(RoomOf(dto)).tuesdayUnavailable)
    ensures Normalised(dto.wednesdayUnavailable, DtoOf(RoomOf(dto)).wednesdayUnavailable)
    ensures Normalised(dto.thursdayUnavailable, DtoOf(RoomOf(dto)).thursdayUnavailable)
    ensures Normalised(dto.fridayUnavailable, DtoOf(RoomOf(dto)).fridayUnavailable)
    ensures Normalised(dto.saturdayUnavailable, DtoOf(RoomOf(dto)).saturdayUnavailable)
    ensures Normalised(dto.sundayUnavailable, DtoOf(RoomOf(dto)).sundayUnavailable)
  {
    ListRoundTrip(dto.mondayUnavailable);
    ListRoundTrip(dto.tuesdayUnavailable);
    ListRoundTrip(dto.wednesdayUnavailable);
    ListRoundTrip(dto.thursdayUnavailable);
    ListRoundTrip(dto.fridayUnavailable);
    ListRoundTrip(dto.saturdayUnavailable);
    ListRoundTrip(dto.sundayUnavailable);
  }

  // ---------------------------------------------------------------------------
  // The room table

  /** The index of the first room satisfying `p`: the first document a store
      query finds. */
  function FirstWhere(rooms: seq<Room>, p: Room -> bool): (k: Option<nat>)
    ensures k.Some? ==> k.value < |rooms| && p(rooms[k.value])
    ensures k.Some? ==> forall i :: 0 <= i < k.value ==> !p(rooms[i])
    ensures k.None? ==> forall i :: 0 <= i < |rooms| ==> !p(rooms[i])
  {
    if rooms == [] then None
    else if p(rooms[0]) then Some(0)
    else match FirstWhere(rooms[1..], p)
         case None => None
         case Some(k) => Some(k + 1)
  }

  /** The titles of the rooms, one per room, in store order. */
  function Titles(rooms: seq<Room>): (titles: seq<string>)
    ensures |titles| == |rooms|
    ensures forall i :: 0 <= i < |rooms| ==> titles[i] == rooms[i].roomTitle
  {
    if rooms == [] then [] else [rooms[0].roomTitle] + Titles(rooms[1..])
  }

  /** The rooms not titled `title`, in store order: what a delete by title leaves. */
  function Without(rooms: seq<Room>, title: string): (rest: seq<Room>)
    ensures |rest| <= |rooms|
    ensures forall x :: x in rest <==> x in rooms && x.roomTitle != title
    ensures |rest| == |rooms| <==> forall i :: 0 <= i < |rooms| ==> rooms[i].roomTitle != title
    ensures |rest| == |rooms| ==> rest == rooms
  {
    if rooms == [] then []
    else if rooms[0].roomTitle == title then Without(rooms[1..], title)
    else [rooms[0]] + Without(rooms[1..], title)
  }

  /** Every stored room has an id below the id counter; ids and titles are unique. */
  predicate RoomTable(rooms: seq<Room>, nextRoomId: RoomId) {
    && (forall i :: 0 <= i < |rooms| ==> rooms[i].id.Some? && rooms[i].id.value < nextRoomId)
    && (forall i, j :: 0 <= i < j < |rooms| ==> rooms[i].id != rooms[j].id)
    && (forall i, j :: 0 <= i < j < |rooms| ==> rooms[i].roomTitle != rooms[j].roomTitle)
  }

  lemma TailTable(rooms: seq<Room>, nextRoomId: RoomId)
    requires RoomTable(rooms, nextRoomId) && rooms != []
    ensures RoomTable(rooms[1..], nextRoomId)
    ensures forall y :: y in rooms[1..] ==> y.id != rooms[0].id && y.roomTitle != rooms[0].roomTitle
  {
    var tail := rooms[1..];
    forall i | 0 <= i < |tail|
      ensures tail[i] == rooms[i + 1]
    {
    }
  }

  lemma ConsTable(x: Room, rest: seq<Room>, nextRoomId: RoomId)
    requires RoomTable(rest, nextRoomId)
    requires x.id.Some? && x.id.value < nextRoomId
    requires forall y :: y in rest ==> y.id != x.id && y.roomTitle != x.roomTitle
    ensures RoomTable([x] + rest, nextRoomId)
  {
    var r := [x] + rest;
    forall i, j | 0 <= i < j < |r|
      ensures r[i].id != r[j].id && r[i].roomTitle != r[j].roomTitle
    {
      assert r[j] == rest[j - 1];
      if i > 0 {
        assert r[i] == rest[i - 1];
      } else {
        assert rest[j - 1] in rest;
      }
    }
  }

  /** The table left by a delete is still a room table. */
  lemma {:induction false} WithoutKeepsTable(rooms: seq<Room>, title: string, nextRoomId: RoomId)
    requires RoomTable(rooms, nextRoomId)
    ensures RoomTable(Without(rooms, title), nextRoomId)
  {
    if rooms != [] {
      TailTable(rooms, nextRoomId);
      WithoutKeepsTable(rooms[1..], title, nextRoomId);
      if rooms[0].roomTitle != title {
        ConsTable(rooms[0], Without(rooms[1..], title), nextRoomId);
      }
    }
  }

  lemma AppendTable(rooms: seq<Room>, nextRoomId: RoomId, x: Room, next': RoomId)
    requires RoomTable(rooms, nextRoomId) && nextRoomId <= next'
    requires x.id.Some? && x.id.value < next'
    requires forall i :: 0 <= i < |rooms| ==> rooms[i].id != x.id && rooms[i].roomTitle != x.roomTitle
    ensures RoomTable(rooms + [x], next')
  {
    var r := rooms + [x];
    forall i, j | 0 <= i < j < |r|
      ensures r[i].id != r[j].id && r[i].roomTitle != r[j].roomTitle
    {
      assert r[i] == rooms[i];
    }
  }

  lemma ReplaceTable(rooms: seq<Room>, nextRoomId: RoomId, k: nat, x: Room)
    requires RoomTable(rooms, nextRoomId) && k < |rooms|
    requires x.id == rooms[k].id
    requires forall i :: 0 <= i < |rooms| && i != k ==> rooms[i].roomTitle != x.roomTitle
    ensures RoomTable(rooms[k := x], nextRoomId)
    ensures forall y :: y in rooms && y.id != x.id ==> y in rooms[k := x]
    ensures forall y :: y in rooms[k := x] ==> y == x || (y in rooms && y.id != x.id)
  {
    var r := rooms[k := x];
    forall y | y in rooms && y.id != x.id
      ensures y in r
    {
      var i :| 0 <= i < |rooms| && rooms[i] == y;
      assert r[i] == y;
    }
    forall y | y in r && y != x
      ensures y in rooms && y.id != x.id
    {
      var i :| 0 <= i < |r| && r[i] == y;
      assert i != k && rooms[i] == y;
    }
  }

  /** A title is listed iff a lookup by that title finds a room. */
  lemma TitlesListed(rooms: seq<Room>, title: string)
    ensures title in Titles(rooms) <==> FirstWhere(rooms, (r: Room) => r.roomTitle == title).Some?
  {
    var ts := Titles(rooms);
    if title in ts {
      var k :| 0 <= k < |ts| && ts[k] == title;
      assert rooms[k].roomTitle == title;
    }
    var f := FirstWhere(rooms, (r: Room) => r.roomTitle == title);
    if f.Some? {
      assert ts[f.value] == title;
    }
  }

  lemma TitlesListedAll(rooms: seq<Room>)
    ensures forall t :: t in Titles(rooms) <==> FirstWhere(rooms, (r: Room) => r.roomTitle == t).Some?
  {
    forall t
      ensures t in Titles(rooms) <==> FirstWhere(rooms, (r: Room) => r.roomTitle == t).Some?
    {
      TitlesListed(rooms, t);
    }
  }

  /** The outcome of the store's `save` of a room document: a document whose id
      is already stored is replaced, any other document is inserted (with a
      fresh id when it has none), and a title held by another document breaks
      the unique index. On success the new table and id counter. */
  function Save(rooms: seq<Room>, nextRoomId: RoomId, room: Room): (r: Result<(seq<Room>, RoomId), Error>)
    requires RoomTable(rooms, nextRoomId)
    ensures r.Failure? <==>
      exists i :: 0 <= i < |rooms| && rooms[i].roomTitle == room.roomTitle && rooms[i].id != room.id
    ensures r.Failure? ==> r.error == DuplicateKey(room.roomTitle)
    ensures r.Success? ==> RoomTable(r.value.0, r.value.1) && nextRoomId <= r.value.1
    ensures r.Success? ==>
      (exists k :: 0 <= k < |r.value.0| && r.value.0[k].roomTitle == room.roomTitle &&
         r.value.0[k].unavailabilityMasks == room.unavailabilityMasks &&
         (room.id.Some? ==> r.value.0[k].id == room.id))
    ensures r.Success? ==> forall x :: x in rooms && x.id != room.id ==> x in r.value.0
    ensures r.Success? ==> forall x :: x in r.value.0 ==>
      (x in rooms && x.id != room.id) ||
      (x.roomTitle == room.roomTitle && x.unavailabilityMasks == room.unavailabilityMasks)
    ensures r.Success? ==> |rooms| <= |r.value.0| <= |rooms| + 1
    ensures r.Success? && room.id.Some? ==> room in r.value.0
    ensures r.Success? && room.id.None? ==>
      r.value.0 == rooms + [room.(id := Some(nextRoomId))] && r.value.1 == nextRoomId + 1
  {
    var clash := FirstWhere(rooms, (x: Room) => x.roomTitle == room.roomTitle && x.id != room.id);
    if clash.Some? then
      Failure(DuplicateKey(room.roomTitle))
    else
      match room.id
      case None =>
        var saved := room.(id := Some(nextRoomId));
        var rooms' := rooms + [saved];
        assert rooms'[|rooms|] == saved;
        AppendTable(rooms, nextRoomId, saved, nextRoomId + 1);
        Success((rooms', nextRoomId + 1))
      case Some(id) =>
        match FirstWhere(rooms, (x: Room) => x.id == room.id)
        case Some(k) =>
          var rooms' := rooms[k := room];
          assert rooms'[k] == room;
          ReplaceTable(rooms, nextRoomId, k, room);
          Success((rooms', nextRoomId))
        case None =>
          var rooms' := rooms + [room];
          assert rooms'[|rooms|] == room;
          AppendTable(rooms, nextRoomId, room, if id < nextRoomId then nextRoomId else id + 1);
          Success((rooms', if id < nextRoomId then nextRoomId else id + 1))
  }

  // ---------------------------------------------------------------------------
  // The reservation table and the admission rule

  /** The two reservations are for the same room on the same day. */
  predicate SameSlot(a: Reservation, b: Reservation) {
    a.roomId == b.roomId && a.date == b.date
  }

  /** The mask `r` contributes to the OR for room `roomId` on day `date`. */
  function MaskFor(r: Reservation, roomId: RoomId, date: Day): Int32 {
    if r.roomId == roomId && r.date == date then r.reservationMask else 0
  }

  /** The OR of the masks of all reservations for room `roomId` on day `date`,
      in store order: the stream `reduce(0, (a, b) -> a | b)` of `reserveRoom`. */
  function Occupied(rs: seq<Reservation>, roomId: RoomId, date: Day): Int32 {
    if rs == [] then 0
    else Occupied(rs[..|rs| - 1], roomId, date) | MaskFor(rs[|rs| - 1], roomId, date)
  }

  /** Some reservation for the room and day shares an hour with `q`. */
  predicate Clashes(rs: seq<Reservation>, roomId: RoomId, date: Day, q: Int32) {
    exists j :: 0 <= j < |rs| && rs[j].roomId == roomId && rs[j].date == date &&
      Meets(rs[j].reservationMask, q)
  }

  /** The OR meets `q` iff one of the reservations for that room and day does. */
  lemma {:induction false} OccupiedMeets(rs: seq<Reservation>, roomId: RoomId, date: Day, q: Int32)
    ensures Meets(Occupied(rs, roomId, date), q) <==> Clashes(rs, roomId, date, q)
  {
    if rs == [] {
      MeetsZero(q);
    } else {
      var init, last := rs[..|rs| - 1], rs[|rs| - 1];
      OccupiedMeets(init, roomId, date, q);
      MeetsOrOf(Occupied(rs, roomId, date), Occupied(init, roomId, date), MaskFor(last, roomId, date), q);
      if last.roomId != roomId || last.date != date {
        MeetsZero(q);
      }
      if Clashes(init, roomId, date, q) {
        var j :| 0 <= j < |init| && init[j].roomId == roomId && init[j].date == date &&
          Meets(init[j].reservationMask, q);
        assert rs[j] == init[j];
      }
      if Clashes(rs, roomId, date, q) && !Meets(MaskFor(last, roomId, date), q) {
        var j :| 0 <= j < |rs| && rs[j].roomId == roomId && rs[j].date == date &&
          Meets(rs[j].reservationMask, q);
        assert j < |init| && init[j] == rs[j];
      }
    }
  }

  /** No two reservations for the same room and day share an hour. */
  predicate NoDoubleBooking(rs: seq<Reservation>) {
    forall i, j :: 0 <= i < j < |rs| && SameSlot(rs[i], rs[j]) ==>
      !Meets(rs[i].reservationMask, rs[j].reservationMask)
  }

  /** Appending `x` keeps the table free of double bookings exactly when the
      table was free of them and `x` misses the OR of its room and day: the
      "Already reserved" test rejects precisely the requests that would
      double-book, and no others. */
  lemma AppendBooking(rs: seq<Reservation>, x: Reservation)
    ensures NoDoubleBooking(rs + [x]) <==>
      NoDoubleBooking(rs) && !Meets(Occupied(rs, x.roomId, x.date), x.reservationMask)
  {
    var rs' := rs + [x];
    OccupiedMeets(rs, x.roomId, x.date, x.reservationMask);
    if NoDoubleBooking(rs') {
      forall i, j | 0 <= i < j < |rs| && SameSlot(rs[i], rs[j])
        ensures !Meets(rs[i].reservationMask, rs[j].reservationMask)
      {
        assert rs'[i] == rs[i] && rs'[j] == rs[j];
      }
      forall j | 0 <= j < |rs| && rs[j].roomId == x.roomId && rs[j].date == x.date
        ensures !Meets(rs[j].reservationMask, x.reservationMask)
      {
        assert rs'[j] == rs[j] && rs'[|rs|] == x;
        assert SameSlot(rs'[j], rs'[|rs|]);
      }
    }
    if NoDoubleBooking(rs) && !Clashes(rs, x.roomId, x.date, x.reservationMask) {
      forall i, j | 0 <= i < j < |rs'| && SameSlot(rs'[i], rs'[j])
        ensures !Meets(rs'[i].reservationMask, rs'[j].reservationMask)
      {
        if j < |rs| {
          assert rs'[i] == rs[i] && rs'[j] == rs[j];
        } else {
          assert rs'[i] == rs[i] && rs'[j] == x;
          MeetsSym(rs[i].reservationMask, x.reservationMask);
        }
      }
    }
  }

  /** A reservation respects a room's closed hours on its weekday (a weekday
      without a stored mask closes nothing). */
  predicate Respects(room: Room, r: Reservation) {
    match room.unavailabilityMasks.ForDay(DayOfWeek(r.date))
    case None => true
    case Some(closed) => !Meets(closed, r.reservationMask)
  }

  /** No reservation covers an hour its room closes on that weekday. */
  predicate WithinClosures(rooms: seq<Room>, rs: seq<Reservation>) {
    forall j, k :: 0 <= j < |rs| && 0 <= k < |rooms| && rooms[k].id == Some(rs[j].roomId) ==>
      Respects(rooms[k], rs[j])
  }

  /** Appending a reservation that respects its room keeps every reservation
      within its room's closures, since room ids are unique. */
  lemma AppendWithinClosures(rooms: seq<Room>, nextRoomId: RoomId, rs: seq<Reservation>, k: nat, x: Reservation)
    requires RoomTable(rooms, nextRoomId) && WithinClosures(rooms, rs)
    requires k < |rooms| && rooms[k].id == Some(x.roomId) && Respects(rooms[k], x)
    ensures WithinClosures(rooms, rs + [x])
  {
    var rs' := rs + [x];
    forall j, k' | 0 <= j < |rs'| && 0 <= k' < |rooms| && rooms[k'].id == Some(rs'[j].roomId)
      ensures Respects(rooms[k'], rs'[j])
    {
      if j < |rs| {
        assert rs'[j] == rs[j];
      } else {
        assert k' == k;
      }
    }
  }

  // ---------------------------------------------------------------------------
  // The service

  /** The two stores of the service. Every saved room and reservation receives
      a fresh id from its counter, as the store generates object ids. */
  class RoomService {
    var rooms: seq<Room>
    var reservations: seq<Reservation>
    var nextRoomId: RoomId
    var nextReservationId: ReservationId

    /** The store invariant: the rooms form a room table, reservation ids are
        distinct and below their counter, and no hour is booked twice. */
    predicate Valid()
      reads this
    {
      && RoomTable(rooms, nextRoomId)
      && (forall j :: 0 <= j < |reservations| ==> reservations[j].id < nextReservationId)
      && (forall i, j :: 0 <= i < j < |reservations| ==> reservations[i].id != reservations[j].id)
      && NoDoubleBooking(reservations)
    }

    /** Empty stores. */
    constructor ()
      ensures Valid()
      ensures rooms == [] && reservations == []
    {
      rooms := [];
      reservations := [];
      nextRoomId := 0;
      nextReservationId := 0;
    }

    /** `getRoom`: the first room with the title, or RoomNotFound; with unique
        titles it is the one room with that title. */
    function GetRoom(title: string): (r: Result<Room, Error>)
      reads this
      ensures r.Success? ==> r.value in rooms && r.value.roomTitle == title
      ensures r.Failure? <==> forall i :: 0 <= i < |rooms| ==> rooms[i].roomTitle != title
      ensures r.Failure? ==> r.error == RoomNotFoundByTitle(title)
      ensures Valid() ==> forall k :: 0 <= k < |rooms| && rooms[k].roomTitle == title ==> r == Success(rooms[k])
    {
      match FirstWhere(rooms, (x: Room) => x.roomTitle == title)
      case None => Failure(RoomNotFoundByTitle(title))
      case Some(k) => Success(rooms[k])
    }

    /** `getRoomById`: the first room with the id, or RoomNotFound. */
    function GetRoomById(id: RoomId): (r: Result<Room, Error>)
      reads this
      ensures r.Success? ==> r.value in rooms && r.value.id == Some(id)
      ensures r.Failure? <==> forall i :: 0 <= i < |rooms| ==> rooms[i].id != Some(id)
      ensures r.Failure? ==> r.error == RoomNotFoundById(id)
    {
      match FirstWhere(rooms, (x: Room) => x.id == Some(id))
      case None => Failure(RoomNotFoundById(id))
      case Some(k) => Success(rooms[k])
    }

    /** `getRooms`: one title per room, in store order; a title is listed iff
        `getRoom` finds a room by it. */
    function GetRooms(): (titles: seq<string>)
      reads this
      ensures |titles| == |rooms|
      ensures forall i :: 0 <= i < |rooms| ==> titles[i] == rooms[i].roomTitle
      ensures forall t :: t in titles <==> GetRoom(t).Success?
    {
      TitlesListedAll(rooms);
      Titles(rooms)
    }

    /** `addRoom`: the store's save, which inserts or replaces the room and
        fails with DuplicateKey when another room holds its title. */
    method AddRoom(room: Room) returns (r: Outcome<Error>)
      requires Valid()
      modifies this
      ensures Valid()
      ensures reservations == old(reservations) && nextReservationId == old(nextReservationId)
      ensures match Save(old(rooms), old(nextRoomId), room)
        case Failure(e) => r == Fail(e) && rooms == old(rooms) && nextRoomId == old(nextRoomId)
        case Success(saved) => r == Pass && rooms == saved.0 && nextRoomId == saved.1
    {
      match Save(rooms, nextRoomId, room)
      case Failure(e) =>
        r := Fail(e);
      case Success(saved) =>
        rooms, nextRoomId := saved.0, saved.1;
        r := Pass;
    }

    /** `configureRoom`: replaces the masks of the first room with the given
        title, and nothing else; RoomNotFound when no room matched. */
    method ConfigureRoom(room: Room) returns (r: Outcome<Error>)
      requires Valid()
      modifies this
      ensures Valid()
      ensures reservations == old(reservations)
      ensures nextRoomId == old(nextRoomId) && nextReservationId == old(nextReservationId)
      ensures match FirstWhere(old(rooms), (x: Room) => x.roomTitle == room.roomTitle)
        case None =>
          r == Fail(RoomNotFoundByTitle(room.roomTitle)) && rooms == old(rooms)
        case Some(k) =>
          r == Pass &&
          rooms == old(rooms)[k := old(rooms)[k].(unavailabilityMasks := room.unavailabilityMasks)]
    {
      match FirstWhere(rooms, (x: Room) => x.roomTitle == room.roomTitle)
      case None =>
        r := Fail(RoomNotFoundByTitle(room.roomTitle));
      case Some(k) =>
        ReplaceTable(rooms, nextRoomId, k, rooms[k].(unavailabilityMasks := room.unavailabilityMasks));
        rooms := rooms[k := rooms[k].(unavailabilityMasks := room.unavailabilityMasks)];
        r := Pass;
    }

    /** `deleteRoom`: removes every room with the title and leaves the
        reservations alone; RoomNotFound when nothing was deleted. */
    method DeleteRoom(roomTitle: string) returns (r: Outcome<Error>)
      requires Valid()
      modifies this
      ensures Valid()
      ensures rooms == Without(old(rooms), roomTitle)
      ensures reservations == old(reservations)
      ensures nextRoomId == old(nextRoomId) && nextReservationId == old(nextReservationId)
      ensures r.Fail? <==> forall i :: 0 <= i < |old(rooms)| ==> old(rooms)[i].roomTitle != roomTitle
      ensures r.Fail? ==> r.error == RoomNotFoundByTitle(roomTitle) && rooms == old(rooms)
    {
      var rest := Without(rooms, roomTitle);
      var deletedCount := |rooms| - |rest|;
      WithoutKeepsTable(rooms, roomTitle, nextRoomId);
      rooms := rest;
      if deletedCount == 0 {
        r := Fail(RoomNotFoundByTitle(roomTitle));
      } else {
        r := Pass;
      }
    }

    /** `reserveRoom` for the day `date`: finds the room by title, takes its
        mask for the weekday of `date` (failing as Java's unboxing does when none
        is stored), rejects a request meeting the closed hours ("Unavailable
        time") or the OR of the room's reservations that day ("Already
        reserved"), and otherwise appends one reservation and returns its id. */
    method ReserveRoom(roomTitle: string, date: Day, startHour: int, endHour: int)
      returns (r: Result<ReservationId, Error>)
      requires Valid()
      requires endHour < startHour || (0 <= startHour && endHour < HoursPerDay)
      modifies this
      ensures Valid()
      ensures rooms == old(rooms) && nextRoomId == old(nextRoomId)
      ensures r.Failure? ==> reservations == old(reservations) && nextReservationId == old(nextReservationId)
      ensures old(WithinClosures(rooms, reservations)) ==> WithinClosures(rooms, reservations)
      ensures match old(GetRoom(roomTitle))
        case Failure(e) => r == Failure(e)
        case Success(room) =>
          match room.unavailabilityMasks.ForDay(DayOfWeek(date))
          case None => r == Failure(NullPointer)
          case Some(closed) =>
            var q := RangeMask(startHour, endHour);
            if Meets(closed, q) then
              r == Failure(UnavailableReservation(UnavailableTime))
            else if Meets(Occupied(old(reservations), room.id.value, date), q) then
              r == Failure(UnavailableReservation(AlreadyReserved))
            else
              && r == Success(old(nextReservationId))
              && reservations == old(reservations) + [Reservation(old(nextReservationId), room.id.value, date, q)]
              && nextReservationId == old(nextReservationId) + 1
    {
      var reservationMask := ConvertHourRangeToMask(startHour, endHour);
      var found := GetRoom(roomTitle);
      if found.Failure? {
        return Failure(found.error);
      }
      var room := found.value;
      var roomMask := room.unavailabilityMasks.ForDay(DayOfWeek(date));
      if roomMask.None? {
        return Failure(NullPointer);
      }
      var closed := roomMask.value;
      MeetsZero(reservationMask);
      if closed != 0 && Meets(closed, reservationMask) {
        return Failure(UnavailableReservation(UnavailableTime));
      }
      ghost var k :| 0 <= k < |rooms| && rooms[k] == room;
      var roomId := room.id.value;
      var mask := Occupied(reservations, roomId, date);
      if Meets(mask, reservationMask) {
        return Failure(UnavailableReservation(AlreadyReserved));
      }
      assert Respects(rooms[k], Reservation(nextReservationId, roomId, date, reservationMask));
      var id := SaveReservation(k, roomId, date, reservationMask);
      return Success(id);
    }

    /** The reservation store's insert: appends a reservation for room
        `roomId` on day `date` under a fresh id. Given that the request misses
        the room's bookings that day, no hour becomes double-booked; given that
        it respects the room's closures, every reservation still does. */
    method SaveReservation(ghost k: nat, roomId: RoomId, date: Day, q: Int32) returns (id: ReservationId)
      requires Valid()
      requires !Meets(Occupied(reservations, roomId, date), q)
      requires k < |rooms| && rooms[k].id == Some(roomId)
      modifies this
      ensures Valid()
      ensures id == old(nextReservationId)
      ensures reservations == old(reservations) + [Reservation(id, roomId, date, q)]
      ensures nextReservationId == old(nextReservationId) + 1
      ensures rooms == old(rooms) && nextRoomId == old(nextRoomId)
      ensures old(WithinClosures(rooms, reservations)) && Respects(rooms[k], Reservation(id, roomId, date, q)) ==>
                WithinClosures(rooms, reservations)
    {
      var reservation := Reservation(nextReservationId, roomId, date, q);
      AppendBooking(reservations, reservation);
      if WithinClosures(rooms, reservations) && Respects(rooms[k], reservation) {
        AppendWithinClosures(rooms, nextRoomId, reservations, k, reservation);
      }
      reservations := reservations + [reservation];
      nextReservationId := nextReservationId + 1;
      id := reservation.id;
    }
  }
}
