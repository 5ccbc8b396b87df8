# Room reservation core, modelled in Dafny

This project models the admission core of a meeting-room reservation service.

- **Room table.** Each room has a unique title and, per weekday, an optional 24-bit hour mask. In the service's encoding a set bit h means the room is closed during h:00-h:59.
- **Reservation table.** Each reservation holds a room id, a day and a mask of the reserved hours.
- **`reserveRoom`.** It turns an hour range into a mask and looks up the room by title. It rejects the request if the mask meets the room's closed hours for the weekday of the date ("Unavailable time"). It also rejects it if the mask meets the OR of the room's existing reservations that day ("Already reserved"). Otherwise it appends one reservation.
- **Codecs.** The service converts between hour lists and masks.
- **Room document of another revision.** `Room.java` uses the inverted encoding, where a stored bit is set when the hour is available (`~mask`). It is modelled separately in `RoomModel`.
- **Request validator.** `ReservationRequestDto` defines the well-formed `reserveRoom` requests.

Modules, one per file:

- `Wrappers`: `Option`, `Result`, `Outcome`.
- `Bits`: a Java `int` as `bv32`.
  - `Bit(h)` is `1 << h`.
  - `Meets(m, p)` is `(m & p) != 0`.
  - `Has(m, h)` says that bit h is set.
- `Masks`: hour lists and masks, shared by both encodings.
- `Calendar`: days as epoch-day keys, and the weekday of a day.
- `Text`: Java's `String.trim()`.
- `Service` (RoomService.java): the service's encoding, its codecs and DTO conversion, the room and reservation tables. The `RoomService` class holds both stores as sequences.
- `RoomModel` (Room.java): the inverted encoding, the `AvailabilityMask` and `Room` classes, and `fromDto`/`toDto`.
- `ReservationRequest` (ReservationRequestDto.java): the field constraints and `getHourRangeValidity`.

Three properties are proved to be kept:

- The room store always has unique titles and unique ids below the id counter.
- The reservation store never double-books an hour. Two reservations for the same room and day never share an hour bit.
- Every `reserveRoom` keeps the closure rule: no reservation covers an hour its room closes on that weekday.

The closure rule is not part of the store invariant, because `addRoom` and `configureRoom` may later change a room's masks, as the source allows.

The model follows the code in two places where a reader might expect otherwise:

- **`deleteRoom` does not cascade.** It removes only the room, and its reservations stay.
- **An unset weekday mask is not "open".** `reserveRoom` unboxes it and throws NullPointerException. The model returns the `NullPointer` error and changes nothing.

## Model

| member | source | states |
|---|---|---|
| `Service.ConvertHourListToMask` | src/main/java/org/reminstant/service/RoomService.java:155-164 | null maps to null. Otherwise bit h of the mask is set iff h occurs in the list. |
| `Masks.OrOfBitsHas` | src/main/java/org/reminstant/service/RoomService.java:159-163 | bit h of the OR of `1 << hour` over a list is set iff h is in the list, so no bit from 24 up is set |
| `Masks.OrOfBitsOnlyMembers` | src/main/java/org/reminstant/service/RoomService.java:155-164 | two lists with the same members give the same mask: order and duplicates do not matter |
| `Service.ConvertHourMaskToList` | src/main/java/org/reminstant/service/RoomService.java:166-177 | null maps to null. Otherwise the list is strictly ascending and holds exactly the set bits among 0..23; bits from 24 up are ignored. |
| `Masks.HoursWithSpec` | src/main/java/org/reminstant/service/RoomService.java:170-176 | the loop's list is ascending and holds exactly the hours below n whose bit has the tested value |
| `Service.ConvertHourRangeToMask` | src/main/java/org/reminstant/service/RoomService.java:179-185 | the mask has exactly the bits s..e set, and it is 0 when s > e |
| `Masks.RangeMaskHas` | src/main/java/org/reminstant/service/RoomService.java:181-183 | bit h of the range mask is set iff s <= h <= e |
| `Service.ListRoundTrip` | src/main/java/org/reminstant/service/RoomService.java:155-177 | list to mask to list gives the ascending, duplicate-free form of the list (null stays null) |
| `Masks.NormalisedUnique` | src/main/java/org/reminstant/service/RoomService.java:166-177 | the ascending, duplicate-free form of a list is unique, so the round trip yields exactly that list |
| `Service.MaskRoundTrip` | src/main/java/org/reminstant/service/RoomService.java:155-177 | mask to list to mask keeps bits 0..23 and clears the rest. A mask without bits from 24 up comes back unchanged. |
| `Service.GetRoomFromDto` | src/main/java/org/reminstant/service/RoomService.java:128-139 | the room has no id and the trimmed title, and each weekday's list is encoded into that same weekday's mask |
| `Service.ConvertRoomToDto` | src/main/java/org/reminstant/service/RoomService.java:141-151 | the transfer form keeps the title and decodes each weekday's mask into that weekday's list |
| `Service.DtoRoundTrip` | src/main/java/org/reminstant/service/RoomService.java:128-151 | DTO to room to DTO gives the trimmed title and, per weekday, the normalised list (null stays null) |
| `Text.Trim` | src/main/java/org/reminstant/service/RoomService.java:129 | the trimmed title is the slice of the input that follows its leading characters up to U+0020 and is followed only by such characters, and it neither starts nor ends with one |
| `Text.TrimIdempotent` | src/main/java/org/reminstant/service/RoomService.java:129 | trimming a trimmed title changes nothing |
| `Service.FirstWhere` | src/main/java/org/reminstant/service/RoomService.java:56 | `findFirst` gives the first matching room, and none when no room matches |
| `Service.Titles` | src/main/java/org/reminstant/service/RoomService.java:42 | one title per room, in store order |
| `Service.TitlesListed` | src/main/java/org/reminstant/service/RoomService.java:37-59 | a title is listed by `getRooms` iff the title lookup finds a room |
| `Service.Without` | src/main/java/org/reminstant/service/RoomService.java:76-78 | removal by title keeps exactly the rooms with other titles. The length is unchanged iff no room had the title, and then the table is unchanged. |
| `Service.WithoutKeepsTable` | src/main/java/org/reminstant/service/RoomService.java:75-82 | a delete keeps ids and titles unique |
| `Service.Save` | src/main/java/org/reminstant/service/RoomService.java:61-63 | save fails with DuplicateKey iff another document holds the title. Otherwise the table stays valid and grows by at most one document. Every room with another id is kept, and every stored room is either such a kept room or carries the saved title and masks. A new document gets the next id and is appended; a document with an id is stored as given. |
| `Service.ReplaceTable` | src/main/java/org/reminstant/service/RoomService.java:65-73 | replacing a room's masks under its own id and title keeps the table valid |
| `Service.OccupiedMeets` | src/main/java/org/reminstant/service/RoomService.java:112-116 | the OR of the room's masks for the day meets the request iff some reservation for that room and day meets it |
| `Service.AppendBooking` | src/main/java/org/reminstant/service/RoomService.java:106-121 | appending keeps the store free of double bookings iff it was free and the new mask misses the OR. "Already reserved" rejects exactly the double bookings. |
| `Service.AppendWithinClosures` | src/main/java/org/reminstant/service/RoomService.java:102-121 | appending a reservation that misses its room's closed hours keeps every reservation outside its room's closed hours |
| `Calendar.DayOfWeek` | src/main/java/org/reminstant/service/RoomService.java:92 | the weekday of an epoch day; day 0 (1970-01-01) is a Thursday |
| `Service.RoomService.constructor` | src/main/java/org/reminstant/service/RoomService.java:32-34 | both stores start empty and satisfy the store invariant |
| `Service.RoomService.GetRooms` | src/main/java/org/reminstant/service/RoomService.java:37-43 | one title per room in store order, and a title is listed iff `getRoom` finds it |
| `Service.RoomService.GetRoomById` | src/main/java/org/reminstant/service/RoomService.java:45-51 | success gives a stored room with the id. RoomNotFound("id") iff no stored room has it. |
| `Service.RoomService.GetRoom` | src/main/java/org/reminstant/service/RoomService.java:53-59 | success gives a stored room with the title, which is the one room with it. RoomNotFound("title") iff no room has it. |
| `Service.RoomService.AddRoom` | src/main/java/org/reminstant/service/RoomService.java:61-63 | the room store becomes exactly what save gives, or stays unchanged with the DuplicateKey error. Reservations are untouched and the invariant is kept. |
| `Service.RoomService.ConfigureRoom` | src/main/java/org/reminstant/service/RoomService.java:65-73 | only the masks of the first room with the title are replaced. With no match it fails with RoomNotFound and changes nothing. |
| `Service.RoomService.DeleteRoom` | src/main/java/org/reminstant/service/RoomService.java:75-82 | the rooms with the title are removed and reservations are untouched. It fails with RoomNotFound iff nothing was deleted, and the store is then unchanged. |
| `Service.RoomService.ReserveRoom` | src/main/java/org/reminstant/service/RoomService.java:86-124 | See the list under the table. |
| `Service.RoomService.SaveReservation` | src/main/java/org/reminstant/service/RoomService.java:120-121 | exactly one reservation is appended, with a fresh id. No double booking and the closure rule are preserved. |
| `RoomModel.AvailabilityOf` | src/main/java/org/reminstant/model/Room.java:68-77 | null stays null. Otherwise bit h is set iff h is NOT in the list (the complement of the OR), so every bit from 24 up is set. |
| `RoomModel.InvertHas` | src/main/java/org/reminstant/model/Room.java:72-76 | `~` of the OR has bit h set iff h is not in the list |
| `RoomModel.UnavailabilityOf` | src/main/java/org/reminstant/model/Room.java:79-90 | null stays null. Otherwise the list is ascending and holds exactly the hours 0..23 whose bit is clear. |
| `RoomModel.UnavailabilityRoundTrip` | src/main/java/org/reminstant/model/Room.java:68-90 | list to inverted mask to list gives the ascending, duplicate-free list (null stays null) |
| `RoomModel.Room.ConvertUnavailabilityListToMask` | src/main/java/org/reminstant/model/Room.java:68-77 | the loop computes the inverted mask described by `AvailabilityOf` |
| `RoomModel.Room.ConvertMaskToUnavailabilityList` | src/main/java/org/reminstant/model/Room.java:79-90 | the loop computes the list of clear hours described by `UnavailabilityOf` |
| `RoomModel.AvailabilityMask.constructor` | src/main/java/org/reminstant/model/Room.java:20-28 | all seven weekday masks are unset |
| `RoomModel.Room.constructor` | src/main/java/org/reminstant/model/Room.java:38-41 | the title is set, there is no id, and a fresh mask record has all seven weekdays unset |
| `RoomModel.Room.FromDto` | src/main/java/org/reminstant/model/Room.java:43-54 | a fresh room with the trimmed title. Each weekday's list is stored inverted in the field of that same weekday. |
| `RoomModel.Room.ToDto` | src/main/java/org/reminstant/model/Room.java:56-66 | the title and, per weekday, the clear hours of that weekday's mask, with Sunday and Saturday matching the record's field order |
| `RoomModel.ConfigurationRoundTrip` | src/main/java/org/reminstant/model/Room.java:43-66 | on what `FromDto` stores, `ToDto` gives every weekday's list back normalised and in its own weekday (null stays null) |
| `RoomModel.RoundTrip` | src/main/java/org/reminstant/model/Room.java:43-66 | `toDto` of the room `fromDto` builds gives the trimmed title, which trimming again leaves unchanged, and every weekday's list normalised in its own weekday (null stays null) |
| `ReservationRequest.HourRangeValidity` | src/main/java/org/reminstant/dto/http/request/ReservationRequestDto.java:22-26 | NullPointer iff an hour is null. Otherwise the value is `startHour <= endHour`. |
| `ReservationRequest.ValidWellFormed` | src/main/java/org/reminstant/dto/http/request/ReservationRequestDto.java:9-26 | a valid request has the field properties listed under `ValidIff` |
| `ReservationRequest.WellFormedValid` | src/main/java/org/reminstant/dto/http/request/ReservationRequestDto.java:9-24 | a request with those field properties passes every constraint |
| `ReservationRequest.ValidIff` | src/main/java/org/reminstant/dto/http/request/ReservationRequestDto.java:8-26 | See the list under the table. |
| `ReservationRequest.ValidRequestMask` | src/main/java/org/reminstant/dto/http/request/ReservationRequestDto.java:15-26 | a valid request's hours are ones `reserveRoom` accepts. Its range mask is non-zero and holds exactly the contiguous hours start..end, so nothing from bit 24 up. |
| `Bits.BitIsShift` | src/main/java/org/reminstant/service/RoomService.java:161 | the model's `Bit(h)` is Java's `1 << h` for h in 0..31 |
| `Bits.HasBit` | src/main/java/org/reminstant/service/RoomService.java:172 | `1 << h` has exactly bit h set |
| `Bits.HasNot` | src/main/java/org/reminstant/model/Room.java:76 | `~m` flips every bit |
| `Bits.BitsExtensional` | src/main/java/org/reminstant/service/RoomService.java:155-177 | two masks with the same 32 bits are equal |

`Service.RoomService.ReserveRoom` states these outcomes:

- If no room has the title, it returns RoomNotFound.
- If the weekday's mask is unset, it returns NullPointer.
- If the request meets the closed hours, it returns "Unavailable time".
- If the request meets the OR of that room's reservations for the day, it returns "Already reserved".
- Otherwise it appends exactly (id, room id, day, mask), returns the id and increments the counter.
- Every failure leaves the stores unchanged.
- The store invariant is always kept, and so is the closure rule.

`ReservationRequest.ValidIff` states that a request passes validation exactly when all of these hold:

- the title is non-null, is not blank after `trim()`, and has 1 to 32 characters;
- the date is non-null, is not blank, and has exactly 10 characters;
- both hours are non-null, with 0 <= startHour <= endHour <= 23.

## Left out

- **Concurrency.** The reservation read and the `save` in `reserveRoom` form a non-atomic check-then-insert. The model runs each operation as one sequential step and makes no claim about concurrent writers.
- **Date parsing.** `OffsetDateTime.parse` of the date string and the mapping of the time zone are java.time calls. `reserveRoom` takes the day as an epoch-day key, and `DayOfWeek` is java.time's weekday formula on that key. The Mongo date converters are not part of this model.
- **Persistence mechanics.** Mongo queries, projections, `updateFirst`, `remove` and `save` become operations on in-memory sequences.
  - Store-generated object ids (strings) are modelled as numbers from a counter, and in `RoomModel` as an optional string.
  - The unique index on titles becomes the `DuplicateKey` outcome of `Save`.
- **The service's `Room` class.** RoomService.java uses a `Room` class with `getUnavailabilityMasks` (set bit = closed) that differs from Room.java, which is another revision. That class is not part of this model. The service's room is therefore the `Service.Room` document datatype, inferred from the accessors the service calls.
- Service.RoomService.AddRoom: Mongo's `save` also writes the generated id into the caller's object. The model returns the new store and does not update the argument, since it is a value.
- **Java int details.** `1 << hour` wraps for hours of 32 or more. The list and range codecs require hours in [0, 23], as the DTO annotations and the validator guarantee.
- Service.RoomService.ReserveRoom: requires hours in [0, 23] when startHour <= endHour. Hours of 32 or more and negative hours are excluded because the wrap of `1 << hour` is not modelled. Hours 24 to 31 do not wrap but are excluded too, because masks cover the 24 hours of a day and the codecs assume hours 0 to 23. A range with startHour > endHour stays allowed, and its mask is 0.
- **Null list elements and string length.** A null element inside an hour list would throw on unboxing and is not modelled. Lengths of strings are counted in characters rather than UTF-16 code units.
- **Validation report order.** `ReservationRequest.Violations` lists the failed constraints in declaration order. Bean Validation reports them as an unordered set; only whether the list is empty matters to the lemmas.
- **Behaviour that RoomService.java and Reservation.java do not define.** None of it is modelled:
  - operations the controllers call but RoomService.java does not define (availability per day, listing and cancelling reservations, a five-argument `reserveRoom`);
  - per-user ownership, the look-ahead horizon and the common unavailable-days schedule;
  - a cascading delete of reservations.
- **Authentication and HTTP.** JWT, password hashing, Redis, security configuration, the controllers and the exception-to-HTTP mapping are outside the modelled core. So are the duplicate validator in `dto/http/common` and the `equals`/`hashCode` boilerplate of the DTOs.
