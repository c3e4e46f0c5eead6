/**
 * The server's `BookingDtoMapper`: a booking request becomes a draft booking
 * that the service completes, and a stored booking becomes the DTO sent back.
 */
module BookingMapper {
  import opened Common
  import opened Entities
  import ItemMapper

  /**
   * A booking under construction: `new Booking()` with some setters applied.
   * `None` marks a field that no setter has touched yet.
   */
  datatype BookingDraft = BookingDraft(
    id: Option<int>,
    start: Time,
    end: Time,
    item: Option<Item>,
    booker: Option<User>,
    status: Option<BookingStatus>)

  /** `mapToBooking`: copies the interval and leaves every other field unset. */
  function MapToBooking(dto: BookingDto): (b: BookingDraft)
    ensures b.start == dto.start && b.end == dto.end
    ensures b.id.None? && b.item.None? && b.booker.None? && b.status.None?
  {
    BookingDraft(None, dto.start, dto.end, None, None, None)
  }

  /** `mapToBookingDtoOut`: the booking's own fields unchanged, its item and booker mapped by their mappers. */
  function MapToBookingDtoOut(b: Booking): (d: BookingDtoOut)
    ensures d.id == b.id && d.start == b.start && d.end == b.end && d.status == b.status
    ensures d.item == ItemMapper.MapToItemDto(b.item)
    ensures d.booker == MapToUserDto(b.booker)
  {
    BookingDtoOut(b.id, b.start, b.end, ItemMapper.MapToItemDto(b.item), MapToUserDto(b.booker), b.status)
  }

  /** The DTO keeps the ids that tie the booking to its item, owner and booker. */
  lemma BookingDtoKeepsReferences(b: Booking)
    ensures MapToBookingDtoOut(b).item.id == b.item.id
    ensures MapToBookingDtoOut(b).item.owner == b.item.owner.id
    ensures MapToBookingDtoOut(b).booker.id == b.booker.id
  {
  }
}
