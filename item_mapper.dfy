/**
 * The server's `ItemDtoMapper`: an item as the client sees it. The owner is
 * reduced to its id and the request to its id, with 0 standing for "none".
 */
module ItemMapper {
  import opened Common
  import opened Entities

  /** The id a DTO shows for an item's request: the request's id, or 0 when there is none. */
  function RequestIdOf(request: Option<ItemRequest>): int {
    if request.Some? then request.value.id else 0
  }

  /** `mapToItemDto`. */
  function MapToItemDto(item: Item): (d: ItemDto)
    ensures d.id == item.id && d.name == item.name && d.description == item.description
    ensures d.available == item.available
    ensures d.owner == item.owner.id
    ensures item.request.Some? ==> d.requestId == item.request.value.id
    ensures item.request.None? ==> d.requestId == 0
  {
    ItemDto(item.id, item.name, item.description, item.available, item.owner.id, RequestIdOf(item.request))
  }

  /** `mapToItemDtoWithBookingTime`: the item's fields with the given booking times and comments. */
  function MapToItemDtoWithBookingTime(
    item: Item, last: Option<Time>, next: Option<Time>, comments: seq<CommentDtoOut>): (d: ItemDtoOut)
    ensures d.lastBooking == last && d.nextBooking == next && d.comments == comments
  {
    ItemDtoOut(item.id, item.name, item.description, item.available, item.owner.id, RequestIdOf(item.request),
      last, next, comments)
  }

  /** The fields an enriched DTO shares with the plain one. */
  function Plain(d: ItemDtoOut): ItemDto {
    ItemDto(d.id, d.name, d.description, d.available, d.owner, d.requestId)
  }

  /** The enriched DTO agrees with `mapToItemDto` on every field they share, whatever times and comments are passed. */
  lemma WithBookingTimeAgrees(item: Item, last: Option<Time>, next: Option<Time>, comments: seq<CommentDtoOut>)
    ensures Plain(MapToItemDtoWithBookingTime(item, last, next, comments)) == MapToItemDto(item)
  {
  }

  /** Items that differ in a field the DTO shows have different DTOs; the DTO ignores only the owner's name and email and the request's body. */
  lemma ItemDtoSeparates(a: Item, b: Item)
    requires MapToItemDto(a) == MapToItemDto(b)
    ensures a.id == b.id && a.name == b.name && a.description == b.description && a.available == b.available
    ensures a.owner.id == b.owner.id && RequestIdOf(a.request) == RequestIdOf(b.request)
  {
  }
}
