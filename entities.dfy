/**
 * The entities of the rental backend and the DTOs the services exchange.
 * A reference the source holds to another entity (a booking's item, an
 * item's owner) is held here as that entity's value.
 */
module Entities {
  import opened Common

  /** A registered user; `name` and `email` may be null, as in a partial update. */
  datatype User = User(id: int, name: Option<string>, email: Option<string>)

  /**
   * A "wanted item" request. `requester` and `created` are set by the service;
   * `items` is the list of items that name this request as their origin.
   */
  datatype ItemRequest = ItemRequest(
    id: int,
    description: string,
    requester: Option<User>,
    created: Option<Time>,
    items: Option<seq<Item>>)

  /** An item offered for rent, with its owner and the request it answers, if any. */
  datatype Item = Item(
    id: int,
    name: string,
    description: string,
    available: bool,
    owner: User,
    request: Option<ItemRequest>)

  datatype BookingStatus = WAITING | APPROVED | REJECTED | CANCELED

  /** A booking of `item` by `booker` for the interval from `start` to `end`. */
  datatype Booking = Booking(
    id: int,
    start: Time,
    end: Time,
    item: Item,
    booker: User,
    status: BookingStatus)

  /** A comment left on an item by a former booker. */
  datatype Comment = Comment(id: int, text: string, item: Item, author: User, created: Time)

  /** The booking request a client sends. */
  datatype BookingDto = BookingDto(start: Time, end: Time, itemId: int)

  /** An item as the server sends and receives it; `requestId` 0 means "no request". */
  datatype ItemDto = ItemDto(
    id: int,
    name: string,
    description: string,
    available: bool,
    owner: int,
    requestId: int)

  /** The fields of an item update; `None` means "not supplied". */
  datatype ItemPatch = ItemPatch(name: Option<string>, description: Option<string>, available: Option<bool>)

  datatype UserDto = UserDto(id: int, name: Option<string>, email: Option<string>)

  datatype CommentDtoOut = CommentDtoOut(
    id: int,
    text: string,
    itemId: int,
    authorName: Option<string>,
    created: Time)

  /** An item enriched with its booking times and its comments. */
  datatype ItemDtoOut = ItemDtoOut(
    id: int,
    name: string,
    description: string,
    available: bool,
    owner: int,
    requestId: int,
    lastBooking: Option<Time>,
    nextBooking: Option<Time>,
    comments: seq<CommentDtoOut>)

  datatype BookingDtoOut = BookingDtoOut(
    id: int,
    start: Time,
    end: Time,
    item: ItemDto,
    booker: UserDto,
    status: BookingStatus)

  datatype ItemRequestDto = ItemRequestDto(
    id: int,
    description: string,
    requester: Option<User>,
    created: Option<Time>,
    items: Option<seq<ItemDto>>)

  // Primary keys of the stored entities, and the copy of an entity with a generated key.

  function UserKey(u: User): int { u.id }
  function ItemKey(i: Item): int { i.id }
  function BookingKey(b: Booking): int { b.id }
  function CommentKey(c: Comment): int { c.id }
  function RequestKey(r: ItemRequest): int { r.id }

  function UserWithId(u: User, id: int): User { u.(id := id) }
  function ItemWithId(i: Item, id: int): Item { i.(id := id) }
  function BookingWithId(b: Booking, id: int): Booking { b.(id := id) }
  function CommentWithId(c: Comment, id: int): Comment { c.(id := id) }
  function RequestWithId(r: ItemRequest, id: int): ItemRequest { r.(id := id) }

  /** The user's DTO: a field-by-field copy. */
  function MapToUserDto(u: User): UserDto {
    UserDto(u.id, u.name, u.email)
  }

  /** The comment's DTO: its item is reduced to the id, its author to the name. */
  function MapToCommentDto(c: Comment): CommentDtoOut {
    CommentDtoOut(c.id, c.text, c.item.id, c.author.name, c.created)
  }
}
