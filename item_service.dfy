/**
 * The server's `ItemServiceImp`: adding and updating items, reading them
 * enriched with booking times and comments, searching the catalogue, and
 * commenting, which is reserved to users whose booking of the item has ended.
 */
module ItemService {
  import opened Common
  import opened Text
  import opened Entities
  import opened Store
  import opened BookingRepository
  import opened ItemMapper
  import UserService
  import RequestService

  /** `validateOwner`: a caller other than the owner gets NotFound, not Forbidden. */
  function ValidateOwner(userId: int, item: Item): (r: Result<()>)
    ensures r.Ok? <==> item.owner.id == userId
    ensures r.Err? ==> r.error == NotFound
  {
    if item.owner.id != userId then Err(NotFound) else Ok(())
  }

  /** `validateBooker`: passes only when the user has a booking of the item that ended strictly before `now`. */
  function ValidateBooker(bookings: seq<Booking>, itemId: int, userId: int, now: Time): (r: Result<()>)
    ensures r.Ok? <==> exists b :: b in bookings && b.item.id == itemId && b.booker.id == userId && b.end < now
    ensures r.Err? ==> r.error == Validation
  {
    var past := FindByItemIdAndBookerIdAndEndBefore(bookings, itemId, userId, now);
    if past == [] then Err(Validation)
    else
      assert past[0] in past;
      Ok(())
  }

  // The booking times shown with an item.

  /** A booking that counts for the last booking time: CANCELED, and ended strictly before `now`. */
  predicate EndedCanceled(b: Booking, now: Time) {
    b.status == CANCELED && b.end < now
  }

  /** `r` is the latest end among the counted bookings of `s`, or null when none counts. */
  ghost predicate IsLatestEnd(s: seq<Booking>, now: Time, r: Option<Time>) {
    && (r.None? <==> forall b :: b in s ==> !EndedCanceled(b, now))
    && (r.Some? ==> exists b :: b in s && EndedCanceled(b, now) && b.end == r.value)
    && (r.Some? ==> forall b :: b in s && EndedCanceled(b, now) ==> b.end <= r.value)
  }

  /** The reduction of `lastBookingTime`: the latest end among the counted bookings. */
  function LatestEnd(s: seq<Booking>, now: Time): (r: Option<Time>)
    ensures IsLatestEnd(s, now, r)
  {
    if s == [] then None
    else
      var rest := LatestEnd(s[1..], now);
      assert forall b :: b in s <==> b == s[0] || b in s[1..];
      if !EndedCanceled(s[0], now) then rest
      else if rest.Some? && rest.value > s[0].end then rest
      else Some(s[0].end)
  }

  /**
   * `lastBookingTime`: null for a null or empty list; otherwise the latest
   * end among the CANCELED bookings that ended before `now`.
   */
  function LastBookingTime(bookings: Option<seq<Booking>>, now: Time): (r: Option<Time>)
    ensures bookings.None? ==> r.None?
    ensures bookings.Some? ==> IsLatestEnd(bookings.value, now, r)
  {
    if bookings.None? || bookings.value == [] then None
    else LatestEnd(bookings.value, now)
  }

  /** `r` is the earliest start strictly after `now` in `s`, or null when no booking starts after `now`. */
  ghost predicate IsEarliestStart(s: seq<Booking>, now: Time, r: Option<Time>) {
    && (r.None? <==> forall b :: b in s ==> b.start <= now)
    && (r.Some? ==> exists b :: b in s && b.start > now && b.start == r.value)
    && (r.Some? ==> forall b :: b in s && b.start > now ==> r.value <= b.start)
  }

  /** The pipeline of `nextBookingTime`: the starts after `now`, sorted, and the first of them. */
  function EarliestStart(s: seq<Booking>, now: Time): (r: Option<Time>)
    ensures IsEarliestStart(s, now, r)
  {
    if s == [] then None
    else
      var rest := EarliestStart(s[1..], now);
      assert forall b :: b in s <==> b == s[0] || b in s[1..];
      if s[0].start <= now then rest
      else if rest.Some? && rest.value < s[0].start then rest
      else Some(s[0].start)
  }

  /** `nextBookingTime`: null for a null or empty list; otherwise the earliest start strictly after `now`. */
  function NextBookingTime(bookings: Option<seq<Booking>>, now: Time): (r: Option<Time>)
    ensures bookings.None? ==> r.None?
    ensures bookings.Some? ==> IsEarliestStart(bookings.value, now, r)
  {
    if bookings.None? || bookings.value == [] then None
    else EarliestStart(bookings.value, now)
  }

  /** A null list and an empty list give the same booking times. */
  lemma NullAndEmptyAgree(now: Time)
    ensures LastBookingTime(None, now) == LastBookingTime(Some([]), now) == None
    ensures NextBookingTime(None, now) == NextBookingTime(Some([]), now) == None
  {
  }

  /**
   * As written, only CANCELED bookings count for the last booking time: an
   * APPROVED booking that has ended is not shown.
   */
  lemma LastBookingIgnoresApproved(b: Booking, now: Time)
    requires b.status == APPROVED && b.end < now
    ensures LastBookingTime(Some([b]), now) == None
  {
  }

  // Reading items.

  /** `CommentJpaRepository.findByItemId`: the comments on one item, in storage order. */
  function FindCommentsByItemId(comments: seq<Comment>, itemId: int): (r: seq<Comment>)
    ensures forall c :: c in r <==> c in comments && c.item.id == itemId
  {
    Where(comments, (c: Comment) => c.item.id == itemId)
  }

  /** The comments mapped to their DTOs, in order. */
  function CommentDtos(cs: seq<Comment>): (r: seq<CommentDtoOut>)
    ensures |r| == |cs|
    ensures forall k :: 0 <= k < |cs| ==> r[k] == MapToCommentDto(cs[k])
  {
    seq(|cs|, k requires 0 <= k < |cs| => MapToCommentDto(cs[k]))
  }

  /** One item with the booking times of `itemBookings` and its comments. */
  function Enrich(item: Item, itemBookings: Option<seq<Booking>>, comments: seq<Comment>, now: Time): (d: ItemDtoOut)
    ensures Plain(d) == MapToItemDto(item)
    ensures itemBookings.Some? ==> IsLatestEnd(itemBookings.value, now, d.lastBooking)
    ensures itemBookings.Some? ==> IsEarliestStart(itemBookings.value, now, d.nextBooking)
    ensures itemBookings.None? ==> d.lastBooking.None? && d.nextBooking.None?
    ensures d.comments == CommentDtos(FindCommentsByItemId(comments, item.id))
  {
    WithBookingTimeAgrees(item, LastBookingTime(itemBookings, now), NextBookingTime(itemBookings, now),
      CommentDtos(FindCommentsByItemId(comments, item.id)));
    MapToItemDtoWithBookingTime(item,
      LastBookingTime(itemBookings, now),
      NextBookingTime(itemBookings, now),
      CommentDtos(FindCommentsByItemId(comments, item.id)))
  }

  /** `getItem`: NotFound for an unknown id; otherwise the item with the times of its bookings and its comments. */
  function GetItem(items: seq<Item>, bookings: seq<Booking>, comments: seq<Comment>, id: int, now: Time): (r: Result<ItemDtoOut>)
    ensures r.Ok? <==> exists i :: i in items && i.id == id
    ensures r.Err? ==> r.error == NotFound
    ensures r.Ok? ==> Plain(r.value) == MapToItemDto(Find(items, ItemKey, id).value)
    ensures r.Ok? ==> IsLatestEnd(FindByItemId(bookings, id), now, r.value.lastBooking)
    ensures r.Ok? ==> IsEarliestStart(FindByItemId(bookings, id), now, r.value.nextBooking)
    ensures r.Ok? ==> r.value.comments == CommentDtos(FindCommentsByItemId(comments, id))
  {
    var itemBookings := FindByItemId(bookings, id);
    match Find(items, ItemKey, id)
    case None => Err(NotFound)
    case Some(item) => Ok(Enrich(item, Some(itemBookings), comments, now))
  }

  /** `ItemJpaRepository.findByOwnerId`: one owner's items, in storage order. */
  function FindByOwnerId(items: seq<Item>, ownerId: int): (r: seq<Item>)
    ensures forall i :: i in r <==> i in items && i.owner.id == ownerId
  {
    Where(items, (i: Item) => i.owner.id == ownerId)
  }

  /** The ids of the listed items. */
  function ItemIds(s: seq<Item>): (r: set<int>)
    ensures forall i :: i in s ==> i.id in r
    ensures forall id :: id in r ==> exists i :: i in s && i.id == id
  {
    set i | i in s :: i.id
  }

  /** `groupingBy` item id, then `get`: the bookings of one item, or null when there are none. */
  function GroupOf(bookings: seq<Booking>, itemId: int): (r: Option<seq<Booking>>)
    ensures r.None? <==> forall b :: b in bookings ==> b.item.id != itemId
    ensures r.Some? ==> r.value == FindByItemId(bookings, itemId)
  {
    var group := FindByItemId(bookings, itemId);
    if group == [] then None
    else
      assert group[0] in group;
      Some(group)
  }

  /**
   * `getItems`: the user's items in storage order, each enriched from the
   * bookings of all of them fetched at once and grouped by item. An unknown
   * user simply has no items.
   */
  function GetItems(items: seq<Item>, bookings: seq<Booking>, comments: seq<Comment>, userId: int, now: Time)
    : (r: seq<ItemDtoOut>)
    ensures |r| == |FindByOwnerId(items, userId)|
    ensures forall k :: 0 <= k < |r| ==> r[k].owner == userId && Plain(r[k]) == MapToItemDto(FindByOwnerId(items, userId)[k])
  {
    var owned := FindByOwnerId(items, userId);
    var grouped := FindByItemIdIn(bookings, ItemIds(owned));
    seq(|owned|, k requires 0 <= k < |owned| => Enrich(owned[k], GroupOf(grouped, owned[k].id), comments, now))
  }

  /**
   * Listing an owner's items shows each item exactly as `getItem` shows it:
   * the grouped bookings of an item are that item's own bookings, and an item
   * without bookings gets null times either way. Ids are unique in a valid
   * database, so `getItem` finds the listed item itself.
   */
  lemma GetItemsAgreesWithGetItem(items: seq<Item>, bookings: seq<Booking>, comments: seq<Comment>, userId: int, now: Time, k: int)
    requires 0 <= k < |FindByOwnerId(items, userId)|
    requires KeysUnique(items, ItemKey)
    ensures GetItem(items, bookings, comments, FindByOwnerId(items, userId)[k].id, now).Ok?
    ensures GetItems(items, bookings, comments, userId, now)[k]
            == GetItem(items, bookings, comments, FindByOwnerId(items, userId)[k].id, now).value
  {
    var owned := FindByOwnerId(items, userId);
    var item := owned[k];
    var ids := ItemIds(owned);
    assert owned[k] in owned;
    FindUnique(items, ItemKey, item);
    ItemGroupWithinIn(bookings, ids, item.id);
    var own := FindByItemId(bookings, item.id);
    var group := GroupOf(FindByItemIdIn(bookings, ids), item.id);
    if group.None? {
      assert own == [];
    }
    assert LastBookingTime(group, now) == LastBookingTime(Some(own), now);
    assert NextBookingTime(group, now) == NextBookingTime(Some(own), now);
  }

  // Searching.

  /** The search test: an available item whose lowered name or description contains the lowered text. */
  predicate Matches(i: Item, text: string) {
    i.available && MatchesText(i.name, i.description, text)
  }

  /** `search`: nothing for null or empty text; otherwise the matching items, in storage order. */
  function Search(items: seq<Item>, text: Option<string>): (r: seq<Item>)
    ensures text.None? || text.value == "" ==> r == []
    ensures text.Some? && text.value != "" ==> forall i :: i in r <==> i in items && Matches(i, text.value)
    ensures forall i :: i in r ==> i.available
  {
    if text.None? || text.value == "" then []
    else Where(items, (i: Item) => Matches(i, text.value))
  }

  /** Results come in storage order: an item stored later is listed after every earlier match. */
  lemma SearchKeepsStorageOrder(items: seq<Item>, text: string, item: Item)
    requires text != ""
    ensures Search(items + [item], Some(text)) == Search(items, Some(text)) + (if Matches(item, text) then [item] else [])
  {
    WhereAppend(items, (i: Item) => Matches(i, text), item);
  }

  /** The search ignores case: texts that differ only in the case of their letters find the same items in the same order. */
  lemma SearchIgnoresCase(items: seq<Item>, text: string, text': string)
    requires text != "" && Lower(text) == Lower(text')
    ensures Search(items, Some(text)) == Search(items, Some(text'))
  {
    assert |text'| == |text|;
    forall i | i in items ensures Matches(i, text) == Matches(i, text') {
      MatchesTextIgnoresCase(i.name, i.description, text, i.name, i.description, text');
    }
    WhereSame(items, (i: Item) => Matches(i, text), (i: Item) => Matches(i, text'));
  }

  /** An item withdrawn from rent is never found, whatever its name says. */
  lemma UnavailableItemNeverFound(items: seq<Item>, text: Option<string>, item: Item)
    requires !item.available
    ensures item !in Search(items, text)
  {
  }

  // Changing items and comments.

  /** The item `updateItem` saves: each supplied (non-null) field replaced; id, owner and request kept. */
  function MergeItem(stored: Item, patch: ItemPatch): (r: Item)
    ensures r.id == stored.id && r.owner == stored.owner && r.request == stored.request
    ensures r.name == if patch.name.Some? then patch.name.value else stored.name
    ensures r.description == if patch.description.Some? then patch.description.value else stored.description
    ensures r.available == if patch.available.Some? then patch.available.value else stored.available
  {
    stored.(
      name := if patch.name.Some? then patch.name.value else stored.name,
      description := if patch.description.Some? then patch.description.value else stored.description,
      available := if patch.available.Some? then patch.available.value else stored.available)
  }

  /** Merging is idempotent: applying the same patch twice changes nothing more. */
  lemma MergeItemIdempotent(stored: Item, patch: ItemPatch)
    ensures MergeItem(MergeItem(stored, patch), patch) == MergeItem(stored, patch)
  {
  }

  /**
   * `addItem`: NotFound for an unknown owner; a non-zero request id must name
   * a stored request (else a validation error). The new item is inserted with
   * the next generated id, and is then among its request's items.
   */
  method AddItem(db: Database, userId: int, dto: ItemDto) returns (r: Result<Item>)
    requires db.Valid()
    modifies db`items, db`itemSeq
    ensures db.Valid()
    ensures UserService.GetUser(old(db.users), userId).Err? ==> r == Err(NotFound)
    ensures (UserService.GetUser(old(db.users), userId).Ok? && dto.requestId != 0
             && RequestService.GetRequest(old(db.requests), old(db.items), dto.requestId).Err?) ==> r == Err(Validation)
    ensures r.Ok? <==> UserService.GetUser(old(db.users), userId).Ok?
                       && (dto.requestId != 0 ==> RequestService.GetRequest(old(db.requests), old(db.items), dto.requestId).Ok?)
    ensures r.Err? ==> db.items == old(db.items) && db.itemSeq == old(db.itemSeq)
    ensures r.Ok? ==>
              && r.value.id == old(db.itemSeq) && db.items == old(db.items) + [r.value] && db.itemSeq == old(db.itemSeq) + 1
              && r.value.owner == UserService.GetUser(old(db.users), userId).value
              && r.value.name == dto.name && r.value.description == dto.description && r.value.available == dto.available
              && (dto.requestId == 0 ==> r.value.request.None?)
              && (dto.requestId != 0 ==> r.value.request == Some(RequestService.GetRequest(old(db.requests), old(db.items), dto.requestId).value))
    ensures r.Ok? && dto.requestId != 0 ==> r.value in RequestService.GetRequest(db.requests, db.items, dto.requestId).value.items.value
  {
    var owner :- UserService.GetUser(db.users, userId);
    var request: Option<ItemRequest> := None;
    if dto.requestId != 0 {
      var q :- RequestService.GetRequest(db.requests, db.items, dto.requestId);
      request := Some(q);
    }
    var item := InsertItem(db, Item(0, dto.name, dto.description, dto.available, owner, request));
    r := Ok(item);
  }

  /** `itemRepository.save` of a new item: it is stored with the next generated id. */
  method InsertItem(db: Database, item: Item) returns (saved: Item)
    requires db.Valid() && item.id == 0
    modifies db`items, db`itemSeq
    ensures db.Valid()
    ensures saved == item.(id := old(db.itemSeq))
    ensures db.items == old(db.items) + [saved] && db.itemSeq == old(db.itemSeq) + 1
    ensures Find(db.items, ItemKey, saved.id) == Some(saved)
  {
    var s := Save(db.items, ItemKey, ItemWithId, db.itemSeq, item);
    db.items, db.itemSeq := s.rows, s.next;
    saved := s.row;
  }

  /**
   * `updateItem`: NotFound for an unknown item, then for an unknown user, then
   * for a caller who is not the owner; otherwise the merged item replaces the
   * stored one.
   */
  method UpdateItem(db: Database, userId: int, itemId: int, patch: ItemPatch) returns (r: Result<Item>)
    requires db.Valid()
    modifies db`items
    ensures db.Valid()
    ensures r.Ok? <==> Find(old(db.items), ItemKey, itemId).Some? && UserService.GetUser(db.users, userId).Ok?
                       && Find(old(db.items), ItemKey, itemId).value.owner.id == userId
    ensures r.Err? ==> r.error == NotFound && db.items == old(db.items)
    ensures r.Ok? ==> r.value == MergeItem(Find(old(db.items), ItemKey, itemId).value, patch)
                      && db.items == Put(old(db.items), ItemKey, r.value)
    ensures r.Ok? ==> Find(db.items, ItemKey, itemId) == Some(r.value)
  {
    var stored :- match Find(db.items, ItemKey, itemId)
      case Some(i) => Ok(i)
      case None => Err(NotFound);
    var _ :- UserService.GetUser(db.users, userId);
    var _ :- ValidateOwner(userId, stored);
    var merged := MergeItem(stored, patch);
    var s := Save(db.items, ItemKey, ItemWithId, db.itemSeq, merged);
    db.items := s.rows;
    r := Ok(merged);
  }

  /**
   * `addComment`: a validation error unless the user's booking of the item has
   * ended; then NotFound for an unknown item or user. The comment is stamped
   * with `now` and inserted with the next generated id.
   */
  method AddComment(db: Database, itemId: int, userId: int, text: string, now: Time) returns (r: Result<Comment>)
    requires db.Valid()
    modifies db`comments, db`commentSeq
    ensures db.Valid()
    ensures ValidateBooker(db.bookings, itemId, userId, now).Err? ==> r == Err(Validation)
    ensures ValidateBooker(db.bookings, itemId, userId, now).Ok? && Find(db.items, ItemKey, itemId).None? ==> r == Err(NotFound)
    ensures (ValidateBooker(db.bookings, itemId, userId, now).Ok? && Find(db.items, ItemKey, itemId).Some?
             && UserService.GetUser(db.users, userId).Err?) ==> r == Err(NotFound)
    ensures r.Ok? <==> ValidateBooker(db.bookings, itemId, userId, now).Ok? && Find(db.items, ItemKey, itemId).Some?
                       && UserService.GetUser(db.users, userId).Ok?
    ensures r.Err? ==> db.comments == old(db.comments) && db.commentSeq == old(db.commentSeq)
    ensures r.Ok? ==>
              && r.value == Comment(old(db.commentSeq), text, Find(db.items, ItemKey, itemId).value,
                                    UserService.GetUser(db.users, userId).value, now)
              && db.comments == old(db.comments) + [r.value] && db.commentSeq == old(db.commentSeq) + 1
    ensures r.Ok? ==> exists b :: b in db.bookings && b.item.id == itemId && b.booker.id == userId && b.end < now
  {
    var _ :- ValidateBooker(db.bookings, itemId, userId, now);
    var item :- match Find(db.items, ItemKey, itemId)
      case Some(i) => Ok(i)
      case None => Err(NotFound);
    var author :- UserService.GetUser(db.users, userId);
    var comment := InsertComment(db, Comment(0, text, item, author, now));
    r := Ok(comment);
  }

  /** `commentRepository.save` of a new comment: it is stored with the next generated id. */
  method InsertComment(db: Database, comment: Comment) returns (saved: Comment)
    requires db.Valid() && comment.id == 0
    modifies db`comments, db`commentSeq
    ensures db.Valid()
    ensures saved == comment.(id := old(db.commentSeq))
    ensures db.comments == old(db.comments) + [saved] && db.commentSeq == old(db.commentSeq) + 1
    ensures Find(db.comments, CommentKey, saved.id) == Some(saved)
  {
    var s := Save(db.comments, CommentKey, CommentWithId, db.commentSeq, comment);
    db.comments, db.commentSeq := s.rows, s.next;
    saved := s.row;
  }
}
