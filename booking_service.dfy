/**
 * The server's `BookingServiceImp`: creating a booking (always WAITING),
 * the owner's decision on it, and the listings by booker and by owner,
 * which parse the state filter and dispatch to the repository's queries.
 */
module BookingService {
  import opened Common
  import opened Entities
  import opened Store
  import opened BookingStates
  import opened BookingRepository
  import opened BookingMapper
  import UserService

  /** What a state filter selects at `now`: the time windows are strict, WAITING and REJECTED compare the status. */
  predicate InState(state: BookingState, b: Booking, now: Time) {
    match state
    case ALL => true
    case CURRENT => b.start < now && b.end > now
    case PAST => b.end < now
    case FUTURE => b.start > now
    case WAITING => b.status == BookingStatus.WAITING
    case REJECTED => b.status == BookingStatus.REJECTED
    case UNKNOWN => false
  }

  /** `getBooking`: the stored booking, or NotFound. */
  function GetBooking(bookings: seq<Booking>, id: int): (r: Result<Booking>)
    ensures r.Ok? <==> exists b :: b in bookings && b.id == id
    ensures r.Ok? ==> r.value in bookings && r.value.id == id
    ensures r.Err? ==> r.error == NotFound
  {
    match Find(bookings, BookingKey, id)
    case Some(b) => Ok(b)
    case None => Err(NotFound)
  }

  /**
   * `getBookingsByUser`: NotFound for an unknown user, then NotFound for a
   * state that parses to UNKNOWN; otherwise the booker's bookings in the
   * state at one instant `now`, latest start first, each as often as it is
   * stored.
   */
  function GetBookingsByUser(users: seq<User>, bookings: seq<Booking>, bookerId: int, state: Option<string>, now: Time)
    : (r: Result<seq<Booking>>)
    ensures r.Ok? <==> UserService.GetUser(users, bookerId).Ok? && Convert(state) != UNKNOWN
    ensures r.Err? ==> r.error == NotFound
    ensures r.Ok? ==> StartDescending(r.value)
    ensures r.Ok? ==> forall b :: b in r.value <==> b in bookings && b.booker.id == bookerId && InState(Convert(state), b, now)
    ensures r.Ok? ==> forall b :: multiset(r.value)[b] == if b.booker.id == bookerId && InState(Convert(state), b, now) then multiset(bookings)[b] else 0
  {
    var _ :- UserService.GetUser(users, bookerId);
    match Convert(state)
    case ALL => Ok(FindByBookerIdOrderByStartDesc(bookings, bookerId))
    case CURRENT => Ok(FindByBookerIdAndStartBeforeAndEndAfterOrderByStartDesc(bookings, bookerId, now, now))
    case PAST => Ok(FindByBookerIdAndEndBeforeOrderByStartDesc(bookings, bookerId, now))
    case FUTURE => Ok(FindByBookerIdAndStartAfterOrderByStartDesc(bookings, bookerId, now))
    case WAITING => Ok(FindByBookerIdAndStatusLikeOrderByStartDesc(bookings, bookerId, BookingStatus.WAITING))
    case REJECTED => Ok(FindByBookerIdAndStatusLikeOrderByStartDesc(bookings, bookerId, BookingStatus.REJECTED))
    case UNKNOWN => Err(NotFound)
  }

  /**
   * `getBookingsByOwner`: the same dispatch over the bookings of the items
   * the user owns.
   */
  function GetBookingsByOwner(users: seq<User>, bookings: seq<Booking>, ownerId: int, state: Option<string>, now: Time)
    : (r: Result<seq<Booking>>)
    ensures r.Ok? <==> UserService.GetUser(users, ownerId).Ok? && Convert(state) != UNKNOWN
    ensures r.Err? ==> r.error == NotFound
    ensures r.Ok? ==> StartDescending(r.value)
    ensures r.Ok? ==> forall b :: b in r.value <==> b in bookings && b.item.owner.id == ownerId && InState(Convert(state), b, now)
    ensures r.Ok? ==> forall b :: multiset(r.value)[b] == if b.item.owner.id == ownerId && InState(Convert(state), b, now) then multiset(bookings)[b] else 0
  {
    var _ :- UserService.GetUser(users, ownerId);
    match Convert(state)
    case ALL => Ok(FindByOwnerIdAll(bookings, ownerId))
    case CURRENT => Ok(FindByOwnerIdCurrent(bookings, ownerId, now))
    case PAST => Ok(FindByOwnerIdPast(bookings, ownerId, now))
    case FUTURE => Ok(FindByOwnerIdFuture(bookings, ownerId, now))
    case WAITING => Ok(FindByOwnerIdStatus(bookings, ownerId, BookingStatus.WAITING))
    case REJECTED => Ok(FindByOwnerIdStatus(bookings, ownerId, BookingStatus.REJECTED))
    case UNKNOWN => Err(NotFound)
  }

  /** For a known user, every filter name except UNKNOWN is accepted, and a null or misspelt one is rejected. */
  lemma ListingAcceptsExactlyFilterNames(users: seq<User>, bookings: seq<Booking>, userId: int, state: Option<string>, now: Time)
    requires UserService.GetUser(users, userId).Ok?
    ensures GetBookingsByUser(users, bookings, userId, state, now).Ok?
            <==> exists c :: c != UNKNOWN && state == Some(Name(c))
    ensures GetBookingsByOwner(users, bookings, userId, state, now).Ok?
            <==> exists c :: c != UNKNOWN && state == Some(Name(c))
  {
    if exists c :: c != UNKNOWN && state == Some(Name(c)) {
      var c :| c != UNKNOWN && state == Some(Name(c));
      ConvertName(c);
    }
  }

  /** The user is checked before the state is parsed: an unknown user is NotFound even with a valid filter. */
  lemma UnknownUserPrecedesState(users: seq<User>, bookings: seq<Booking>, userId: int, now: Time)
    requires UserService.GetUser(users, userId).Err?
    ensures GetBookingsByUser(users, bookings, userId, Some("ALL"), now) == Err(NotFound)
    ensures GetBookingsByOwner(users, bookings, userId, Some("ALL"), now) == Err(NotFound)
  {
  }

  /** The status the owner's decision sets. */
  function Decision(approve: bool): (s: BookingStatus)
    ensures s == BookingStatus.APPROVED <==> approve
    ensures s == BookingStatus.REJECTED <==> !approve
  {
    if approve then BookingStatus.APPROVED else BookingStatus.REJECTED
  }

  /**
   * `addBooking`: the item is looked up first (NotFound), must be available
   * (else a validation error), then the booker is looked up (NotFound). The
   * booking keeps the requested interval, is WAITING whatever was sent, and
   * is inserted with the next generated id.
   */
  method AddBooking(db: Database, userId: int, dto: BookingDto) returns (r: Result<Booking>)
    requires db.Valid()
    modifies db`bookings, db`bookingSeq
    ensures db.Valid()
    ensures Find(db.items, ItemKey, dto.itemId).None? ==> r == Err(NotFound)
    ensures Find(db.items, ItemKey, dto.itemId).Some? && !Find(db.items, ItemKey, dto.itemId).value.available ==> r == Err(Validation)
    ensures (Find(db.items, ItemKey, dto.itemId).Some? && Find(db.items, ItemKey, dto.itemId).value.available
             && UserService.GetUser(db.users, userId).Err?) ==> r == Err(NotFound)
    ensures r.Ok? <==> Find(db.items, ItemKey, dto.itemId).Some? && Find(db.items, ItemKey, dto.itemId).value.available
                       && UserService.GetUser(db.users, userId).Ok?
    ensures r.Err? ==> db.bookings == old(db.bookings) && db.bookingSeq == old(db.bookingSeq)
    ensures r.Ok? ==>
              && r.value == Booking(old(db.bookingSeq), dto.start, dto.end, Find(db.items, ItemKey, dto.itemId).value,
                                    UserService.GetUser(db.users, userId).value, BookingStatus.WAITING)
              && db.bookings == old(db.bookings) + [r.value] && db.bookingSeq == old(db.bookingSeq) + 1
    ensures r.Ok? ==> GetBooking(db.bookings, r.value.id) == Ok(r.value)
  {
    var draft := MapToBooking(dto);
    var item :- match Find(db.items, ItemKey, dto.itemId)
      case Some(i) => Ok(i)
      case None => Err(NotFound);
    if !item.available {
      return Err(Validation);
    }
    var booker :- UserService.GetUser(db.users, userId);
    var booking := InsertBooking(db, Booking(0, draft.start, draft.end, item, booker, BookingStatus.WAITING));
    r := Ok(booking);
  }

  /** `bookingRepository.save` of a new booking: it is stored with the next generated id. */
  method InsertBooking(db: Database, booking: Booking) returns (saved: Booking)
    requires db.Valid() && booking.id == 0
    modifies db`bookings, db`bookingSeq
    ensures db.Valid()
    ensures saved == booking.(id := old(db.bookingSeq))
    ensures db.bookings == old(db.bookings) + [saved] && db.bookingSeq == old(db.bookingSeq) + 1
    ensures Find(db.bookings, BookingKey, saved.id) == Some(saved)
  {
    var s := Save(db.bookings, BookingKey, BookingWithId, db.bookingSeq, booking);
    db.bookings, db.bookingSeq := s.rows, s.next;
    saved := s.row;
  }

  /**
   * `approveBooking`: NotFound for an unknown booking, Forbidden for anyone
   * but the item's owner; otherwise the status becomes APPROVED or REJECTED,
   * whatever it was before, and nothing else about the booking changes.
   */
  method ApproveBooking(db: Database, userId: int, bookingId: int, approve: bool) returns (r: Result<Booking>)
    requires db.Valid()
    modifies db`bookings
    ensures db.Valid()
    ensures GetBooking(old(db.bookings), bookingId).Err? ==> r == Err(NotFound)
    ensures (GetBooking(old(db.bookings), bookingId).Ok? && GetBooking(old(db.bookings), bookingId).value.item.owner.id != userId)
            ==> r == Err(Forbidden)
    ensures r.Err? ==> db.bookings == old(db.bookings)
    ensures r.Ok? <==> GetBooking(old(db.bookings), bookingId).Ok? && GetBooking(old(db.bookings), bookingId).value.item.owner.id == userId
    ensures r.Ok? ==>
              && r.value == GetBooking(old(db.bookings), bookingId).value.(status := Decision(approve))
              && db.bookings == Put(old(db.bookings), BookingKey, r.value)
    ensures r.Ok? ==> GetBooking(db.bookings, bookingId) == Ok(r.value)
    ensures forall id {:trigger GetBooking(old(db.bookings), id)} :: id != bookingId ==> GetBooking(db.bookings, id) == GetBooking(old(db.bookings), id)
  {
    var booking :- GetBooking(db.bookings, bookingId);
    if booking.item.owner.id != userId {
      return Err(Forbidden);
    }
    var decided := booking.(status := Decision(approve));
    var s := Save(db.bookings, BookingKey, BookingWithId, db.bookingSeq, decided);
    db.bookings := s.rows;
    r := Ok(decided);
  }
}
