/**
 * The booking queries of `BookingJpaRepository`. A derived query names
 * booking properties joined by "And"; a `Criterion` is one of those
 * conditions, a WHERE clause is the sequence of them that must all hold,
 * `Select` applies it to the table in storage order, and `SortByStartDesc`
 * is "order by start desc".
 */
module BookingRepository {
  import opened Common
  import opened Entities

  /** One condition of a query's WHERE clause. Every comparison is strict. */
  datatype Criterion =
    | BookerIs(bookerId: int)           // booker.id = ?
    | OwnerIs(ownerId: int)             // item.owner.id = ?
    | ItemIs(itemId: int)               // item.id = ?
    | ItemIn(itemIds: set<int>)         // item.id in (?)
    | StartBefore(startBound: Time)     // start < ?
    | StartAfter(startBound: Time)      // start > ?
    | EndBefore(endBound: Time)         // end < ?
    | EndAfter(endBound: Time)          // end > ?
    | StatusIs(status: BookingStatus)   // status = ?

  /** The booking satisfies the condition. */
  predicate Holds(c: Criterion, b: Booking) {
    match c
    case BookerIs(id) => b.booker.id == id
    case OwnerIs(id) => b.item.owner.id == id
    case ItemIs(id) => b.item.id == id
    case ItemIn(ids) => b.item.id in ids
    case StartBefore(t) => b.start < t
    case StartAfter(t) => b.start > t
    case EndBefore(t) => b.end < t
    case EndAfter(t) => b.end > t
    case StatusIs(s) => b.status == s
  }

  /** The booking satisfies every condition of a WHERE clause joined by "And". */
  predicate Satisfies(b: Booking, where: seq<Criterion>) {
    forall c :: c in where ==> Holds(c, b)
  }

  /** A clause of one condition holds exactly when that condition does. */
  lemma SatisfiesOne(b: Booking, c: Criterion)
    ensures Satisfies(b, [c]) <==> Holds(c, b)
  {
    assert [c][0] == c;
  }

  /** A clause of two conditions holds exactly when both do. */
  lemma SatisfiesTwo(b: Booking, c1: Criterion, c2: Criterion)
    ensures Satisfies(b, [c1, c2]) <==> Holds(c1, b) && Holds(c2, b)
  {
    var w := [c1, c2];
    assert w[0] == c1 && w[1] == c2;
  }

  /** A clause of three conditions holds exactly when each of them does. */
  lemma SatisfiesThree(b: Booking, c1: Criterion, c2: Criterion, c3: Criterion)
    ensures Satisfies(b, [c1, c2, c3]) <==> Holds(c1, b) && Holds(c2, b) && Holds(c3, b)
  {
    var w := [c1, c2, c3];
    assert w[0] == c1 && w[1] == c2 && w[2] == c3;
  }

  /** The WHERE clause: the bookings satisfying `where`, in storage order. */
  function Select(store: seq<Booking>, where: seq<Criterion>): (r: seq<Booking>)
    ensures forall b :: b in r <==> b in store && Satisfies(b, where)
    ensures |r| <= |store|
  {
    if store == [] then []
    else (if Satisfies(store[0], where) then [store[0]] else []) + Select(store[1..], where)
  }

  /** The filter keeps every copy of a qualifying booking and none of the others: it never duplicates a row. */
  lemma {:induction false} SelectCount(store: seq<Booking>, where: seq<Criterion>)
    ensures forall b :: multiset(Select(store, where))[b] == if Satisfies(b, where) then multiset(store)[b] else 0
  {
    if store != [] {
      SelectCount(store[1..], where);
      assert store == [store[0]] + store[1..];
    }
  }

  /** Adding conditions can only drop bookings, never duplicate one. */
  lemma {:induction false} SelectNarrows(store: seq<Booking>, where: seq<Criterion>, more: seq<Criterion>)
    ensures multiset(Select(store, where + more)) <= multiset(Select(store, where))
  {
    if store != [] {
      SelectNarrows(store[1..], where, more);
      if Satisfies(store[0], where + more) {
        assert Satisfies(store[0], where);
      }
    }
  }

  /** Conditions that agree on every stored booking select the same sequence. */
  lemma {:induction false} SelectSameRows(store: seq<Booking>, where: seq<Criterion>, other: seq<Criterion>)
    requires forall b :: b in store ==> (Satisfies(b, where) <==> Satisfies(b, other))
    ensures Select(store, where) == Select(store, other)
  {
    if store != [] {
      SelectSameRows(store[1..], where, other);
    }
  }

  /** Filtering distributes over concatenation. */
  lemma {:induction false} SelectConcat(s: seq<Booking>, t: seq<Booking>, where: seq<Criterion>)
    ensures Select(s + t, where) == Select(s, where) + Select(t, where)
  {
    if s != [] {
      assert (s + t)[0] == s[0];
      assert (s + t)[1..] == s[1..] + t;
      SelectConcat(s[1..], t, where);
      var head := if Satisfies(s[0], where) then [s[0]] else [];
      calc {
        Select(s + t, where);
        head + Select(s[1..] + t, where);
        head + (Select(s[1..], where) + Select(t, where));
        (head + Select(s[1..], where)) + Select(t, where);
        Select(s, where) + Select(t, where);
      }
    } else {
      assert s + t == t;
    }
  }

  /** Filtering twice is filtering once by both clauses. */
  lemma {:induction false} SelectTwice(store: seq<Booking>, where: seq<Criterion>, more: seq<Criterion>)
    ensures Select(Select(store, where), more) == Select(store, where + more)
  {
    if store != [] {
      SelectTwice(store[1..], where, more);
      var head := if Satisfies(store[0], where) then [store[0]] else [];
      SelectConcat(head, Select(store[1..], where), more);
      assert Satisfies(store[0], where + more) <==> Satisfies(store[0], where) && Satisfies(store[0], more);
    }
  }

  /** `order by start desc`: no booking starts later than one listed before it. */
  ghost predicate StartDescending(s: seq<Booking>) {
    forall i, j :: 0 <= i < j < |s| ==> s[i].start >= s[j].start
  }

  /** Inserts `b` before the first booking that starts no later than it. */
  function InsertByStart(b: Booking, s: seq<Booking>): (r: seq<Booking>)
    requires StartDescending(s)
    ensures StartDescending(r)
    ensures multiset(r) == multiset(s) + multiset{b}
  {
    if s == [] || b.start >= s[0].start then
      [b] + s
    else
      var rest := InsertByStart(b, s[1..]);
      InsertStep(b, s, rest);
      [s[0]] + rest
  }

  /** Keeping the head of `s` in front of `b` inserted into the tail keeps the order and adds exactly `b`. */
  lemma InsertStep(b: Booking, s: seq<Booking>, rest: seq<Booking>)
    requires s != [] && b.start < s[0].start && StartDescending(s)
    requires StartDescending(rest) && multiset(rest) == multiset(s[1..]) + multiset{b}
    ensures StartDescending([s[0]] + rest)
    ensures multiset([s[0]] + rest) == multiset(s) + multiset{b}
  {
    assert s == [s[0]] + s[1..];
    var r := [s[0]] + rest;
    forall j | 0 <= j < |rest| ensures rest[j].start <= s[0].start {
      assert rest[j] in multiset(rest);
      if rest[j] != b {
        assert rest[j] in s[1..];
        var k :| 0 <= k < |s[1..]| && s[1..][k] == rest[j];
        assert s[k + 1] == rest[j];
      }
    }
    forall i, j | 0 <= i < j < |r| ensures r[i].start >= r[j].start {
      assert r[j] == rest[j - 1];
      if i > 0 {
        assert r[i] == rest[i - 1];
      }
    }
  }

  /**
   * `order by start desc`, as an insertion sort. The order among bookings
   * that start together is not part of the contract.
   */
  function SortByStartDesc(s: seq<Booking>): (r: seq<Booking>)
    ensures StartDescending(r)
    ensures multiset(r) == multiset(s)
  {
    if s == [] then []
    else
      assert s == [s[0]] + s[1..];
      InsertByStart(s[0], SortByStartDesc(s[1..]))
  }

  /** A derived query: the bookings satisfying `where`, latest start first. */
  function Query(store: seq<Booking>, where: seq<Criterion>): (r: seq<Booking>)
    ensures StartDescending(r)
    ensures multiset(r) == multiset(Select(store, where))
    ensures forall b :: b in r <==> b in store && Satisfies(b, where)
    ensures forall b :: multiset(r)[b] == if Satisfies(b, where) then multiset(store)[b] else 0
  {
    SelectCount(store, where);
    var r := SortByStartDesc(Select(store, where));
    assert forall b :: b in r <==> b in multiset(r);
    r
  }

  // The repository's queries, one per method of BookingJpaRepository.

  function FindByBookerIdOrderByStartDesc(store: seq<Booking>, bookerId: int): (r: seq<Booking>)
    ensures StartDescending(r)
    ensures forall b :: b in r <==> b in store && b.booker.id == bookerId
    ensures forall b :: multiset(r)[b] == if b.booker.id == bookerId then multiset(store)[b] else 0
  {
    assert forall b :: Satisfies(b, [BookerIs(bookerId)]) <==> b.booker.id == bookerId by {
      forall b { SatisfiesOne(b, BookerIs(bookerId)); }
    }
    Query(store, [BookerIs(bookerId)])
  }

  function FindByBookerIdAndStartBeforeAndEndAfterOrderByStartDesc(
    store: seq<Booking>, bookerId: int, start: Time, end: Time): (r: seq<Booking>)
    ensures StartDescending(r)
    ensures forall b :: b in r <==> b in store && b.booker.id == bookerId && b.start < start && b.end > end
    ensures forall b :: multiset(r)[b] == if b.booker.id == bookerId && b.start < start && b.end > end then multiset(store)[b] else 0
  {
    assert forall b :: Satisfies(b, [BookerIs(bookerId), StartBefore(start), EndAfter(end)]) <==> b.booker.id == bookerId && b.start < start && b.end > end by {
      forall b { SatisfiesThree(b, BookerIs(bookerId), StartBefore(start), EndAfter(end)); }
    }
    Query(store, [BookerIs(bookerId), StartBefore(start), EndAfter(end)])
  }

  function FindByBookerIdAndEndBeforeOrderByStartDesc(store: seq<Booking>, bookerId: int, time: Time): (r: seq<Booking>)
    ensures StartDescending(r)
    ensures forall b :: b in r <==> b in store && b.booker.id == bookerId && b.end < time
    ensures forall b :: multiset(r)[b] == if b.booker.id == bookerId && b.end < time then multiset(store)[b] else 0
  {
    assert forall b :: Satisfies(b, [BookerIs(bookerId), EndBefore(time)]) <==> b.booker.id == bookerId && b.end < time by {
      forall b { SatisfiesTwo(b, BookerIs(bookerId), EndBefore(time)); }
    }
    Query(store, [BookerIs(bookerId), EndBefore(time)])
  }

  function FindByBookerIdAndStartAfterOrderByStartDesc(store: seq<Booking>, bookerId: int, time: Time): (r: seq<Booking>)
    ensures StartDescending(r)
    ensures forall b :: b in r <==> b in store && b.booker.id == bookerId && b.start > time
    ensures forall b :: multiset(r)[b] == if b.booker.id == bookerId && b.start > time then multiset(store)[b] else 0
  {
    assert forall b :: Satisfies(b, [BookerIs(bookerId), StartAfter(time)]) <==> b.booker.id == bookerId && b.start > time by {
      forall b { SatisfiesTwo(b, BookerIs(bookerId), StartAfter(time)); }
    }
    Query(store, [BookerIs(bookerId), StartAfter(time)])
  }

  function FindByBookerIdAndStatusLikeOrderByStartDesc(
    store: seq<Booking>, bookerId: int, status: BookingStatus): (r: seq<Booking>)
    ensures StartDescending(r)
    ensures forall b :: b in r <==> b in store && b.booker.id == bookerId && b.status == status
    ensures forall b :: multiset(r)[b] == if b.booker.id == bookerId && b.status == status then multiset(store)[b] else 0
  {
    assert forall b :: Satisfies(b, [BookerIs(bookerId), StatusIs(status)]) <==> b.booker.id == bookerId && b.status == status by {
      forall b { SatisfiesTwo(b, BookerIs(bookerId), StatusIs(status)); }
    }
    Query(store, [BookerIs(bookerId), StatusIs(status)])
  }

  function FindByOwnerIdAll(store: seq<Booking>, ownerId: int): (r: seq<Booking>)
    ensures StartDescending(r)
    ensures forall b :: b in r <==> b in store && b.item.owner.id == ownerId
    ensures forall b :: multiset(r)[b] == if b.item.owner.id == ownerId then multiset(store)[b] else 0
  {
    assert forall b :: Satisfies(b, [OwnerIs(ownerId)]) <==> b.item.owner.id == ownerId by {
      forall b { SatisfiesOne(b, OwnerIs(ownerId)); }
    }
    Query(store, [OwnerIs(ownerId)])
  }

  function FindByOwnerIdCurrent(store: seq<Booking>, ownerId: int, time: Time): (r: seq<Booking>)
    ensures StartDescending(r)
    ensures forall b :: b in r <==> b in store && b.item.owner.id == ownerId && b.start < time && b.end > time
    ensures forall b :: multiset(r)[b] == if b.item.owner.id == ownerId && b.start < time && b.end > time then multiset(store)[b] else 0
  {
    assert forall b :: Satisfies(b, [OwnerIs(ownerId), StartBefore(time), EndAfter(time)]) <==> b.item.owner.id == ownerId && b.start < time && b.end > time by {
      forall b { SatisfiesThree(b, OwnerIs(ownerId), StartBefore(time), EndAfter(time)); }
    }
    Query(store, [OwnerIs(ownerId), StartBefore(time), EndAfter(time)])
  }

  function FindByOwnerIdPast(store: seq<Booking>, ownerId: int, time: Time): (r: seq<Booking>)
    ensures StartDescending(r)
    ensures forall b :: b in r <==> b in store && b.item.owner.id == ownerId && b.end < time
    ensures forall b :: multiset(r)[b] == if b.item.owner.id == ownerId && b.end < time then multiset(store)[b] else 0
  {
    assert forall b :: Satisfies(b, [OwnerIs(ownerId), EndBefore(time)]) <==> b.item.owner.id == ownerId && b.end < time by {
      forall b { SatisfiesTwo(b, OwnerIs(ownerId), EndBefore(time)); }
    }
    Query(store, [OwnerIs(ownerId), EndBefore(time)])
  }

  function FindByOwnerIdFuture(store: seq<Booking>, ownerId: int, time: Time): (r: seq<Booking>)
    ensures StartDescending(r)
    ensures forall b :: b in r <==> b in store && b.item.owner.id == ownerId && b.start > time
    ensures forall b :: multiset(r)[b] == if b.item.owner.id == ownerId && b.start > time then multiset(store)[b] else 0
  {
    assert forall b :: Satisfies(b, [OwnerIs(ownerId), StartAfter(time)]) <==> b.item.owner.id == ownerId && b.start > time by {
      forall b { SatisfiesTwo(b, OwnerIs(ownerId), StartAfter(time)); }
    }
    Query(store, [OwnerIs(ownerId), StartAfter(time)])
  }

  function FindByOwnerIdStatus(store: seq<Booking>, ownerId: int, status: BookingStatus): (r: seq<Booking>)
    ensures StartDescending(r)
    ensures forall b :: b in r <==> b in store && b.item.owner.id == ownerId && b.status == status
    ensures forall b :: multiset(r)[b] == if b.item.owner.id == ownerId && b.status == status then multiset(store)[b] else 0
  {
    assert forall b :: Satisfies(b, [OwnerIs(ownerId), StatusIs(status)]) <==> b.item.owner.id == ownerId && b.status == status by {
      forall b { SatisfiesTwo(b, OwnerIs(ownerId), StatusIs(status)); }
    }
    Query(store, [OwnerIs(ownerId), StatusIs(status)])
  }

  /** Unordered: the bookings of the listed items, in storage order. */
  function FindByItemIdIn(store: seq<Booking>, itemIds: set<int>): (r: seq<Booking>)
    ensures forall b :: b in r <==> b in store && b.item.id in itemIds
  {
    var r := Select(store, [ItemIn(itemIds)]);
    assert forall b :: b in r ==> Holds(ItemIn(itemIds), b);
    r
  }

  /** Unordered: the bookings of one item, in storage order. */
  function FindByItemId(store: seq<Booking>, itemId: int): (r: seq<Booking>)
    ensures forall b :: b in r <==> b in store && b.item.id == itemId
  {
    var r := Select(store, [ItemIs(itemId)]);
    assert forall b :: b in r ==> Holds(ItemIs(itemId), b);
    r
  }

  /** Unordered: the bookings of one item by one booker that ended strictly before `end`. */
  function FindByItemIdAndBookerIdAndEndBefore(store: seq<Booking>, itemId: int, bookerId: int, end: Time): (r: seq<Booking>)
    ensures forall b :: b in r <==> b in store && b.item.id == itemId && b.booker.id == bookerId && b.end < end
  {
    var r := Select(store, [ItemIs(itemId), BookerIs(bookerId), EndBefore(end)]);
    assert forall b :: b in r ==> Holds(ItemIs(itemId), b) && Holds(BookerIs(bookerId), b) && Holds(EndBefore(end), b) by {
      forall b | b in r { SatisfiesThree(b, ItemIs(itemId), BookerIs(bookerId), EndBefore(end)); }
    }
    r
  }

  // What the queries promise together.

  /** Adding conditions to a query can only drop bookings: the narrowed result is a sub-multiset. */
  lemma QueryNarrows(store: seq<Booking>, where: seq<Criterion>, more: seq<Criterion>)
    ensures multiset(Query(store, where + more)) <= multiset(Query(store, where))
  {
    SelectNarrows(store, where, more);
  }

  // One window at a time; BookerQueriesWithinAll gathers the four.
  lemma BookerCurrentWithinAll(store: seq<Booking>, bookerId: int, time: Time)
    ensures multiset(FindByBookerIdAndStartBeforeAndEndAfterOrderByStartDesc(store, bookerId, time, time)) <= multiset(FindByBookerIdOrderByStartDesc(store, bookerId))
  {
    QueryNarrows(store, [BookerIs(bookerId)], [StartBefore(time), EndAfter(time)]);
    assert [BookerIs(bookerId)] + [StartBefore(time), EndAfter(time)] == [BookerIs(bookerId), StartBefore(time), EndAfter(time)];
  }

  lemma BookerPastWithinAll(store: seq<Booking>, bookerId: int, time: Time)
    ensures multiset(FindByBookerIdAndEndBeforeOrderByStartDesc(store, bookerId, time)) <= multiset(FindByBookerIdOrderByStartDesc(store, bookerId))
  {
    QueryNarrows(store, [BookerIs(bookerId)], [EndBefore(time)]);
    assert [BookerIs(bookerId)] + [EndBefore(time)] == [BookerIs(bookerId), EndBefore(time)];
  }

  lemma BookerFutureWithinAll(store: seq<Booking>, bookerId: int, time: Time)
    ensures multiset(FindByBookerIdAndStartAfterOrderByStartDesc(store, bookerId, time)) <= multiset(FindByBookerIdOrderByStartDesc(store, bookerId))
  {
    QueryNarrows(store, [BookerIs(bookerId)], [StartAfter(time)]);
    assert [BookerIs(bookerId)] + [StartAfter(time)] == [BookerIs(bookerId), StartAfter(time)];
  }

  lemma BookerStatusWithinAll(store: seq<Booking>, bookerId: int, status: BookingStatus)
    ensures multiset(FindByBookerIdAndStatusLikeOrderByStartDesc(store, bookerId, status)) <= multiset(FindByBookerIdOrderByStartDesc(store, bookerId))
  {
    QueryNarrows(store, [BookerIs(bookerId)], [StatusIs(status)]);
    assert [BookerIs(bookerId)] + [StatusIs(status)] == [BookerIs(bookerId), StatusIs(status)];
  }

  /** Each booker query returns a sub-multiset of that booker's ALL query. */
  lemma BookerQueriesWithinAll(store: seq<Booking>, bookerId: int, time: Time, status: BookingStatus)
    ensures multiset(FindByBookerIdAndStartBeforeAndEndAfterOrderByStartDesc(store, bookerId, time, time)) <= multiset(FindByBookerIdOrderByStartDesc(store, bookerId))
    ensures multiset(FindByBookerIdAndEndBeforeOrderByStartDesc(store, bookerId, time)) <= multiset(FindByBookerIdOrderByStartDesc(store, bookerId))
    ensures multiset(FindByBookerIdAndStartAfterOrderByStartDesc(store, bookerId, time)) <= multiset(FindByBookerIdOrderByStartDesc(store, bookerId))
    ensures multiset(FindByBookerIdAndStatusLikeOrderByStartDesc(store, bookerId, status)) <= multiset(FindByBookerIdOrderByStartDesc(store, bookerId))
  {
    BookerCurrentWithinAll(store, bookerId, time);
    BookerPastWithinAll(store, bookerId, time);
    BookerFutureWithinAll(store, bookerId, time);
    BookerStatusWithinAll(store, bookerId, status);
  }

  // One window at a time; OwnerQueriesWithinAll gathers the four.
  lemma OwnerCurrentWithinAll(store: seq<Booking>, ownerId: int, time: Time)
    ensures multiset(FindByOwnerIdCurrent(store, ownerId, time)) <= multiset(FindByOwnerIdAll(store, ownerId))
  {
    QueryNarrows(store, [OwnerIs(ownerId)], [StartBefore(time), EndAfter(time)]);
    assert [OwnerIs(ownerId)] + [StartBefore(time), EndAfter(time)] == [OwnerIs(ownerId), StartBefore(time), EndAfter(time)];
  }

  lemma OwnerPastWithinAll(store: seq<Booking>, ownerId: int, time: Time)
    ensures multiset(FindByOwnerIdPast(store, ownerId, time)) <= multiset(FindByOwnerIdAll(store, ownerId))
  {
    QueryNarrows(store, [OwnerIs(ownerId)], [EndBefore(time)]);
    assert [OwnerIs(ownerId)] + [EndBefore(time)] == [OwnerIs(ownerId), EndBefore(time)];
  }

  lemma OwnerFutureWithinAll(store: seq<Booking>, ownerId: int, time: Time)
    ensures multiset(FindByOwnerIdFuture(store, ownerId, time)) <= multiset(FindByOwnerIdAll(store, ownerId))
  {
    QueryNarrows(store, [OwnerIs(ownerId)], [StartAfter(time)]);
    assert [OwnerIs(ownerId)] + [StartAfter(time)] == [OwnerIs(ownerId), StartAfter(time)];
  }

  lemma OwnerStatusWithinAll(store: seq<Booking>, ownerId: int, status: BookingStatus)
    ensures multiset(FindByOwnerIdStatus(store, ownerId, status)) <= multiset(FindByOwnerIdAll(store, ownerId))
  {
    QueryNarrows(store, [OwnerIs(ownerId)], [StatusIs(status)]);
    assert [OwnerIs(ownerId)] + [StatusIs(status)] == [OwnerIs(ownerId), StatusIs(status)];
  }

  /** Each owner query returns a sub-multiset of that owner's ALL query. */
  lemma OwnerQueriesWithinAll(store: seq<Booking>, ownerId: int, time: Time, status: BookingStatus)
    ensures multiset(FindByOwnerIdCurrent(store, ownerId, time)) <= multiset(FindByOwnerIdAll(store, ownerId))
    ensures multiset(FindByOwnerIdPast(store, ownerId, time)) <= multiset(FindByOwnerIdAll(store, ownerId))
    ensures multiset(FindByOwnerIdFuture(store, ownerId, time)) <= multiset(FindByOwnerIdAll(store, ownerId))
    ensures multiset(FindByOwnerIdStatus(store, ownerId, status)) <= multiset(FindByOwnerIdAll(store, ownerId))
  {
    OwnerCurrentWithinAll(store, ownerId, time);
    OwnerPastWithinAll(store, ownerId, time);
    OwnerFutureWithinAll(store, ownerId, time);
    OwnerStatusWithinAll(store, ownerId, status);
  }

  /** Grouping the bookings of a set of items by item gives, for each item in the set, exactly that item's own query. */
  lemma ItemGroupWithinIn(store: seq<Booking>, itemIds: set<int>, itemId: int)
    requires itemId in itemIds
    ensures FindByItemId(FindByItemIdIn(store, itemIds), itemId) == FindByItemId(store, itemId)
  {
    var both := [ItemIn(itemIds)] + [ItemIs(itemId)];
    SelectTwice(store, [ItemIn(itemIds)], [ItemIs(itemId)]);
    forall b | b in store ensures Satisfies(b, both) <==> Satisfies(b, [ItemIs(itemId)]) {
      assert both == [ItemIn(itemIds), ItemIs(itemId)];
      assert Satisfies(b, [ItemIs(itemId)]) <==> Holds(ItemIs(itemId), b);
      assert Satisfies(b, both) <==> Holds(ItemIn(itemIds), b) && Holds(ItemIs(itemId), b);
    }
    SelectSameRows(store, both, [ItemIs(itemId)]);
  }

  /** The bookings whose interval is not reversed. */
  ghost predicate WellFormed(store: seq<Booking>) {
    forall b :: b in store ==> b.start <= b.end
  }

  /** For well-formed bookings, PAST, CURRENT and FUTURE at one instant share no booking. */
  lemma TimeWindowsDisjoint(store: seq<Booking>, bookerId: int, ownerId: int, time: Time, b: Booking)
    requires WellFormed(store)
    ensures b in FindByBookerIdAndEndBeforeOrderByStartDesc(store, bookerId, time) ==>
              b !in FindByBookerIdAndStartBeforeAndEndAfterOrderByStartDesc(store, bookerId, time, time)
              && b !in FindByBookerIdAndStartAfterOrderByStartDesc(store, bookerId, time)
    ensures b in FindByBookerIdAndStartBeforeAndEndAfterOrderByStartDesc(store, bookerId, time, time) ==>
              b !in FindByBookerIdAndStartAfterOrderByStartDesc(store, bookerId, time)
    ensures b in FindByOwnerIdPast(store, ownerId, time) ==>
              b !in FindByOwnerIdCurrent(store, ownerId, time) && b !in FindByOwnerIdFuture(store, ownerId, time)
    ensures b in FindByOwnerIdCurrent(store, ownerId, time) ==> b !in FindByOwnerIdFuture(store, ownerId, time)
  {
  }

  /** A booking that starts exactly at `time`, or ends exactly at it, is neither current nor past nor future there. */
  lemma BoundaryInstantsExcluded(store: seq<Booking>, ownerId: int, b: Booking)
    requires b in store && b.item.owner.id == ownerId && b.start < b.end
    ensures b !in FindByOwnerIdCurrent(store, ownerId, b.start) && b !in FindByOwnerIdFuture(store, ownerId, b.start)
    ensures b !in FindByOwnerIdCurrent(store, ownerId, b.end) && b !in FindByOwnerIdPast(store, ownerId, b.end)
    ensures b in FindByOwnerIdCurrent(store, ownerId, b.start + 1) <==> b.start + 1 < b.end
  {
  }
}
