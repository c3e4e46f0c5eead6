/**
 * The booking lifecycle end to end on an empty database: an owner lists an
 * item, another user books it, the owner approves, and the booker's ALL
 * listing shows the approved booking, once.
 */
module Scenario {
  import opened Common
  import opened Entities
  import opened Store
  import opened BookingStates
  import UserService
  import ItemService
  import BookingService

  /** A fresh database holding the owner (id 1) and their available item (id 1). */
  method RegisterOwnerAndItem() returns (db: Database, owner: User, item: Item)
    ensures fresh(db) && db.Valid()
    ensures owner.id == 1 && owner.email == Some("jhon@mail.ru") && item.id == 1 && item.owner == owner && item.available
    ensures db.users == [owner] && db.userSeq == 2 && db.items == [item] && db.bookings == [] && db.bookingSeq == 1
  {
    db := new Database();
    var jhon := User(0, Some("Jhon"), Some("jhon@mail.ru"));
    var a := UserService.AddUser(db, jhon);
    assert a == Ok(jhon.(id := 1)) && db.users == [a.value];
    owner := a.value;
    var i := ItemService.AddItem(db, 1, ItemDto(0, "Drill", "Cordless drill", true, 0, 0));
    assert i.Ok? && db.items == [i.value];
    item := i.value;
  }

  /** Adds the owner, the item and a second user (id 2). */
  method Setup() returns (db: Database, owner: User, item: Item, booker: User)
    ensures fresh(db) && db.Valid()
    ensures owner.id == 1 && booker.id == 2 && item.id == 1 && item.owner == owner && item.available
    ensures db.users == [owner, booker] && db.items == [item] && db.bookings == [] && db.bookingSeq == 1
  {
    db, owner, item := RegisterOwnerAndItem();
    var anna := User(0, Some("Anna"), Some("anna@mail.ru"));
    assert "anna@mail.ru"[0] != "jhon@mail.ru"[0];
    assert UserService.ValidationUser(db.users, anna).Ok?;
    var b := UserService.AddUser(db, anna);
    assert b == Ok(anna.(id := 2));
    booker := b.value;
  }

  /** The second user books the item, the owner approves, and the booker lists ALL. */
  method OwnerApprovesBooking(now: Time) returns (created: Result<Booking>, approved: Result<Booking>, listed: Result<seq<Booking>>)
    ensures created.Ok? && created.value.status == BookingStatus.WAITING
    ensures approved.Ok? && approved.value == created.value.(status := BookingStatus.APPROVED)
    ensures listed == Ok([approved.value])
  {
    var db, owner, item, booker := Setup();
    assert UserService.GetUser(db.users, 2) == Ok(booker);
    assert Find(db.items, ItemKey, 1) == Some(item);
    created := BookingService.AddBooking(db, 2, BookingDto(now + 1, now + 2, 1));
    assert created.Ok? && created.value.id == 1 && db.bookings == [created.value];
    approved := BookingService.ApproveBooking(db, 1, 1, true);
    assert approved.Ok? && db.bookings == [approved.value];
    listed := BookingService.GetBookingsByUser(db.users, db.bookings, 2, Some("ALL"), now);
    assert listed.Ok?;
    assert multiset(listed.value) == multiset{approved.value} by {
      assert Convert(Some("ALL")) == ALL by { ConvertName(ALL); }
      forall b ensures multiset(listed.value)[b] == multiset{approved.value}[b] {
        assert multiset(db.bookings)[b] == multiset{approved.value}[b];
      }
    }
    assert |listed.value| == |multiset(listed.value)| == 1;
    assert listed.value[0] in multiset(listed.value);
  }
}
