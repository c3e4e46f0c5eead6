/**
 * `ItemInMemoryStorage` and the items of the first revision of the service,
 * whose owner is a bare user id. The counter hands out its value before
 * incrementing it, so the first item id is 0, unlike the user store.
 */
module ItemStorage {
  import opened Common

  /** An item of the first revision: the owner is a user id, the request an id. */
  datatype LegacyItem = LegacyItem(
    id: int,
    name: string,
    description: string,
    available: bool,
    owner: int,
    request: int)

  class ItemInMemoryStorage {
    var items: map<int, LegacyItem>
    var id: int
    /** The ids `addItem` has handed out so far. */
    ghost var issued: set<int>

    /** Every item is stored under its own id, and every id handed out is below the counter. */
    ghost predicate Valid()
      reads this
    {
      && 0 <= id
      && (forall k :: k in items ==> items[k].id == k)
      && (forall k :: k in issued ==> 0 <= k < id)
    }

    /** An empty store whose counter stands at 0. */
    constructor ()
      ensures Valid()
      ensures items == map[] && id == 0 && issued == {}
    {
      items := map[];
      id := 0;
      issued := {};
    }

    /** `addItem`: the item takes the counter's value as its id, and the counter moves on. */
    method AddItem(item: LegacyItem) returns (added: LegacyItem)
      requires Valid()
      modifies this
      ensures Valid()
      ensures id == old(id) + 1
      ensures added == item.(id := old(id))
      ensures items == old(items)[added.id := added]
      ensures issued == old(issued) + {added.id}
      ensures added.id !in old(issued) && added.id >= 0
    {
      added := item.(id := id);
      id := id + 1;
      items := items[added.id := added];
      issued := issued + {added.id};
    }

    /** `updateItem`: stores the item under its id; the counter is untouched. */
    method UpdateItem(item: LegacyItem) returns (updated: LegacyItem)
      requires Valid()
      modifies this`items
      ensures Valid()
      ensures updated == item
      ensures items == old(items)[item.id := item]
    {
      items := items[item.id := item];
      updated := item;
    }

    /** `getItem`: the item stored under `key`, or null; a missing id is not an error here. */
    function GetItem(key: int): (r: Option<LegacyItem>)
      reads this
      requires Valid()
      ensures key in items ==> r == Some(items[key]) && r.value.id == key
      ensures key !in items ==> r == None
    {
      if key in items then Some(items[key]) else None
    }

    /** `getItems`: exactly the stored items. */
    function GetItems(): (all: set<LegacyItem>)
      reads this
      requires Valid()
      ensures forall i :: i in all ==> i.id in items && items[i.id] == i
      ensures forall k :: k in items ==> items[k] in all
    {
      set k | k in items :: items[k]
    }

    /** `deleteItem`: removes the entry; a second deletion of the same id changes nothing. */
    method DeleteItem(key: int)
      requires Valid()
      modifies this`items
      ensures Valid()
      ensures items == old(items) - {key}
      ensures key !in old(items) ==> items == old(items)
    {
      items := items - {key};
    }
  }

  /** Ids start at 0 and are not reused: after deleting item 1 the next item gets 2. */
  method IdsCountFromZero(i: LegacyItem) returns (first: int, second: int, third: int)
    ensures first == 0 && second == 1 && third == 2
  {
    var store := new ItemInMemoryStorage();
    var a := store.AddItem(i);
    var b := store.AddItem(i);
    store.DeleteItem(b.id);
    store.DeleteItem(b.id);
    assert store.GetItem(b.id) == None;
    var c := store.AddItem(i);
    first, second, third := a.id, b.id, c.id;
  }
}
