/**
 * The first revision of the item service, over `ItemInMemoryStorage`: the
 * owner is a user id, only the owner may read or change an item, and an id
 * the store does not hold comes back as null, which `validateOwner` then
 * dereferences.
 */
module LegacyItemService {
  import opened Common
  import opened Text
  import opened Entities
  import opened ItemStorage
  import UserService

  /**
   * `validateOwner`: dereferencing a null item fails with a null-reference
   * error; a caller other than the owner gets NotFound.
   */
  function ValidateOwner(userId: int, item: Option<LegacyItem>): (r: Result<()>)
    ensures item.None? ==> r == Err(NullReference)
    ensures item.Some? ==> (r.Ok? <==> item.value.owner == userId)
    ensures item.Some? && r.Err? ==> r.error == NotFound
  {
    if item.None? then Err(NullReference)
    else if item.value.owner != userId then Err(NotFound)
    else Ok(())
  }

  /** `getItem`: the item, for its owner only; anyone else gets NotFound, and a missing id a null-reference error. */
  function GetItem(store: ItemInMemoryStorage, userId: int, id: int): (r: Result<LegacyItem>)
    reads store
    requires store.Valid()
    ensures id !in store.items ==> r == Err(NullReference)
    ensures id in store.items ==> (r.Ok? <==> store.items[id].owner == userId)
    ensures id in store.items && r.Err? ==> r.error == NotFound
    ensures r.Ok? ==> r.value == store.items[id] && r.value.owner == userId
  {
    var item := store.GetItem(id);
    var _ :- ValidateOwner(userId, item);
    Ok(item.value)
  }

  /** `getItems`: exactly the stored items of one owner. */
  function GetItems(store: ItemInMemoryStorage, userId: int): (r: set<LegacyItem>)
    reads store
    requires store.Valid()
    ensures forall i :: i in r <==> i in store.GetItems() && i.owner == userId
  {
    set i | i in store.GetItems() && i.owner == userId
  }

  /** The search test: an available item whose lowered name or description contains the lowered text. */
  predicate Matches(i: LegacyItem, text: string) {
    i.available && MatchesText(i.name, i.description, text)
  }

  /** `search`: nothing for empty text; otherwise exactly the stored available items that match. */
  function Search(store: ItemInMemoryStorage, text: string): (r: set<LegacyItem>)
    reads store
    requires store.Valid()
    ensures text == "" ==> r == {}
    ensures text != "" ==> forall i :: i in r <==> i in store.GetItems() && Matches(i, text)
  {
    if text == "" then {}
    else set i | i in store.GetItems() && Matches(i, text)
  }

  /** What the owner sees of an item through `getItem` is what `getItems` lists for them. */
  lemma GetItemAgreesWithGetItems(store: ItemInMemoryStorage, userId: int, id: int)
    requires store.Valid()
    ensures GetItem(store, userId, id).Ok? ==> GetItem(store, userId, id).value in GetItems(store, userId)
    ensures forall i :: i in GetItems(store, userId) ==> GetItem(store, userId, i.id) == Ok(i)
  {
  }

  /** The item `updateItem` stores: each supplied (non-null) field replaced; id, owner and request kept. */
  function MergeItem(stored: LegacyItem, patch: ItemPatch): (r: LegacyItem)
    ensures r.id == stored.id && r.owner == stored.owner && r.request == stored.request
    ensures r.name == if patch.name.Some? then patch.name.value else stored.name
    ensures r.description == if patch.description.Some? then patch.description.value else stored.description
    ensures r.available == if patch.available.Some? then patch.available.value else stored.available
  {
    stored.(
      name := if patch.name.Some? then patch.name.value else stored.name,
      description := if patch.description.Some? then patch.description.value else stored.description,
      available := if patch.available.Some? then patch.available.value else stored.available)
  }

  /** `addItem`: NotFound for an unknown user; otherwise the item, owned by the caller, is added to the store. */
  method AddItem(store: ItemInMemoryStorage, users: seq<User>, userId: int, item: LegacyItem) returns (r: Result<LegacyItem>)
    requires store.Valid()
    modifies store
    ensures store.Valid()
    ensures UserService.GetUser(users, userId).Err? ==>
              r == Err(NotFound) && store.items == old(store.items) && store.id == old(store.id)
    ensures UserService.GetUser(users, userId).Ok? ==>
              && r == Ok(item.(owner := userId, id := old(store.id)))
              && store.items == old(store.items)[r.value.id := r.value]
              && store.id == old(store.id) + 1
    ensures r.Ok? ==> GetItem(store, userId, r.value.id) == Ok(r.value)
  {
    var _ :- UserService.GetUser(users, userId);
    var added := store.AddItem(item.(owner := userId));
    r := Ok(added);
  }

  /**
   * `updateItem`: the item is fetched (possibly null), then the user is looked
   * up (NotFound), then ownership is checked: a null item is a null-reference
   * error and a caller other than the owner gets NotFound. Otherwise the
   * merged item replaces the stored one.
   */
  method UpdateItem(store: ItemInMemoryStorage, users: seq<User>, userId: int, itemId: int, patch: ItemPatch)
    returns (r: Result<LegacyItem>)
    requires store.Valid()
    modifies store`items
    ensures store.Valid()
    ensures UserService.GetUser(users, userId).Err? ==> r == Err(NotFound)
    ensures UserService.GetUser(users, userId).Ok? && itemId !in old(store.items) ==> r == Err(NullReference)
    ensures (UserService.GetUser(users, userId).Ok? && itemId in old(store.items)
             && old(store.items)[itemId].owner != userId) ==> r == Err(NotFound)
    ensures r.Err? ==> store.items == old(store.items)
    ensures r.Ok? <==> UserService.GetUser(users, userId).Ok? && itemId in old(store.items) && old(store.items)[itemId].owner == userId
    ensures r.Ok? ==> r.value == MergeItem(old(store.items)[itemId], patch) && store.items == old(store.items)[itemId := r.value]
  {
    var stored := store.GetItem(itemId);
    var _ :- UserService.GetUser(users, userId);
    var _ :- ValidateOwner(userId, stored);
    var updated := store.UpdateItem(MergeItem(stored.value, patch));
    r := Ok(updated);
  }
}
