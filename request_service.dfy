/**
 * `ItemRequestServiceImpl`: the "wanted item" board. A request's `items` is
 * the inverse side of `Item.request`, so whenever a request is read its
 * items are the stored items that name it, in storage order.
 */
module RequestService {
  import opened Common
  import opened Entities
  import opened Store
  import UserService

  /** The stored items that answer request `id`, in storage order. */
  function ItemsOfRequest(items: seq<Item>, id: int): (r: seq<Item>)
    ensures forall i :: i in r <==> i in items && i.request.Some? && i.request.value.id == id
  {
    Where(items, (i: Item) => i.request.Some? && i.request.value.id == id)
  }

  /** The items list a read request carries: every item that names it. */
  function Load(items: seq<Item>, q: ItemRequest): (r: ItemRequest)
    ensures r.id == q.id && r.description == q.description && r.requester == q.requester && r.created == q.created
    ensures r.items.Some? && forall i :: i in r.items.value <==> i in items && i.request.Some? && i.request.value.id == q.id
  {
    q.(items := Some(ItemsOfRequest(items, q.id)))
  }

  /** `getRequest`: the stored request with its items; a missing id is a validation error, not NotFound. */
  function GetRequest(requests: seq<ItemRequest>, items: seq<Item>, id: int): (r: Result<ItemRequest>)
    ensures r.Ok? <==> exists q :: q in requests && q.id == id
    ensures r.Err? ==> r.error == Validation
    ensures r.Ok? ==> r.value.id == id && Load(items, Find(requests, RequestKey, id).value) == r.value
  {
    match Find(requests, RequestKey, id)
    case Some(q) => Ok(Load(items, q))
    case None => Err(Validation)
  }

  /** `getAllRequest`: every stored request, in storage order, each with its items. */
  function GetAllRequest(requests: seq<ItemRequest>, items: seq<Item>): (r: seq<ItemRequest>)
    ensures |r| == |requests|
    ensures forall k :: 0 <= k < |r| ==> r[k] == Load(items, requests[k])
  {
    seq(|requests|, k requires 0 <= k < |requests| => Load(items, requests[k]))
  }

  /** The requester of `q` is the user `requesterId`. */
  predicate RequestedBy(q: ItemRequest, requesterId: int) {
    q.requester.Some? && q.requester.value.id == requesterId
  }

  /** `findByRequesterId`: the stored requests of one requester, in storage order. */
  function FindByRequesterId(requests: seq<ItemRequest>, requesterId: int): (r: seq<ItemRequest>)
    ensures forall q :: q in r <==> q in requests && RequestedBy(q, requesterId)
  {
    Where(requests, (q: ItemRequest) => RequestedBy(q, requesterId))
  }

  /** `getAllRequestByRequester`: NotFound for an unknown user; otherwise that user's requests with their items. */
  function GetAllRequestByRequester(users: seq<User>, requests: seq<ItemRequest>, items: seq<Item>, requesterId: int)
    : (r: Result<seq<ItemRequest>>)
    ensures r.Err? <==> UserService.GetUser(users, requesterId).Err?
    ensures r.Err? ==> r.error == NotFound
    ensures r.Ok? ==> forall q :: q in r.value <==> exists p :: p in requests && RequestedBy(p, requesterId) && q == Load(items, p)
  {
    var _ :- UserService.GetUser(users, requesterId);
    var mine := FindByRequesterId(requests, requesterId);
    var loaded := seq(|mine|, k requires 0 <= k < |mine| => Load(items, mine[k]));
    assert forall p :: p in mine ==> Load(items, p) in loaded by {
      forall p | p in mine ensures Load(items, p) in loaded {
        var k :| 0 <= k < |mine| && mine[k] == p;
        assert loaded[k] == Load(items, p);
      }
    }
    Ok(loaded)
  }

  /**
   * `addRequest`: NotFound and nothing saved for an unknown requester;
   * otherwise the request is saved with its requester and creation time
   * overwritten and its description kept.
   */
  method AddRequest(db: Database, requesterId: int, request: ItemRequest, now: Time) returns (r: Result<ItemRequest>)
    requires db.Valid()
    modifies db`requests, db`requestSeq
    ensures db.Valid()
    ensures UserService.GetUser(old(db.users), requesterId).Err? ==>
              r == Err(NotFound) && db.requests == old(db.requests) && db.requestSeq == old(db.requestSeq)
    ensures UserService.GetUser(old(db.users), requesterId).Ok? ==>
              var stamped := request.(requester := Some(UserService.GetUser(old(db.users), requesterId).value), created := Some(now));
              var s := Save(old(db.requests), RequestKey, RequestWithId, old(db.requestSeq), stamped);
              r == Ok(s.row) && db.requests == s.rows && db.requestSeq == s.next
    ensures r.Ok? ==> r.value.description == request.description && r.value.created == Some(now)
    ensures r.Ok? ==> RequestedBy(r.value, requesterId) && Find(db.requests, RequestKey, r.value.id) == Some(r.value)
  {
    var requester :- UserService.GetUser(db.users, requesterId);
    var stamped := request.(requester := Some(requester), created := Some(now));
    var s := Save(db.requests, RequestKey, RequestWithId, db.requestSeq, stamped);
    db.requests, db.requestSeq := s.rows, s.next;
    r := Ok(s.row);
  }

  /** A request just added is found by `getRequest` and listed among its requester's requests. */
  lemma AddedRequestIsListed(users: seq<User>, requests: seq<ItemRequest>, items: seq<Item>, q: ItemRequest, requesterId: int)
    requires Find(requests, RequestKey, q.id) == Some(q) && RequestedBy(q, requesterId)
    requires UserService.GetUser(users, requesterId).Ok?
    ensures GetRequest(requests, items, q.id) == Ok(Load(items, q))
    ensures Load(items, q) in GetAllRequestByRequester(users, requests, items, requesterId).value
  {
    var mine := FindByRequesterId(requests, requesterId);
    assert q in mine;
    var k :| 0 <= k < |mine| && mine[k] == q;
    assert GetAllRequestByRequester(users, requests, items, requesterId).value[k] == Load(items, q);
  }
}
