/**
 * `ItemRequestDtoMapper`: a request as the client sees it. An empty list of
 * items is sent as null rather than as an empty list.
 */
module RequestMapper {
  import opened Common
  import opened Entities
  import ItemMapper

  /** `mapToItemRequestDto`. */
  function MapToItemRequestDto(q: ItemRequest): (d: ItemRequestDto)
    ensures d.id == q.id && d.description == q.description && d.created == q.created && d.requester == q.requester
    ensures d.items.None? <==> q.items.None? || q.items.value == []
    ensures d.items.Some? ==>
              |d.items.value| == |q.items.value|
              && forall k :: 0 <= k < |d.items.value| ==> d.items.value[k] == ItemMapper.MapToItemDto(q.items.value[k])
  {
    var items :=
      if q.items.Some? && q.items.value != [] then
        Some(seq(|q.items.value|, k requires 0 <= k < |q.items.value| => ItemMapper.MapToItemDto(q.items.value[k])))
      else None;
    ItemRequestDto(q.id, q.description, q.requester, q.created, items)
  }

  /** A request that nobody answered is sent with null items, whether its list was null or empty. */
  lemma UnansweredRequestHasNullItems(q: ItemRequest)
    requires q.items == Some([])
    ensures MapToItemRequestDto(q).items == None
    ensures MapToItemRequestDto(q) == MapToItemRequestDto(q.(items := None))
  {
  }
}
