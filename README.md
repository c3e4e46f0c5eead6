# ShareIt rental backend — a Dafny model of its service core

ShareIt lets users offer items for rent, book other users' items, approve or
reject bookings of their own items, comment on items they have rented, and
post requests for items nobody offers yet. This project models the rules
underneath the HTTP layer:

- the booking state filter and its parser (`BookingState.convert`);
- the booking service: creation (always WAITING) and the owner's decision,
  and listings by booker or owner dispatched to the repository queries;
- the booking repository's derived and JPQL queries, as filter-and-sort
  functions over the bookings table;
- the item service: add, partial update, reads enriched with the last and
  next booking times and comments, case-insensitive search, and comments
  gated on a finished booking;
- the DTO mappers for items, bookings and item requests;
- the user service: email validation, uniqueness and partial update;
- the item-request board;
- the two in-memory stores with their id counters (users from 1, items
  from 0), and the first revision of the item service built on them, where
  an item's owner is a bare user id.

The relational store is the class `Store.Database`, with one sequence per
table in storage order and one identity counter per table. `findById`,
`save` and `deleteById` are the generic functions `Store.Find`,
`Store.Save` (with `Store.Put`) and `Store.Remove`. A service operation
that saves is a method on the database, with `modifies` clauses naming the
tables it writes. A read-only operation is a function of the tables it reads.
The in-memory stores are classes with a `map` field and a counter.

Other modelling choices:
- Timestamps are integers, and the current instant `now` is a parameter.
- Java's `null` is `Option.None`.
- The exceptions the services throw are `Common.Error` values in a `Result`:
  - `NotFound` is NotFoundException, HTTP 404;
  - `Validation` is ValidationException, HTTP 400;
  - `Forbidden` is ForbiddenException, HTTP 403;
  - `Conflict` is ConflictException, HTTP 409;
  - `NullReference` is an unhandled null dereference.

Three error paths are worth calling out, since the exception types are not
the obvious ones:
- `getRequest` throws ValidationException for an unknown request id
  (`ItemRequestServiceImpl.java` lines 40-41). So `addItem` with an
  unknown request id also fails with a validation error, not NotFound.
- `updateItem` by a caller who is not the owner throws NotFoundException
  "Owner is incorrect." through `validateOwner` (server
  `ItemServiceImp.java` lines 180-183), not a forbidden error.
- `approveBooking` by anyone but the owner throws ForbiddenException, and
  there is no guard on the booking's current status.

## Model

| member | source | states |
|---|---|---|
| BookingStates.ValuesComplete | server/src/main/java/ru/practicum/shareit/booking/model/BookingState.java:3-10 | `values()` lists every one of the seven constants |
| BookingStates.NamesDistinct | server/src/main/java/ru/practicum/shareit/booking/model/BookingState.java:3-10 | two constants with the same name are the same constant |
| BookingStates.ConvertFrom | server/src/main/java/ru/practicum/shareit/booking/model/BookingState.java:13-18 | the scan returns a candidate whose name equals the string when there is one, and UNKNOWN when none matches |
| BookingStates.Convert | server/src/main/java/ru/practicum/shareit/booking/model/BookingState.java:12-19 | the result's name equals the string, or the result is UNKNOWN and no constant is named by the string; it never fails |
| BookingStates.ConvertName | server/src/main/java/ru/practicum/shareit/booking/model/BookingState.java:12-16 | every constant's own name parses back to it, UNKNOWN included |
| BookingStates.ConvertRecognises | server/src/main/java/ru/practicum/shareit/booking/model/BookingState.java:13-18 | a string parses to a constant other than UNKNOWN exactly when it is that constant's name |
| BookingStates.ConvertIsCaseSensitive | server/src/main/java/ru/practicum/shareit/booking/model/BookingState.java:14 | "all", "Current" and "past" parse to UNKNOWN |
| BookingStates.ConvertUnrecognised | server/src/main/java/ru/practicum/shareit/booking/model/BookingState.java:4-18 | null, "APPROVED", "CANCELED" and "" parse to UNKNOWN |
| Store.Find | server/src/main/java/ru/practicum/shareit/booking/service/BookingServiceImp.java:77-78 | `findById`: a found row is stored and has the key; nothing is found exactly when no row has the key |
| Store.Put | src/main/java/ru/practicum/shareit/user/service/UserServiceImp.java:47 | `save` of a row whose key is stored: the row is then found under its key, every other key finds what it found before, no row appears from nowhere, and the table does not grow |
| Store.Remove | src/main/java/ru/practicum/shareit/user/service/UserServiceImp.java:59 | `deleteById`: the key is then unknown, every other key finds what it found before, and the rows kept are exactly those with other keys |
| Store.Save | src/main/java/ru/practicum/shareit/user/service/UserServiceImp.java:32 | `save`: a stored key is replaced in place; any other row is appended with the next generated id and the counter advances; keys stay below the counter and stay unique |
| Store.Where | server/src/main/java/ru/practicum/shareit/item/service/ItemServiceImp.java:152-156 | a stream filter keeps exactly the rows that satisfy the test |
| Store.WhereAppend | server/src/main/java/ru/practicum/shareit/item/service/ItemServiceImp.java:152-156 | filtering keeps storage order: a row stored later is listed after earlier ones |
| Store.WhereSame | server/src/main/java/ru/practicum/shareit/item/service/ItemServiceImp.java:152-156 | filters that agree on every stored row give the same result, in the same order |
| Store.FindUnique | server/src/main/java/ru/practicum/shareit/booking/service/BookingServiceImp.java:77-78 | with unique keys, `findById` of a stored row's key returns that row |
| Store.PutKeepsKeysUnique | src/main/java/ru/practicum/shareit/user/service/UserServiceImp.java:47 | `save` over a stored key keeps primary keys unique |
| Store.RemoveKeepsKeysUnique | src/main/java/ru/practicum/shareit/user/service/UserServiceImp.java:59 | `deleteById` keeps primary keys unique |
| Store.Database.constructor | src/main/java/ru/practicum/shareit/user/model/User.java:14-16 | an empty database whose identity sequences all start at 1; every table's keys are below its counter and unique |
| BookingRepository.Select | src/main/java/ru/practicum/shareit/booking/storage/BookingJpaRepository.java:22-152 | a WHERE clause keeps exactly the stored bookings that satisfy all of its conditions, and never grows the table |
| BookingRepository.SelectCount | src/main/java/ru/practicum/shareit/booking/storage/BookingJpaRepository.java:22-152 | a WHERE clause keeps every copy of a qualifying booking and no copy of any other: the result never repeats a row |
| BookingRepository.SelectNarrows | src/main/java/ru/practicum/shareit/booking/storage/BookingJpaRepository.java:83-126 | adding conditions yields a sub-multiset of the bookings |
| BookingRepository.SelectTwice | src/main/java/ru/practicum/shareit/booking/storage/BookingJpaRepository.java:134-142 | filtering by one clause and then another is filtering by both |
| BookingRepository.InsertByStart | src/main/java/ru/practicum/shareit/booking/storage/BookingJpaRepository.java:73 | inserting into a start-descending list keeps it start-descending and adds exactly the one booking |
| BookingRepository.SortByStartDesc | src/main/java/ru/practicum/shareit/booking/storage/BookingJpaRepository.java:73 | `order by start desc`: the result is start-descending and a permutation of the input; the order among equal starts is not stated |
| BookingRepository.Query | src/main/java/ru/practicum/shareit/booking/storage/BookingJpaRepository.java:71-74 | a derived query is start-descending, a permutation of the selected bookings, and holds each stored booking that satisfies the clause as often as it is stored, and nothing else |
| BookingRepository.FindByBookerIdOrderByStartDesc | src/main/java/ru/practicum/shareit/booking/storage/BookingJpaRepository.java:22 | start-descending; exactly the bookings with that booker; each qualifying booking appears exactly as often as it is stored, and no other booking appears |
| BookingRepository.FindByBookerIdAndStartBeforeAndEndAfterOrderByStartDesc | src/main/java/ru/practicum/shareit/booking/storage/BookingJpaRepository.java:32-34 | start-descending; exactly the booker's bookings with start < start bound and end > end bound, both strict; each qualifying booking appears exactly as often as it is stored, and no other booking appears |
| BookingRepository.FindByBookerIdAndEndBeforeOrderByStartDesc | src/main/java/ru/practicum/shareit/booking/storage/BookingJpaRepository.java:43-44 | start-descending; exactly the booker's bookings that end strictly before the instant; each qualifying booking appears exactly as often as it is stored, and no other booking appears |
| BookingRepository.FindByBookerIdAndStartAfterOrderByStartDesc | src/main/java/ru/practicum/shareit/booking/storage/BookingJpaRepository.java:53-54 | start-descending; exactly the booker's bookings that start strictly after the instant; each qualifying booking appears exactly as often as it is stored, and no other booking appears |
| BookingRepository.FindByBookerIdAndStatusLikeOrderByStartDesc | src/main/java/ru/practicum/shareit/booking/storage/BookingJpaRepository.java:63 | start-descending; exactly the booker's bookings with that status; each qualifying booking appears exactly as often as it is stored, and no other booking appears |
| BookingRepository.FindByOwnerIdAll | src/main/java/ru/practicum/shareit/booking/storage/BookingJpaRepository.java:71-74 | start-descending; exactly the bookings of items owned by the owner; each qualifying booking appears exactly as often as it is stored, and no other booking appears |
| BookingRepository.FindByOwnerIdCurrent | src/main/java/ru/practicum/shareit/booking/storage/BookingJpaRepository.java:83-87 | start-descending; exactly the owner's bookings with start < t and end > t; each qualifying booking appears exactly as often as it is stored, and no other booking appears |
| BookingRepository.FindByOwnerIdPast | src/main/java/ru/practicum/shareit/booking/storage/BookingJpaRepository.java:96-100 | start-descending; exactly the owner's bookings with end < t; each qualifying booking appears exactly as often as it is stored, and no other booking appears |
| BookingRepository.FindByOwnerIdFuture | src/main/java/ru/practicum/shareit/booking/storage/BookingJpaRepository.java:109-113 | start-descending; exactly the owner's bookings with start > t; each qualifying booking appears exactly as often as it is stored, and no other booking appears |
| BookingRepository.FindByOwnerIdStatus | src/main/java/ru/practicum/shareit/booking/storage/BookingJpaRepository.java:122-126 | start-descending; exactly the owner's bookings whose status equals the argument; each qualifying booking appears exactly as often as it is stored, and no other booking appears |
| BookingRepository.FindByItemIdIn | src/main/java/ru/practicum/shareit/booking/storage/BookingJpaRepository.java:134 | exactly the bookings whose item id is in the given collection |
| BookingRepository.FindByItemId | src/main/java/ru/practicum/shareit/booking/storage/BookingJpaRepository.java:142 | exactly the bookings of that item |
| BookingRepository.FindByItemIdAndBookerIdAndEndBefore | src/main/java/ru/practicum/shareit/booking/storage/BookingJpaRepository.java:152 | exactly the bookings of that item by that booker that end strictly before the instant |
| BookingRepository.QueryNarrows | src/main/java/ru/practicum/shareit/booking/storage/BookingJpaRepository.java:83-126 | a query with more conditions returns a sub-multiset of the one with fewer |
| BookingRepository.BookerQueriesWithinAll | src/main/java/ru/practicum/shareit/booking/storage/BookingJpaRepository.java:22-63 | each filtered booker query is a sub-multiset of that booker's ALL query |
| BookingRepository.OwnerQueriesWithinAll | src/main/java/ru/practicum/shareit/booking/storage/BookingJpaRepository.java:71-126 | each filtered owner query is a sub-multiset of that owner's ALL query |
| BookingRepository.ItemGroupWithinIn | src/main/java/ru/practicum/shareit/booking/storage/BookingJpaRepository.java:134-142 | the bookings of one item within the bookings of a set of items that contains it are that item's own bookings |
| BookingRepository.TimeWindowsDisjoint | src/main/java/ru/practicum/shareit/booking/storage/BookingJpaRepository.java:83-113 | for bookings with start ≤ end, the PAST, CURRENT and FUTURE results at one instant share no booking |
| BookingRepository.BoundaryInstantsExcluded | src/main/java/ru/practicum/shareit/booking/storage/BookingJpaRepository.java:83-87 | a booking is not current at its own start or end instant, nor future at its start, nor past at its end |
| BookingMapper.MapToBooking | server/src/main/java/ru/practicum/shareit/booking/mapper/BookingDtoMapper.java:21-26 | start and end are copied; id, item, booker and status are left unset |
| BookingMapper.MapToBookingDtoOut | server/src/main/java/ru/practicum/shareit/booking/mapper/BookingDtoMapper.java:10-19 | id, start, end and status are kept; the item is `mapToItemDto` of the booking's item and the booker is the mapped user |
| BookingMapper.BookingDtoKeepsReferences | server/src/main/java/ru/practicum/shareit/booking/mapper/BookingDtoMapper.java:15-16 | the DTO keeps the item id, the owner id and the booker id |
| ItemMapper.MapToItemDto | server/src/main/java/ru/practicum/shareit/item/mapper/ItemDtoMapper.java:12-24 | id, name, description and availability are copied; the owner is the owner's id; requestId is the request's id, or 0 without a request |
| ItemMapper.MapToItemDtoWithBookingTime | server/src/main/java/ru/practicum/shareit/item/mapper/ItemDtoMapper.java:26-43 | the last and next booking times and the comments are passed through unchanged |
| ItemMapper.WithBookingTimeAgrees | server/src/main/java/ru/practicum/shareit/item/mapper/ItemDtoMapper.java:26-43 | the enriched DTO agrees with `mapToItemDto` on every shared field |
| ItemMapper.ItemDtoSeparates | server/src/main/java/ru/practicum/shareit/item/mapper/ItemDtoMapper.java:12-24 | items with equal DTOs agree on every field the DTO shows |
| BookingService.GetBooking | server/src/main/java/ru/practicum/shareit/booking/service/BookingServiceImp.java:97-100 | NotFound exactly when no booking has the id; otherwise a stored booking with that id |
| BookingService.GetBookingsByUser | server/src/main/java/ru/practicum/shareit/booking/service/BookingServiceImp.java:111-128 | succeeds exactly when the user exists and the state is not UNKNOWN, else NotFound; the result is start-descending and holds each of the booker's bookings in that state at one instant `now` exactly as often as it is stored, and nothing else |
| BookingService.GetBookingsByOwner | server/src/main/java/ru/practicum/shareit/booking/service/BookingServiceImp.java:139-151 | the same for the bookings of the owner's items: start-descending, and each of them in the state appears exactly as often as it is stored |
| BookingService.ListingAcceptsExactlyFilterNames | server/src/main/java/ru/practicum/shareit/booking/service/BookingServiceImp.java:115-127 | for a known user, a listing succeeds exactly when the state is the name of a filter other than UNKNOWN |
| BookingService.UnknownUserPrecedesState | server/src/main/java/ru/practicum/shareit/booking/service/BookingServiceImp.java:112-115 | an unknown user is NotFound even with the valid filter "ALL" |
| BookingService.Decision | server/src/main/java/ru/practicum/shareit/booking/service/BookingServiceImp.java:80 | APPROVED exactly when approving, REJECTED exactly when not |
| BookingService.AddBooking | server/src/main/java/ru/practicum/shareit/booking/service/BookingServiceImp.java:48-62 | a missing item is NotFound whatever the user; an unavailable item is a validation error; then an unknown booker is NotFound; nothing is saved on error; on success the booking is WAITING, keeps the requested interval, holds the item and the booker, and is appended with the next id |
| BookingService.ApproveBooking | server/src/main/java/ru/practicum/shareit/booking/service/BookingServiceImp.java:76-86 | an unknown booking is NotFound; anyone but the item's owner gets Forbidden and the table is unchanged; otherwise only the status changes, to APPROVED or REJECTED, whatever it was before; other bookings are untouched |
| Text.Lower | server/src/main/java/ru/practicum/shareit/item/service/ItemServiceImp.java:154 | `toLowerCase` keeps the length and lowers each character |
| Text.Contains | server/src/main/java/ru/practicum/shareit/item/service/ItemServiceImp.java:154-155 | `contains` holds exactly when the text occurs at some position |
| Text.EmptyTextMatchesEverything | server/src/main/java/ru/practicum/shareit/item/service/ItemServiceImp.java:150-151 | every string contains "", which is why the empty search text is handled before the filter |
| Text.LowerIdempotent | server/src/main/java/ru/practicum/shareit/item/service/ItemServiceImp.java:154 | lowering a lowered string changes nothing |
| Text.MatchesTextIgnoresCase | server/src/main/java/ru/practicum/shareit/item/service/ItemServiceImp.java:154-155 | for all inputs, names, descriptions and texts that differ only in letter case match alike, and lowering the text first changes nothing |
| Text.MatchIgnoresCase | server/src/main/java/ru/practicum/shareit/item/service/ItemServiceImp.java:154-155 | an instance of the general lemma: "dRILL" finds "Drill" |
| ItemService.ValidateOwner | server/src/main/java/ru/practicum/shareit/item/service/ItemServiceImp.java:180-183 | passes exactly for the owner; anyone else gets NotFound |
| ItemService.ValidateBooker | server/src/main/java/ru/practicum/shareit/item/service/ItemServiceImp.java:185-190 | passes exactly when the user has a booking of the item that ended strictly before `now`; else a validation error |
| ItemService.LatestEnd | server/src/main/java/ru/practicum/shareit/item/service/ItemServiceImp.java:196-201 | the reduction yields the latest end among CANCELED bookings that ended before `now`, and null when there is none |
| ItemService.LastBookingTime | server/src/main/java/ru/practicum/shareit/item/service/ItemServiceImp.java:192-202 | null for a null list; otherwise the latest end among CANCELED bookings ended before `now`, or null |
| ItemService.EarliestStart | server/src/main/java/ru/practicum/shareit/item/service/ItemServiceImp.java:208-213 | the pipeline yields the earliest start strictly after `now`, and null when there is none |
| ItemService.NextBookingTime | server/src/main/java/ru/practicum/shareit/item/service/ItemServiceImp.java:204-214 | null for a null list; otherwise the earliest start strictly after `now`, or null |
| ItemService.NullAndEmptyAgree | server/src/main/java/ru/practicum/shareit/item/service/ItemServiceImp.java:193-195 | a null list and an empty list both give null times |
| ItemService.LastBookingIgnoresApproved | server/src/main/java/ru/practicum/shareit/item/service/ItemServiceImp.java:197 | as written, an APPROVED booking that has ended does not count as the last booking |
| ItemService.FindCommentsByItemId | src/main/java/ru/practicum/shareit/item/storage/CommentJpaRepository.java:18 | exactly the comments on that item |
| ItemService.CommentDtos | server/src/main/java/ru/practicum/shareit/item/service/ItemServiceImp.java:115-117 | each comment mapped to its DTO, in order |
| ItemService.Enrich | server/src/main/java/ru/practicum/shareit/item/service/ItemServiceImp.java:112-117 | the item's plain fields as `mapToItemDto` gives them, the latest counted end and the earliest future start of the given bookings, and the item's comments |
| ItemService.GetItem | server/src/main/java/ru/practicum/shareit/item/service/ItemServiceImp.java:108-118 | NotFound exactly when no item has the id; otherwise the stored item enriched from exactly that item's bookings and comments |
| ItemService.FindByOwnerId | src/main/java/ru/practicum/shareit/item/storage/ItemJpaRepository.java:18 | exactly the items of that owner |
| ItemService.ItemIds | server/src/main/java/ru/practicum/shareit/item/service/ItemServiceImp.java:129 | every listed item's id is in the set, and only those ids are |
| ItemService.GroupOf | server/src/main/java/ru/practicum/shareit/item/service/ItemServiceImp.java:130-131 | `groupingBy`, then `get`: null when no booking is of the item, else exactly that item's bookings |
| ItemService.GetItems | server/src/main/java/ru/practicum/shareit/item/service/ItemServiceImp.java:127-140 | one DTO per item of the owner, in storage order, each with that item's plain fields |
| ItemService.GetItemsAgreesWithGetItem | server/src/main/java/ru/practicum/shareit/item/service/ItemServiceImp.java:127-140 | in a table with unique ids, as every valid database has, each entry of the owner's listing equals what `getItem` returns for that item |
| ItemService.Search | server/src/main/java/ru/practicum/shareit/item/service/ItemServiceImp.java:149-157 | null or empty text gives an empty list; otherwise exactly the available items whose lowered name or description contains the lowered text |
| ItemService.SearchKeepsStorageOrder | server/src/main/java/ru/practicum/shareit/item/service/ItemServiceImp.java:152-156 | results come in storage order |
| ItemService.SearchIgnoresCase | server/src/main/java/ru/practicum/shareit/item/service/ItemServiceImp.java:152-156 | two search texts that differ only in letter case find the same items in the same order |
| ItemService.UnavailableItemNeverFound | server/src/main/java/ru/practicum/shareit/item/service/ItemServiceImp.java:153 | an unavailable item is never found |
| ItemService.MergeItem | server/src/main/java/ru/practicum/shareit/item/service/ItemServiceImp.java:90-95 | name, description and availability are each replaced exactly when supplied; id, owner and request are kept |
| ItemService.MergeItemIdempotent | server/src/main/java/ru/practicum/shareit/item/service/ItemServiceImp.java:90-95 | applying the same patch twice equals applying it once |
| ItemService.AddItem | server/src/main/java/ru/practicum/shareit/item/service/ItemServiceImp.java:60-72 | an unknown owner is NotFound; a non-zero request id that names no request is a validation error; nothing is saved on error; on success the item is appended with the next id, owned by the user, with the request attached exactly when requestId ≠ 0, and is then among that request's items |
| ItemService.UpdateItem | server/src/main/java/ru/practicum/shareit/item/service/ItemServiceImp.java:85-98 | an unknown item, an unknown user and a caller other than the owner are each NotFound, with nothing changed; on success the merged item replaces the stored one in place |
| ItemService.AddComment | server/src/main/java/ru/practicum/shareit/item/service/ItemServiceImp.java:169-178 | without a finished booking of the item the call is a validation error; then an unknown item or user is NotFound; on success the comment is stamped with `now` and appended with the next id |
| UserService.GetUser | src/main/java/ru/practicum/shareit/user/service/UserServiceImp.java:51-53 | NotFound exactly when no user has the id; otherwise a stored user with that id |
| UserService.ValidationUser | src/main/java/ru/practicum/shareit/user/service/UserServiceImp.java:62-68 | a null or empty email is a validation error; otherwise an email held by a user with a different id is a conflict; otherwise it passes |
| UserService.OwnEmailIsNoConflict | src/main/java/ru/practicum/shareit/user/service/UserServiceImp.java:66 | re-submitting one's own email is not a conflict |
| UserService.DuplicateEmailConflicts | src/main/java/ru/practicum/shareit/user/service/UserServiceImp.java:65-67 | a second user with a stored user's email is a conflict, and one with an email nobody holds passes |
| UserService.ValidatedRowKeepsEmailsDistinct | src/main/java/ru/practicum/shareit/user/service/UserServiceImp.java:62-67 | storing a user who passed validation keeps emails distinct across user ids |
| UserService.MergeUser | src/main/java/ru/practicum/shareit/user/service/UserServiceImp.java:41-44 | name and email are each replaced exactly when supplied; the id is kept |
| UserService.EmptyPatchKeepsUser | src/main/java/ru/practicum/shareit/user/service/UserServiceImp.java:41-44 | a patch that supplies nothing leaves the user unchanged |
| UserService.AddUser | src/main/java/ru/practicum/shareit/user/service/UserServiceImp.java:30-35 | a failed validation is returned and nothing is saved; otherwise the user is saved with its name and email and can be found under its id; distinct emails stay distinct |
| UserService.UpdateUser | src/main/java/ru/practicum/shareit/user/service/UserServiceImp.java:39-48 | an unknown id is NotFound; the merged user is validated, and on success replaces the stored one and keeps the id; other users are untouched; distinct emails stay distinct |
| UserService.DeleteUser | src/main/java/ru/practicum/shareit/user/service/UserServiceImp.java:57-60 | the id is unknown afterwards; other users are untouched; deleting an absent id is not an error |
| UserService.DeletedUserIsNotFound | src/main/java/ru/practicum/shareit/user/service/UserServiceImp.java:52-59 | after `deleteUser(id)`, `getUser(id)` is NotFound |
| UserStorage.UserInMemoryStorage.constructor | src/main/java/ru/practicum/shareit/user/storage/UserInMemoryStorage.java:14-15 | an empty map and a counter at 0 |
| UserStorage.UserInMemoryStorage.AddUser | src/main/java/ru/practicum/shareit/user/storage/UserInMemoryStorage.java:18-23 | the counter is incremented first and becomes the user's id; the user is stored under it; other entries are unchanged; the id was never handed out before |
| UserStorage.UserInMemoryStorage.UpdateUser | src/main/java/ru/practicum/shareit/user/storage/UserInMemoryStorage.java:26-30 | the entry at the user's id is overwritten or inserted; the counter is unchanged |
| UserStorage.UserInMemoryStorage.GetUser | src/main/java/ru/practicum/shareit/user/storage/UserInMemoryStorage.java:33-38 | the stored user for a present id; NotFound for an absent one |
| UserStorage.UserInMemoryStorage.GetUsers | src/main/java/ru/practicum/shareit/user/storage/UserInMemoryStorage.java:41-43 | exactly the stored users |
| UserStorage.UserInMemoryStorage.DeleteUser | src/main/java/ru/practicum/shareit/user/storage/UserInMemoryStorage.java:46-49 | the key is removed; an absent key leaves the map unchanged |
| UserStorage.IdsCountFromOne | src/main/java/ru/practicum/shareit/user/storage/UserInMemoryStorage.java:51-53 | ids run 1, 2, 3 in call order, and the next is 4 after user 3 is deleted |
| ItemStorage.ItemInMemoryStorage.constructor | src/main/java/ru/practicum/shareit/item/storage/ItemInMemoryStorage.java:13-14 | an empty map and a counter at 0 |
| ItemStorage.ItemInMemoryStorage.AddItem | src/main/java/ru/practicum/shareit/item/storage/ItemInMemoryStorage.java:17-22 | the item takes the counter's value as its id before the counter advances; it is stored under that id; other entries are unchanged; the id was never handed out before |
| ItemStorage.ItemInMemoryStorage.UpdateItem | src/main/java/ru/practicum/shareit/item/storage/ItemInMemoryStorage.java:25-29 | the entry at the item's id is overwritten; the counter is unchanged |
| ItemStorage.ItemInMemoryStorage.GetItem | src/main/java/ru/practicum/shareit/item/storage/ItemInMemoryStorage.java:32-34 | the stored item for a present id, null for an absent one |
| ItemStorage.ItemInMemoryStorage.GetItems | src/main/java/ru/practicum/shareit/item/storage/ItemInMemoryStorage.java:37-39 | exactly the stored items |
| ItemStorage.ItemInMemoryStorage.DeleteItem | src/main/java/ru/practicum/shareit/item/storage/ItemInMemoryStorage.java:42-45 | the key is removed; deleting it again changes nothing |
| ItemStorage.IdsCountFromZero | src/main/java/ru/practicum/shareit/item/storage/ItemInMemoryStorage.java:47-49 | ids run 0, 1, and the next is 2 after item 1 is deleted twice |
| RequestService.ItemsOfRequest | src/main/java/ru/practicum/shareit/request/model/ItemRequest.java:30-31 | exactly the items that name the request |
| RequestService.Load | src/main/java/ru/practicum/shareit/request/model/ItemRequest.java:30-31 | a read request keeps its fields and carries exactly the items that name it |
| RequestService.GetRequest | server/src/main/java/ru/practicum/shareit/request/service/ItemRequestServiceImpl.java:39-42 | a validation error, not NotFound, exactly when no request has the id; otherwise the stored request with its items |
| RequestService.GetAllRequest | server/src/main/java/ru/practicum/shareit/request/service/ItemRequestServiceImpl.java:45-47 | every stored request, in order, each with its items |
| RequestService.FindByRequesterId | src/main/java/ru/practicum/shareit/request/storage/ItemRequestJpaRepository.java:12 | exactly the requests of that requester |
| RequestService.GetAllRequestByRequester | server/src/main/java/ru/practicum/shareit/request/service/ItemRequestServiceImpl.java:50-53 | NotFound exactly when the user is unknown; otherwise exactly that user's requests, with their items |
| RequestService.AddRequest | server/src/main/java/ru/practicum/shareit/request/service/ItemRequestServiceImpl.java:32-36 | an unknown requester is NotFound and nothing is saved; otherwise the requester and creation time are overwritten, the description is kept, and the request is saved |
| RequestService.AddedRequestIsListed | server/src/main/java/ru/practicum/shareit/request/service/ItemRequestServiceImpl.java:35-52 | a saved request is found by `getRequest` and listed among its requester's requests |
| RequestMapper.MapToItemRequestDto | src/main/java/ru/practicum/shareit/request/mapper/ItemRequestDtoMapper.java:11-23 | id, description, created and requester are copied; a null or empty item list becomes null; otherwise the list is mapped item by item, with the same length and order |
| RequestMapper.UnansweredRequestHasNullItems | src/main/java/ru/practicum/shareit/request/mapper/ItemRequestDtoMapper.java:18-21 | an empty item list is sent exactly as a null one |
| LegacyItemService.ValidateOwner | src/main/java/ru/practicum/shareit/item/service/ItemServiceImp.java:72-75 | a null item is a null-reference error; the owner passes; anyone else gets NotFound |
| LegacyItemService.GetItem | src/main/java/ru/practicum/shareit/item/service/ItemServiceImp.java:45-49 | only the owner gets the item; anyone else gets NotFound; a missing id is a null-reference error |
| LegacyItemService.GetItems | src/main/java/ru/practicum/shareit/item/service/ItemServiceImp.java:53-58 | exactly the stored items whose owner is the user |
| LegacyItemService.Search | src/main/java/ru/practicum/shareit/item/service/ItemServiceImp.java:61-70 | empty text gives nothing; otherwise exactly the available stored items whose lowered name or description contains the lowered text |
| LegacyItemService.GetItemAgreesWithGetItems | src/main/java/ru/practicum/shareit/item/service/ItemServiceImp.java:45-58 | what the owner reads with `getItem` is listed by `getItems`, and every listed item reads back by its id |
| LegacyItemService.MergeItem | src/main/java/ru/practicum/shareit/item/service/ItemServiceImp.java:35-40 | name, description and availability are each replaced exactly when supplied; id, owner and request are kept |
| LegacyItemService.AddItem | src/main/java/ru/practicum/shareit/item/service/ItemServiceImp.java:24-28 | an unknown user is NotFound and nothing is stored; otherwise the item, with owner set to the user, gets the counter's id and is readable by its owner |
| LegacyItemService.UpdateItem | src/main/java/ru/practicum/shareit/item/service/ItemServiceImp.java:31-42 | an unknown user is NotFound; then a missing item is a null-reference error and a caller other than the owner gets NotFound, with nothing changed; on success the merged item replaces the stored one |
| Scenario.OwnerApprovesBooking | server/src/main/java/ru/practicum/shareit/booking/service/BookingServiceImp.java:48-86 | on a fresh database: a booking of an available item is WAITING; the owner's approval makes it APPROVED; the booker's ALL listing is exactly that one approved booking |

## Left out

- Controllers, the gateway and its HTTP clients are left out; they only route, bind headers and forward.
- The error handler is left out. Its mapping is recorded with `Common.Error` above.
- Bean validation is left out: `@NotBlank`, `@Email`, `@Future`, a positive user-id header. No check that end > start is invented.
- The clock is left out; `now` is a parameter. `lastBookingTime` and `nextBookingTime` read the clock once per booking, and the model uses one instant for the whole call.
- Transactions and logging are left out; each service call is atomic. In `updateUser` the managed entity is changed before validation; the model assumes a failed validation rolls that back, so nothing changes on error.
- Null-unboxing crashes are left out. Stored items always have a name, a description and an availability. The first-revision `search` takes a non-null text: `text.isEmpty()` on null throws.
- Entity references are held as values. A stored booking, comment or item keeps a copy of its item, owner or request as they were when it was saved, where JPA would follow the reference. Owner and booker ids never change, so the queries are unaffected; names shown through an old booking can be stale.
- Hibernate's merge on `save` of an entity whose id is stored is modelled as replacing that row in place.
- The order among bookings with equal start times under `order by start desc` is not stated; the database does not promise one either.
- `findByBookerIdAndStatusLike` on an enum is modelled as equality.
- `Text.Lower` lowers ASCII letters only. Java's `toLowerCase` is Unicode- and locale-aware.
- HashMap iteration order is left out: the in-memory `getUsers` and `getItems`, and the first-revision `getItems` and `search`, return sets.
- The server `Item`, `Booking` and `ItemRequest` entity classes are not part of this model; their fields are inferred from how the services use them.
- `ItemRequestDtoMapper` maps items with the server's `ItemDtoMapper`. The older mapper of the same name does not fit the item class it imports.
- `CommentDtoMapper` and `UserDtoMapper` are field copies (`Entities.MapToCommentDto`, `Entities.MapToUserDto`).
- The first revision's `ItemDtoMapper` is a field copy. Its service returns the stored item value itself.
- A null-reference error is an error value here. In Java it is an unhandled exception that no handler maps.
- ItemService.GetItems: its own contract states only each entry's plain fields. The booking times and comments are stated through GetItemsAgreesWithGetItem.
- ItemService.Search: its contract states membership. Storage order is stated by SearchKeepsStorageOrder only.
- UserStorage.UserInMemoryStorage.AddUser: ids are unbounded integers. The Java counter is an `Integer`, so `++id` wraps past 2^31-1 to negative ids, and after 2^32 additions an id comes round again and `put` overwrites a stored user. "Never reused" holds only below that bound.
- ItemStorage.ItemInMemoryStorage.AddItem: ids are unbounded integers. `id++` on the `Integer` counter wraps the same way; "never reused" holds only below 2^32 additions.
- Store.Save: the JPA identity columns are unbounded here; the 32-bit `int` id of the entities and the database's sequence limit are not modelled.
