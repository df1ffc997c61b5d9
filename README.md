# ShareIt booking lifecycle and item catalog, modelled in Dafny

ShareIt is a peer-to-peer item-sharing backend. Users list items and search
the catalog. They book other users' items for a period, and the owner of an
item approves or rejects each booking. This project models the service layer
of that backend and proves properties of the model:

- the **booking lifecycle** (`BookingServiceImpl`): creating a booking, the
  owner's decision, fetching a booking, and the booker's and owner's listings
  filtered by a state token;
- the **item catalog** (`ItemServiceImpl`): creation with owner stamping,
  partial update, the owner's items, lookup by id, and text search;
- the two **item queries** of `ItemRepository`: the owner query ordered by
  item id and the case-insensitive text search over available items.

## Structure

| file | module | what it holds |
|---|---|---|
| `domain.dfy` | `Domain` | `User`, `Item` and `Booking` records (shapes of `Item.java` and `Booking.java`), `Status`, `State`, the `Error` kinds (Validation, NotFound, Conflict and the persistence layer's missing entity), `Result`, and the service messages |
| `text.dfy` | `Text` | `String.isBlank` with Java's whitespace set, SQL `upper()`, and the substring test behind `LIKE '%text%'` |
| `sequences.dfy` | `Sequences` | `Filter` (a WHERE clause) and an insertion `Sort` on an integer key (an ORDER BY clause), with their correctness proofs |
| `database.dfy` | `Database` | the tables as a value `Db`, the `Store` class that holds them and is updated in place, and the `Consistent` invariant |
| `item_repository.dfy` | `ItemRepository` | the two item queries |
| `item_service.dfy` | `ItemService` | the item service |
| `booking_service.dfy` | `BookingService` | the booking service |

Each service operation has two parts. A pure `...Step` function over `Db`
gives the answer and the tables left behind. It is the specification, and the
lemmas are stated about it. Where the source updates state (`createBooking`,
`setApprovedByOwner`, `createItem`, `updateItem`), there is also a method on
`Database.Store`. The method does the work step by step, as the source does.
It is proved to return what the step function returns and to leave the tables
the step function leaves. It also keeps `Store.Valid()`.

Modelling choices:

- The item and booking tables are sequences. Row `k` holds id `k + 1`, as the
  store's IDENTITY columns generate ids. Users are a map from id to record.
- A booking refers to its item and its booker by id, as the join columns
  `item_id` and `booker_id` do. The item owner used in an ownership check is
  read through that reference.
- `Consistent` is the store invariant. Every row carries its own id. Items
  belong to existing users. Every booking refers to an existing item and an
  existing booker, has `start < end`, and has a booker who does not own the
  item. Every state-changing operation preserves it.
- Timestamps are integers. `now` is a parameter wherever the source reads
  `LocalDateTime.now()`.

Behaviour of the code that a reader may not expect, which the model follows:

- **Owner CURRENT window.** The owner listing's CURRENT filter is strict,
  `start < now < end` (`StartBefore` and `EndAfter`). It is not `<=`.
- **Approving a rejected booking.** Approval may overwrite a REJECTED booking.
  A rejection of an APPROVED booking is accepted and returned as REJECTED, but
  it is not saved (see "## Findings"). Only a repeat of the same decision is
  refused.
- **Missing item in createBooking.** The NotFound error for a missing item
  carries the message used for a missing user.
- **Listing pagination.** The listing methods take no `from`/`size`, so
  there are no pagination checks.
- **updateItem ownership.** `updateItem` checks only that the acting user
  exists. It never compares that user with the item's owner.
- **Empty search.** Only the service's blank-text guard makes the empty
  search empty. The repository query alone would match every available item.

## Model

| member | source | states |
|---|---|---|
| `BookingService.CreateBookingStep` | src/main/java/ru/practicum/shareit/booking/impl/BookingServiceImpl.java:29-61 | `start >= end` fails with Validation before any lookup. A missing booker fails with NotFound. Success happens exactly when booker and item exist, the booker is not the owner and the item is available. Success appends exactly one booking, with status WAITING, the next id and the given item, booker, start and end. Every failure leaves the store unchanged. |
| `BookingService.CreateBookingFailures` | src/main/java/ru/practicum/shareit/booking/impl/BookingServiceImpl.java:34-60 | With a valid period, the checks run in order: a missing item gives NotFound, self-booking gives Conflict, and an unavailable item gives Validation. Each leaves the store unchanged. |
| `BookingService.CreateBookingKeepsConsistent` | src/main/java/ru/practicum/shareit/booking/impl/BookingServiceImpl.java:30-44 | Creating a booking preserves the store invariant: valid references, `start < end`, and no self-booking. |
| `BookingService.CreatedBookingVisibleToParticipants` | src/main/java/ru/practicum/shareit/booking/impl/BookingServiceImpl.java:109-127 | A created booking is fetched unchanged by its booker and by the item owner. Any other user gets an error. |
| `BookingService.CreateBooking` | src/main/java/ru/practicum/shareit/booking/impl/BookingServiceImpl.java:29-61 | Updates the store in place, with the answer and tables `CreateBookingStep` gives, and keeps the store valid. |
| `BookingService.Decide` | src/main/java/ru/practicum/shareit/booking/impl/BookingServiceImpl.java:74-91 | Approval fails exactly when the booking is already APPROVED. Rejection fails exactly when it is already REJECTED. Both failures are Validation. Any other status, including the opposite decision, becomes the decided status. |
| `BookingService.ApprovalGuard` | src/main/java/ru/practicum/shareit/booking/impl/BookingServiceImpl.java:66-72 | The decision goes ahead exactly when the acting user exists, the booking exists and the user owns the booked item, and hands on the stored booking with id `bookingId`. Otherwise the error is NotFound. |
| `BookingService.SetApprovedStep` | src/main/java/ru/practicum/shareit/booking/impl/BookingServiceImpl.java:64-106 | A guard failure answers NotFound and changes nothing. Otherwise the answer is the owner's decision on booking `bookingId`, saved into that booking's own row. The store changes only on a successful approval; a successful rejection is returned but not saved. |
| `BookingService.SetApprovedKeepsConsistent` | src/main/java/ru/practicum/shareit/booking/impl/BookingServiceImpl.java:79-81 | The owner's decision preserves the store invariant. |
| `BookingService.RepeatedApproveRefused` | src/main/java/ru/practicum/shareit/booking/impl/BookingServiceImpl.java:74-82 | After a successful approval the booking is stored APPROVED. A second approval fails with Validation and leaves it APPROVED. |
| `BookingService.RejectNotPersisted` | src/main/java/ru/practicum/shareit/booking/impl/BookingServiceImpl.java:84-91 | A successful rejection leaves the store as it was, with the stored status not REJECTED. So a second rejection succeeds again. |
| `BookingService.RejectTwiceScenario` | src/main/java/ru/practicum/shareit/booking/impl/BookingServiceImpl.java:84-91 | Concrete instance: the owner rejects a WAITING booking twice. Both calls succeed and the store does not change. |
| `BookingService.ApprovalScenario` | src/main/java/ru/practicum/shareit/booking/impl/BookingServiceImpl.java:38-82 | User 2 books user 1's available item and gets WAITING. User 1 approves and gets APPROVED. A second approval is refused and the status stays APPROVED. |
| `BookingService.SetApprovedStepPersisting` | src/main/java/ru/practicum/shareit/booking/impl/BookingServiceImpl.java:84-91 | Corrected decision: same answers as the source, but every successful decision is saved, rejection included. |
| `BookingService.RepeatedDecisionRefused` | src/main/java/ru/practicum/shareit/booking/impl/BookingServiceImpl.java:74-91 | With every decision saved, repeating either decision fails with Validation and changes nothing. |
| `BookingService.SetApprovedByOwner` | src/main/java/ru/practicum/shareit/booking/impl/BookingServiceImpl.java:64-106 | Updates the store in place, with the answer and tables `SetApprovedStep` gives, and keeps the store valid. |
| `BookingService.GetBookingById` | src/main/java/ru/practicum/shareit/booking/impl/BookingServiceImpl.java:109-127 | Succeeds exactly when the user exists, the booking exists and the user is its booker or the item owner. It then returns the stored booking with that id. Every failure is NotFound, and a missing user is reported first. |
| `BookingService.ParseState` | src/main/java/ru/practicum/shareit/booking/impl/BookingServiceImpl.java:133-143 | A blank token gives ALL. A non-blank token parses only to the state with exactly that name. Every failure is Validation "Unknown state: UNSUPPORTED_STATUS". |
| `BookingService.ParseStateName` | src/main/java/ru/practicum/shareit/booking/impl/BookingServiceImpl.java:138 | Every state's exact name parses back to that state. |
| `BookingService.SelectOrderByStartDesc` | src/main/java/ru/practicum/shareit/booking/impl/BookingServiceImpl.java:147-177 | A repository query returns only stored bookings that pass the filter. It returns every booking that passes. It orders them by start descending. |
| `BookingService.GetAllBookingByUser` | src/main/java/ru/practicum/shareit/booking/impl/BookingServiceImpl.java:131-183 | A bad token fails before the user lookup. A missing user then gets NotFound. Otherwise the result is every booking with this booker that passes the state's filter, and nothing else, ordered by start descending. No booking appears more often than it is stored. |
| `BookingService.GetAllBookingByOwner` | src/main/java/ru/practicum/shareit/booking/impl/BookingServiceImpl.java:188-240 | Same as the booker listing, over bookings of items the user owns. CURRENT is `start < now < end`, PAST `end < now`, FUTURE `start > now`, and WAITING/REJECTED select the bookings with that status. No booking appears more often than it is stored. |
| `ItemService.CreateItemStep` | src/main/java/ru/practicum/shareit/item/impl/ItemServiceImpl.java:26-36 | An unknown user gets NotFound and nothing is stored. Otherwise exactly one item is appended under the next id, with owner set to the caller whatever the input's owner was, and the other fields as given. |
| `ItemService.CreateItemKeepsConsistent` | src/main/java/ru/practicum/shareit/item/impl/ItemServiceImpl.java:30-31 | Creating an item preserves the store invariant. |
| `ItemService.CreatedItemIsVisible` | src/main/java/ru/practicum/shareit/item/impl/ItemServiceImpl.java:30-31 | A created item is returned by lookup by its id, and it is in its owner's item list. |
| `ItemService.CreateItem` | src/main/java/ru/practicum/shareit/item/impl/ItemServiceImpl.java:26-36 | Updates the store in place, with the answer and tables `CreateItemStep` gives, and keeps the store valid. |
| `ItemService.PatchFieldRules` | src/main/java/ru/practicum/shareit/item/impl/ItemServiceImpl.java:45-53 | A non-null name, description or availability overwrites the stored value, and a null one keeps it. Id, owner and request are never touched. |
| `ItemService.PatchIdempotent` | src/main/java/ru/practicum/shareit/item/impl/ItemServiceImpl.java:45-53 | An all-null patch is the identity. Applying a patch twice is the same as applying it once. |
| `ItemService.UpdateItemStep` | src/main/java/ru/practicum/shareit/item/impl/ItemServiceImpl.java:39-64 | An unknown user gets NotFound and nothing changes. Success happens exactly when the user and the item exist, whoever owns the item. On success only that item's row changes, to the patched item. |
| `ItemService.UpdateItemKeepsConsistent` | src/main/java/ru/practicum/shareit/item/impl/ItemServiceImpl.java:44-55 | Updating an item preserves the store invariant. |
| `ItemService.EmptyUpdateChangesNothing` | src/main/java/ru/practicum/shareit/item/impl/ItemServiceImpl.java:45-55 | An update with an all-null patch leaves the store unchanged and returns the stored item. |
| `ItemService.UpdateItem` | src/main/java/ru/practicum/shareit/item/impl/ItemServiceImpl.java:39-64 | Overwrites the stored fields one at a time, ending at what `UpdateItemStep` gives, and keeps the store valid. |
| `ItemService.GetAllItemsUser` | src/main/java/ru/practicum/shareit/item/impl/ItemServiceImpl.java:68-79 | Fails with NotFound exactly for an unknown user. Otherwise it returns exactly that owner's items, in strictly ascending id order in a consistent store. |
| `ItemService.GetItemsById` | src/main/java/ru/practicum/shareit/item/impl/ItemServiceImpl.java:82-91 | Returns the stored item with that id, whoever asks. Otherwise it fails with NotFound. |
| `ItemService.SearchAvailableItems` | src/main/java/ru/practicum/shareit/item/impl/ItemServiceImpl.java:95-103 | Blank text gives the empty list. Every result is a stored available item matching the text. For non-blank text, every such item is returned, the result is exactly the repository search, and no item appears more often than it is stored. |
| `ItemService.EmptySearchIsGuarded` | src/main/java/ru/practicum/shareit/item/impl/ItemServiceImpl.java:96-98 | The empty text gives the empty list, although the repository query alone would return every available item. |
| `ItemRepository.SearchAvailableItems` | server/src/main/java/ru/practicum/shareit/item/ItemRepository.java:15-19 | Every result is available and contains the upper-cased text in its upper-cased name or description. Every available matching item is returned. |
| `ItemRepository.SearchIgnoresCase` | server/src/main/java/ru/practicum/shareit/item/ItemRepository.java:16-17 | `search(t) == search(upper(t))`. |
| `ItemRepository.EmptyTextMatchesEveryAvailableItem` | server/src/main/java/ru/practicum/shareit/item/ItemRepository.java:16-18 | The empty text (pattern `%%`, which matches any string) matches every available item. |
| `ItemRepository.FindItemsByOwnerIdOrderByItemIdAsc` | server/src/main/java/ru/practicum/shareit/item/ItemRepository.java:13 | Returns exactly the items of that owner, ordered by ascending id. |
| `ItemRepository.OwnerItemsStrictlyAscending` | server/src/main/java/ru/practicum/shareit/item/ItemRepository.java:13 | Over a table with unique ascending ids, the result ids are strictly ascending. |

## Left out

- `BookingService.GetAllBookingByUser`: the booker's CURRENT query (`findAllBookingsForBookerWithStartAndEnd`) is declared in a repository that is not part of this model. Its window is the caller-supplied predicate `bookerCurrent`, so the contract says only that results satisfy that predicate, and assumes the order by start descending that the other listings have.
- `BookingService.GetAllBookingByUser` and `BookingService.GetAllBookingByOwner`: the WAITING and REJECTED queries are passed a `State` value, while the booking's field is a `Status`. Their repository declarations are not part of this model. The model assumes that these queries select by the shared name, so WAITING selects status WAITING and REJECTED selects status REJECTED.
- `BookingService.GetAllBookingByUser` and `BookingService.GetAllBookingByOwner`: each CURRENT query reads `LocalDateTime.now()` twice, once for the start bound and once for the end bound. The model uses a single `now` for both. The two readings differ by at most the few instructions between them.
- `BookingService.SelectOrderByStartDesc`: bookings with equal start come out in an order the database does not specify. The model fixes one order, and the contracts do not rely on it.
- `ItemRepository.SearchAvailableItems`: the query has no ORDER BY. The model returns table order, and the contracts do not rely on it.
- `Text.Upper` models SQL `upper()` for ASCII and basic Cyrillic letters only. Other Unicode case mappings are not modelled. `%` and `_` in the search text are taken literally, not as LIKE wildcards.
- `ItemService.UpdateItemStep`: a missing item fails in the persistence layer when the lazy reference from `getReferenceById` is used. That is not the service's NotFoundException, so the model returns the generic `EntityMissing` and claims no message.
- `ItemService.GetAllItemsUser`: the service calls `findItemsByOwner`, which is declared in a repository version that is not part of this model. The model uses the shown query `findItemsByOwnerIdOrderByItemIdAsc`.
- `ItemService.CreateItemStep`: the incoming item is always saved as a new row. If the item carried an existing id, the ORM would merge it into that row instead.
- Null fields: item name, description and availability on create, and a null state token, are not modelled. The source would store a null or throw a NullPointerException where the model cannot.
- Java's 64-bit `long` ids are unbounded integers. No id comes near the limit.
- HTTP controllers, the gateway, DTOs and mappers, JPA annotations, and logging are web and persistence plumbing, not part of the core.
- `getItemWithBooker`, `addComment`, item requests and their pagination checks, and user management are not part of this model. Their services are not among the modelled files.
- Concurrency and transaction isolation (for example, two concurrent decisions on one booking) belong to the database and are not modelled.
- The `CANCELED` status is part of `Status`, but no modelled operation sets it.
- The item's `comments` and `bookings` collections are inverse ORM relations. They are not fields of the model's `Item`. Bookings are found through their `itemId` instead.

## Findings

| source | as written | input that shows it | evidently intended | confidence | as-written member | corrected member |
|---|---|---|---|---|---|---|
| src/main/java/ru/practicum/shareit/booking/impl/BookingServiceImpl.java:88-90 | The reject branch sets REJECTED on the fetched booking and returns it without saving, while the approve branch saves. | User 1 owns item 1, and booking 1 of it by user 2 is WAITING. User 1 rejects booking 1 twice: both calls succeed, and the stored status stays WAITING. | Save the rejection as the approval is saved, so the stored status is REJECTED and a second rejection is refused. | medium, not executed (a transaction around the call would flush the change) | `BookingService.RejectNotPersisted`, `BookingService.RejectTwiceScenario` | `BookingService.SetApprovedStepPersisting`, proved by `BookingService.RepeatedDecisionRefused` |

The method `BookingService.SetApprovedByOwner` follows the source as written.
The corrected behaviour is the step function `SetApprovedStepPersisting`.
