/**
 * The item catalog service: creation with owner stamping, the field-by-field
 * partial update, the owner's item list, lookup by id and the text search.
 */
module ItemService {
  import opened Domain
  import opened Text
  import opened Sequences
  import opened Database
  import ItemRepository

  /**
   * The fields an update request can carry. `None` stands for a null field,
   * which keeps the stored value.
   */
  datatype ItemPatch = ItemPatch(name: Option<string>, description: Option<string>, available: Option<bool>)

  /** Overwrites every field the patch carries and keeps the others. */
  function ApplyPatch(it: Item, p: ItemPatch): Item {
    it.(name := if p.name.Some? then p.name.value else it.name,
        description := if p.description.Some? then p.description.value else it.description,
        available := if p.available.Some? then p.available.value else it.available)
  }

  /** A patch writes what it carries, keeps what it does not, and never touches id, owner or request. */
  lemma PatchFieldRules(it: Item, p: ItemPatch)
    ensures var r := ApplyPatch(it, p);
      && r.id == it.id && r.owner == it.owner && r.request == it.request
      && (p.name.Some? ==> r.name == p.name.value) && (p.name.None? ==> r.name == it.name)
      && (p.description.Some? ==> r.description == p.description.value)
      && (p.description.None? ==> r.description == it.description)
      && (p.available.Some? ==> r.available == p.available.value)
      && (p.available.None? ==> r.available == it.available)
  {
  }

  /** An all-null patch changes nothing, and applying a patch twice is applying it once. */
  lemma PatchIdempotent(it: Item, p: ItemPatch)
    ensures ApplyPatch(it, ItemPatch(None, None, None)) == it
    ensures ApplyPatch(ApplyPatch(it, p), p) == ApplyPatch(it, p)
  {
  }

  /** createItem: an unknown user gets NotFound; otherwise the item is saved under a fresh id with the caller as owner. */
  function CreateItemStep(db: Db, userId: int, item: Item): (s: Step<Item>)
    ensures s.result.Ok? <==> userId in db.users
    ensures s.result.Err? ==> s == Step(Err(NotFoundError(UserNotFound)), db)
    ensures s.result.Ok? ==>
      var saved := s.result.value;
      && saved.owner == userId
      && saved.name == item.name && saved.description == item.description
      && saved.available == item.available && saved.request == item.request
      && saved.id == |db.items| + 1
      && s.db == db.(items := db.items + [saved])
  {
    if userId !in db.users then Step(Err(NotFoundError(UserNotFound)), db)
    else
      var saved := item.(id := |db.items| + 1, owner := userId);
      Step(Ok(saved), db.(items := db.items + [saved]))
  }

  lemma CreateItemKeepsConsistent(db: Db, userId: int, item: Item)
    requires Consistent(db)
    ensures Consistent(CreateItemStep(db, userId, item).db)
  {
    var s := CreateItemStep(db, userId, item);
    if s.result.Ok? {
      forall k | 0 <= k < |s.db.bookings| ensures BookingRowValid(s.db, k) {
        assert BookingRowValid(db, k);
      }
    }
  }

  /** A created item can be fetched by id and is listed among its owner's items. */
  lemma CreatedItemIsVisible(db: Db, userId: int, item: Item, anyone: int)
    requires Consistent(db)
    requires CreateItemStep(db, userId, item).result.Ok?
    ensures var s := CreateItemStep(db, userId, item);
      && GetItemsById(s.db, anyone, s.result.value.id) == Ok(s.result.value)
      && GetAllItemsUser(s.db, userId).Ok?
      && s.result.value in GetAllItemsUser(s.db, userId).value
  {
    var s := CreateItemStep(db, userId, item);
    CreateItemKeepsConsistent(db, userId, item);
    assert s.db.items[|db.items|] == s.result.value;
  }

  /**
   * updateItem: the only check is that the acting user exists, never that it
   * owns the item. A missing item fails in the persistence layer. On success
   * the stored item is replaced by the patched one and nothing else changes.
   */
  function UpdateItemStep(db: Db, userId: int, itemId: int, patch: ItemPatch): (s: Step<Item>)
    ensures userId !in db.users ==> s == Step(Err(NotFoundError(UserNotFound)), db)
    ensures s.result.Err? ==> s.db == db
    ensures s.result.Ok? <==> userId in db.users && FindItem(db.items, itemId).Some?
    ensures s.result.Ok? ==>
      && s.result.value == ApplyPatch(db.items[itemId - 1], patch)
      && s.db == db.(items := db.items[itemId - 1 := s.result.value])
  {
    if userId !in db.users then Step(Err(NotFoundError(UserNotFound)), db)
    else
      match FindItem(db.items, itemId)
      case None => Step(Err(EntityMissing), db)
      case Some(saved) =>
        var updated := ApplyPatch(saved, patch);
        Step(Ok(updated), db.(items := db.items[itemId - 1 := updated]))
  }

  lemma UpdateItemKeepsConsistent(db: Db, userId: int, itemId: int, patch: ItemPatch)
    requires Consistent(db)
    ensures Consistent(UpdateItemStep(db, userId, itemId, patch).db)
  {
    var s := UpdateItemStep(db, userId, itemId, patch);
    if s.result.Ok? {
      forall k | 0 <= k < |s.db.bookings| ensures BookingRowValid(s.db, k) {
        assert BookingRowValid(db, k);
      }
    }
  }

  /** Updating with an all-null patch leaves the store as it was and returns the stored item. */
  lemma EmptyUpdateChangesNothing(db: Db, userId: int, itemId: int)
    ensures var s := UpdateItemStep(db, userId, itemId, ItemPatch(None, None, None));
      && s.db == db
      && (s.result.Ok? ==> s.result.value == db.items[itemId - 1])
  {
    var s := UpdateItemStep(db, userId, itemId, ItemPatch(None, None, None));
    if s.result.Ok? {
      PatchIdempotent(db.items[itemId - 1], ItemPatch(None, None, None));
      assert db.items[itemId - 1 := db.items[itemId - 1]] == db.items;
    }
  }

  /** getAllItemsUser: NotFound for an unknown user, otherwise all of that user's items by ascending id. */
  function GetAllItemsUser(db: Db, userId: int): (r: Result<seq<Item>>)
    ensures r.Err? <==> userId !in db.users
    ensures r.Err? ==> r.error == NotFoundError(OwnerNotFound)
    ensures r.Ok? ==> forall i :: 0 <= i < |r.value| ==> r.value[i] in db.items && r.value[i].owner == userId
    ensures r.Ok? ==> forall k :: 0 <= k < |db.items| && db.items[k].owner == userId ==> db.items[k] in r.value
    ensures r.Ok? && Consistent(db) ==> StrictlySortedBy(r.value, ItemId)
  {
    if userId in db.users then
      ConsistentAscending(db, userId);
      Ok(ItemRepository.FindItemsByOwnerIdOrderByItemIdAsc(db.items, userId))
    else Err(NotFoundError(OwnerNotFound))
  }

  lemma ConsistentAscending(db: Db, userId: int)
    ensures Consistent(db) ==>
      StrictlySortedBy(ItemRepository.FindItemsByOwnerIdOrderByItemIdAsc(db.items, userId), ItemId)
  {
    if Consistent(db) {
      ConsistentItemsAscending(db);
      ItemRepository.OwnerItemsStrictlyAscending(db.items, userId);
    }
  }

  /** getItemsById: the stored item with that id, whoever asks, or NotFound. */
  function GetItemsById(db: Db, userId: int, itemId: int): (r: Result<Item>)
    ensures r.Ok? ==> r.value in db.items && (Consistent(db) ==> r.value.id == itemId)
    ensures Consistent(db) ==> (r.Ok? <==> exists k :: 0 <= k < |db.items| && db.items[k].id == itemId)
    ensures r.Err? ==> r.error == NotFoundError(ItemNotFound)
  {
    match FindItem(db.items, itemId)
    case Some(it) => Ok(it)
    case None => Err(NotFoundError(ItemNotFound))
  }

  /**
   * searchAvailableItems: nothing for a blank text, otherwise the repository
   * search, that is, the available items whose name or description contains
   * the text regardless of case.
   */
  function SearchAvailableItems(items: seq<Item>, text: string): (r: seq<Item>)
    ensures IsBlank(text) ==> r == []
    ensures forall i :: 0 <= i < |r| ==>
      r[i] in items && r[i].available && ItemRepository.MatchesText(r[i], text)
    ensures !IsBlank(text) ==> forall k ::
      (0 <= k < |items| && items[k].available && ItemRepository.MatchesText(items[k], text)) ==> items[k] in r
    ensures multiset(r) <= multiset(items)
    ensures !IsBlank(text) ==> r == ItemRepository.SearchAvailableItems(items, text)
  {
    if IsBlank(text) then [] else ItemRepository.SearchAvailableItems(items, text)
  }

  /**
   * The blank-text guard is what keeps the empty search empty: the repository
   * alone would match every available item.
   */
  lemma EmptySearchIsGuarded(items: seq<Item>)
    ensures SearchAvailableItems(items, "") == []
    ensures forall k :: 0 <= k < |items| && items[k].available ==>
      items[k] in ItemRepository.SearchAvailableItems(items, "")
  {
    ItemRepository.EmptyTextMatchesEveryAvailableItem(items);
  }

  method CreateItem(store: Store, userId: int, item: Item) returns (r: Result<Item>)
    requires store.Valid()
    modifies store
    ensures Step(r, store.Snapshot()) == CreateItemStep(old(store.Snapshot()), userId, item)
    ensures store.Valid()
  {
    CreateItemKeepsConsistent(store.Snapshot(), userId, item);
    if userId !in store.users {
      return Err(NotFoundError(UserNotFound));
    }
    var stamped := item.(owner := userId);
    var saved := stamped.(id := |store.items| + 1);
    store.items := store.items + [saved];
    r := Ok(saved);
  }

  method UpdateItem(store: Store, userId: int, itemId: int, patch: ItemPatch) returns (r: Result<Item>)
    requires store.Valid()
    modifies store
    ensures Step(r, store.Snapshot()) == UpdateItemStep(old(store.Snapshot()), userId, itemId, patch)
    ensures store.Valid()
  {
    UpdateItemKeepsConsistent(store.Snapshot(), userId, itemId, patch);
    if userId !in store.users {
      return Err(NotFoundError(UserNotFound));
    }
    if !(1 <= itemId <= |store.items|) {
      return Err(EntityMissing);
    }
    var saved := store.items[itemId - 1];
    if patch.name.Some? {
      saved := saved.(name := patch.name.value);
    }
    if patch.description.Some? {
      saved := saved.(description := patch.description.value);
    }
    if patch.available.Some? {
      saved := saved.(available := patch.available.value);
    }
    store.items := store.items[itemId - 1 := saved];
    r := Ok(saved);
  }
}
