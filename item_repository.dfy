/**
 * The two item queries of the repository, as selections over the item table:
 * the derived query on the owner id ordered by item id, and the text search
 * over available items.
 */
module ItemRepository {
  import opened Domain
  import opened Text
  import opened Sequences

  /**
   * `upper(field) like upper(concat('%', text, '%'))` for the name or the
   * description, with the text taken literally.
   */
  predicate MatchesText(it: Item, text: string) {
    || Contains(Upper(it.name), Upper(text))
    || Contains(Upper(it.description), Upper(text))
  }

  /** The WHERE clause of the search: a matching text and `isAvailable = true`. */
  predicate SearchHit(it: Item, text: string) {
    MatchesText(it, text) && it.available
  }

  /** searchAvailableItems: exactly the available items whose text matches. */
  function SearchAvailableItems(items: seq<Item>, text: string): (r: seq<Item>)
    ensures forall i :: 0 <= i < |r| ==> r[i] in items && r[i].available && MatchesText(r[i], text)
    ensures forall i :: 0 <= i < |items| && items[i].available && MatchesText(items[i], text) ==> items[i] in r
    ensures multiset(r) <= multiset(items)
  {
    Filter(items, (it: Item) => SearchHit(it, text))
  }

  /** The search does not depend on the case of the query text. */
  lemma SearchIgnoresCase(items: seq<Item>, text: string)
    ensures SearchAvailableItems(items, text) == SearchAvailableItems(items, Upper(text))
  {
    UpperIdempotent(text);
    FilterCongruent(items, (it: Item) => SearchHit(it, text), (it: Item) => SearchHit(it, Upper(text)));
  }

  /** The empty text gives the pattern '%%', which matches any string, so every available item matches. */
  lemma EmptyTextMatchesEveryAvailableItem(items: seq<Item>)
    ensures forall i :: 0 <= i < |items| && items[i].available ==> items[i] in SearchAvailableItems(items, "")
  {
    assert Upper("") == "";
    forall i | 0 <= i < |items| && items[i].available
      ensures MatchesText(items[i], "")
    {
      ContainsEmpty(Upper(items[i].name));
    }
  }

  /**
   * findItemsByOwnerIdOrderByItemIdAsc: the items of `ownerId`, all of them,
   * in ascending id order.
   */
  function FindItemsByOwnerIdOrderByItemIdAsc(items: seq<Item>, ownerId: int): (r: seq<Item>)
    ensures forall i :: 0 <= i < |r| ==> r[i] in items && r[i].owner == ownerId
    ensures forall i :: 0 <= i < |items| && items[i].owner == ownerId ==> items[i] in r
    ensures SortedBy(r, ItemId)
  {
    var owned := Filter(items, (it: Item) => it.owner == ownerId);
    var r := Sort(owned, ItemId);
    SameMembers(r, owned);
    r
  }

  /** Over a table in strictly ascending id order the ids of the result are strictly ascending. */
  lemma {:induction false} OwnerItemsStrictlyAscending(items: seq<Item>, ownerId: int)
    requires StrictlySortedBy(items, ItemId)
    ensures StrictlySortedBy(FindItemsByOwnerIdOrderByItemIdAsc(items, ownerId), ItemId)
  {
    var keep := (it: Item) => it.owner == ownerId;
    FilterKeepsStrictOrder(items, keep, ItemId);
    SortOfSorted(Filter(items, keep), ItemId);
  }
}
