/**
 * The relational store behind the services: the user, item and booking
 * tables. Ids are generated by the store (IDENTITY columns), so row `k` of
 * the item and booking tables holds id `k + 1`.
 */
module Database {
  import opened Domain
  import opened Sequences

  /** The contents of the three tables at one moment. */
  datatype Db = Db(users: map<int, User>, items: seq<Item>, bookings: seq<Booking>)

  /** What a service call answers, and the tables it leaves behind. */
  datatype Step<T> = Step(result: Result<T>, db: Db)

  /** Repository findById on the item table. */
  function FindItem(items: seq<Item>, id: int): Option<Item> {
    if 1 <= id <= |items| then Some(items[id - 1]) else None
  }

  /** Repository findById on the booking table. */
  function FindBooking(bookings: seq<Booking>, id: int): Option<Booking> {
    if 1 <= id <= |bookings| then Some(bookings[id - 1]) else None
  }

  /** The owner of the item a booking refers to, read through the join. */
  function ItemOwner(items: seq<Item>, itemId: int): Option<int> {
    match FindItem(items, itemId)
    case Some(it) => Some(it.owner)
    case None => None
  }

  /** The `k`-th booking row refers to existing rows and obeys the booking rules. */
  predicate BookingRowValid(db: Db, k: int)
    requires 0 <= k < |db.bookings|
  {
    var b := db.bookings[k];
    && b.id == k + 1
    && 1 <= b.itemId <= |db.items|
    && b.bookerId in db.users
    && b.start < b.end
    && b.bookerId != db.items[b.itemId - 1].owner
  }

  /**
   * Referential integrity and the booking invariants: every row carries the
   * id of its position, items belong to existing users, and every booking
   * has a strictly ordered period and a booker who does not own the item.
   */
  predicate Consistent(db: Db) {
    && (forall u :: u in db.users ==> db.users[u].id == u)
    && (forall k :: 0 <= k < |db.items| ==> db.items[k].id == k + 1 && db.items[k].owner in db.users)
    && (forall k :: 0 <= k < |db.bookings| ==> BookingRowValid(db, k))
  }

  /** In a consistent store the item table is in strictly ascending id order. */
  lemma ConsistentItemsAscending(db: Db)
    requires Consistent(db)
    ensures StrictlySortedBy(db.items, ItemId)
  {
  }

  /** The store as the services see it: three tables updated in place. */
  class Store {
    var users: map<int, User>
    var items: seq<Item>
    var bookings: seq<Booking>

    function Snapshot(): Db
      reads this
    {
      Db(users, items, bookings)
    }

    predicate Valid()
      reads this
    {
      Consistent(Snapshot())
    }

    /** An empty catalog over an existing user directory. */
    constructor (users: map<int, User>)
      requires forall u :: u in users ==> users[u].id == u
      ensures Snapshot() == Db(users, [], [])
      ensures Valid()
    {
      this.users := users;
      items := [];
      bookings := [];
    }
  }
}
