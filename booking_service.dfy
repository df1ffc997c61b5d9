/**
 * The booking lifecycle: creation of a booking in WAITING, the item owner's
 * approval or rejection, lookup by a participant, and the booker's and the
 * owner's listings filtered by a state token and ordered by start descending.
 * `now` is a parameter where the service reads the wall clock.
 */
module BookingService {
  import opened Domain
  import opened Text
  import opened Sequences
  import opened Database

  // ---------------------------------------------------------------------------
  // createBooking

  /**
   * createBooking's checks, in the source's order: the period, the booker, the
   * item, self-booking, availability. Every failure leaves the store as it
   * was; success appends one WAITING booking under the next id.
   */
  function CreateBookingStep(db: Db, bookerId: int, itemId: int, start: int, end: int): (s: Step<Booking>)
    ensures start >= end ==> s == Step(Err(ValidationError(InvalidPeriod)), db)
    ensures start < end && bookerId !in db.users ==> s == Step(Err(NotFoundError(UserNotFound)), db)
    ensures s.result.Err? ==> s.db == db
    ensures s.result.Ok? <==>
      && start < end
      && bookerId in db.users
      && FindItem(db.items, itemId).Some?
      && FindItem(db.items, itemId).value.owner != bookerId
      && FindItem(db.items, itemId).value.available
    ensures s.result.Ok? ==>
      && s.result.value == Booking(|db.bookings| + 1, itemId, bookerId, start, end, Status.Waiting)
      && s.db == db.(bookings := db.bookings + [s.result.value])
  {
    if start >= end then Step(Err(ValidationError(InvalidPeriod)), db)
    else if bookerId !in db.users then Step(Err(NotFoundError(UserNotFound)), db)
    else
      match FindItem(db.items, itemId)
      case None => Step(Err(NotFoundError(UserNotFound)), db)
      case Some(item) =>
        if bookerId == item.owner then Step(Err(ConflictError(SelfBooking)), db)
        else if !item.available then Step(Err(ValidationError(ItemUnavailable)), db)
        else
          var b := Booking(|db.bookings| + 1, itemId, bookerId, start, end, Status.Waiting);
          Step(Ok(b), db.(bookings := db.bookings + [b]))
  }

  /** The failure kinds of createBooking once the period is valid. */
  lemma CreateBookingFailures(db: Db, bookerId: int, itemId: int, start: int, end: int)
    requires start < end
    ensures var s := CreateBookingStep(db, bookerId, itemId, start, end);
      && (bookerId in db.users && FindItem(db.items, itemId).None? ==>
            s == Step(Err(NotFoundError(UserNotFound)), db))
      && (bookerId in db.users && FindItem(db.items, itemId).Some? && FindItem(db.items, itemId).value.owner == bookerId ==>
            s == Step(Err(ConflictError(SelfBooking)), db))
      && (bookerId in db.users && FindItem(db.items, itemId).Some? && FindItem(db.items, itemId).value.owner != bookerId
          && !FindItem(db.items, itemId).value.available ==>
            s == Step(Err(ValidationError(ItemUnavailable)), db))
  {
  }

  lemma CreateBookingKeepsConsistent(db: Db, bookerId: int, itemId: int, start: int, end: int)
    requires Consistent(db)
    ensures Consistent(CreateBookingStep(db, bookerId, itemId, start, end).db)
  {
    var s := CreateBookingStep(db, bookerId, itemId, start, end);
    if s.result.Ok? {
      forall k | 0 <= k < |s.db.bookings| ensures BookingRowValid(s.db, k) {
        if k < |db.bookings| {
          assert BookingRowValid(db, k);
        }
      }
    }
  }

  /**
   * A created booking is returned as stored to its booker and to the item's
   * owner, and every other existing user gets NotFound.
   */
  lemma CreatedBookingVisibleToParticipants(db: Db, bookerId: int, itemId: int, start: int, end: int, other: int)
    requires Consistent(db)
    requires CreateBookingStep(db, bookerId, itemId, start, end).result.Ok?
    ensures var s := CreateBookingStep(db, bookerId, itemId, start, end);
      var b := s.result.value;
      && GetBookingById(s.db, bookerId, b.id) == Ok(b)
      && GetBookingById(s.db, db.items[itemId - 1].owner, b.id) == Ok(b)
      && (other != bookerId && other != db.items[itemId - 1].owner ==>
            GetBookingById(s.db, other, b.id).Err?)
  {
    var s := CreateBookingStep(db, bookerId, itemId, start, end);
    assert s.db.bookings[|db.bookings|] == s.result.value;
  }

  method CreateBooking(store: Store, bookerId: int, itemId: int, start: int, end: int) returns (r: Result<Booking>)
    requires store.Valid()
    modifies store
    ensures Step(r, store.Snapshot()) == CreateBookingStep(old(store.Snapshot()), bookerId, itemId, start, end)
    ensures store.Valid()
  {
    CreateBookingKeepsConsistent(store.Snapshot(), bookerId, itemId, start, end);
    if start >= end {
      return Err(ValidationError(InvalidPeriod));
    }
    var user := if bookerId in store.users then Some(store.users[bookerId]) else None;
    var item := FindItem(store.items, itemId);
    if user.None? {
      return Err(NotFoundError(UserNotFound));
    }
    if item.None? {
      return Err(NotFoundError(UserNotFound));
    }
    if bookerId == item.value.owner {
      return Err(ConflictError(SelfBooking));
    }
    if !item.value.available {
      return Err(ValidationError(ItemUnavailable));
    }
    // The booking takes the stored booker and item and the status WAITING.
    var booking := Booking(|store.bookings| + 1, item.value.id, user.value.id, start, end, Status.Waiting);
    store.bookings := store.bookings + [booking];
    r := Ok(booking);
  }

  // ---------------------------------------------------------------------------
  // setApprovedByOwner

  /**
   * The owner's decision on one booking: only a repeat of the same decision is
   * refused; any other status, including the opposite decision, is
   * overwritten.
   */
  function Decide(b: Booking, approved: bool): (r: Result<Booking>)
    ensures approved ==> (r.Err? <==> b.status == Status.Approved)
    ensures !approved ==> (r.Err? <==> b.status == Status.Rejected)
    ensures r.Err? ==> r.error.ValidationError?
    ensures r.Ok? ==> r.value == b.(status := if approved then Status.Approved else Status.Rejected)
  {
    if approved then
      if b.status == Status.Approved then Err(ValidationError(AlreadyApproved))
      else Ok(b.(status := Status.Approved))
    else
      if b.status == Status.Rejected then Err(ValidationError(AlreadyRejected))
      else Ok(b.(status := Status.Rejected))
  }

  /** The guards of setApprovedByOwner: an existing acting user who owns the booked item. */
  function ApprovalGuard(db: Db, userId: int, bookingId: int): (r: Result<Booking>)
    ensures r.Err? ==> r.error.NotFoundError?
    ensures r.Ok? <==>
      && userId in db.users
      && FindBooking(db.bookings, bookingId).Some?
      && ItemOwner(db.items, FindBooking(db.bookings, bookingId).value.itemId) == Some(userId)
    ensures r.Ok? ==> r.value in db.bookings
    ensures r.Ok? ==> r.value == FindBooking(db.bookings, bookingId).value
  {
    if userId !in db.users then Err(NotFoundError(UserNotFound))
    else
      match FindBooking(db.bookings, bookingId)
      case None => Err(NotFoundError(BookingNotFound))
      case Some(b) =>
        if ItemOwner(db.items, b.itemId) == Some(userId) then Ok(b)
        else Err(NotFoundError(NotItemOwner))
  }

  /**
   * setApprovedByOwner as written: the approval is saved, the rejection is
   * only returned.
   */
  function SetApprovedStep(db: Db, userId: int, bookingId: int, approved: bool): (s: Step<Booking>)
    ensures ApprovalGuard(db, userId, bookingId).Err? ==>
      s == Step(Err(ApprovalGuard(db, userId, bookingId).error), db)
    ensures ApprovalGuard(db, userId, bookingId).Ok? ==>
      s.result == Decide(ApprovalGuard(db, userId, bookingId).value, approved)
    ensures s.db == if s.result.Ok? && approved then db.(bookings := db.bookings[bookingId - 1 := s.result.value]) else db
  {
    match ApprovalGuard(db, userId, bookingId)
    case Err(e) => Step(Err(e), db)
    case Ok(b) =>
      match Decide(b, approved)
      case Err(e) => Step(Err(e), db)
      case Ok(decided) =>
        if approved then Step(Ok(decided), db.(bookings := db.bookings[bookingId - 1 := decided]))
        else Step(Ok(decided), db)
  }

  lemma SetApprovedKeepsConsistent(db: Db, userId: int, bookingId: int, approved: bool)
    requires Consistent(db)
    ensures Consistent(SetApprovedStep(db, userId, bookingId, approved).db)
  {
    var s := SetApprovedStep(db, userId, bookingId, approved);
    if s.db != db {
      forall k | 0 <= k < |s.db.bookings| ensures BookingRowValid(s.db, k) {
        assert BookingRowValid(db, k);
      }
    }
  }

  /** Approving twice: the second call is refused and the booking stays APPROVED. */
  lemma RepeatedApproveRefused(db: Db, userId: int, bookingId: int)
    requires SetApprovedStep(db, userId, bookingId, true).result.Ok?
    ensures var first := SetApprovedStep(db, userId, bookingId, true);
      var second := SetApprovedStep(first.db, userId, bookingId, true);
      && first.db.bookings[bookingId - 1].status == Status.Approved
      && second == Step(Err(ValidationError(AlreadyApproved)), first.db)
  {
    var first := SetApprovedStep(db, userId, bookingId, true);
    assert ApprovalGuard(first.db, userId, bookingId) == Ok(first.db.bookings[bookingId - 1]);
  }

  /**
   * As written, a rejection leaves the store untouched, so rejecting the same
   * booking a second time is accepted again.
   */
  lemma RejectNotPersisted(db: Db, userId: int, bookingId: int)
    requires SetApprovedStep(db, userId, bookingId, false).result.Ok?
    ensures var first := SetApprovedStep(db, userId, bookingId, false);
      var second := SetApprovedStep(first.db, userId, bookingId, false);
      && first.db == db
      && first.result.value.status == Status.Rejected
      && db.bookings[bookingId - 1].status != Status.Rejected
      && second.result.Ok?
  {
  }

  /**
   * A store with user 1 owning item 1 and one WAITING booking of it by user 2,
   * as createBooking leaves it.
   */
  function SampleStore(): Db {
    Db(map[1 := User(1, "owner", "owner@example.com"), 2 := User(2, "booker", "booker@example.com")],
       [Item(1, "Drill", "Cordless drill", 1, true, None)],
       [Booking(1, 1, 2, 10, 12, Status.Waiting)])
  }

  /** User 2 books user 1's item, user 1 approves, and a second approval is refused. */
  lemma ApprovalScenario()
    ensures var empty := SampleStore().(bookings := []);
      var created := CreateBookingStep(empty, 2, 1, 10, 12);
      var approved := SetApprovedStep(created.db, 1, 1, true);
      var again := SetApprovedStep(approved.db, 1, 1, true);
      && created == Step(Ok(Booking(1, 1, 2, 10, 12, Status.Waiting)), SampleStore())
      && approved.result == Ok(Booking(1, 1, 2, 10, 12, Status.Approved))
      && again == Step(Err(ValidationError(AlreadyApproved)), approved.db)
      && again.db.bookings[0].status == Status.Approved
  {
    var empty := SampleStore().(bookings := []);
    var created := CreateBookingStep(empty, 2, 1, 10, 12);
    assert created.db == SampleStore();
    RepeatedApproveRefused(created.db, 1, 1);
  }

  /** The owner of the sample store rejects its booking twice and both calls succeed. */
  lemma RejectTwiceScenario()
    ensures var first := SetApprovedStep(SampleStore(), 1, 1, false);
      var second := SetApprovedStep(first.db, 1, 1, false);
      && first == Step(Ok(Booking(1, 1, 2, 10, 12, Status.Rejected)), SampleStore())
      && second == first
  {
  }

  /** setApprovedByOwner with both decisions saved. */
  function SetApprovedStepPersisting(db: Db, userId: int, bookingId: int, approved: bool): (s: Step<Booking>)
    ensures s.result == SetApprovedStep(db, userId, bookingId, approved).result
    ensures s.db == if s.result.Ok? then db.(bookings := db.bookings[bookingId - 1 := s.result.value]) else db
  {
    match ApprovalGuard(db, userId, bookingId)
    case Err(e) => Step(Err(e), db)
    case Ok(b) =>
      match Decide(b, approved)
      case Err(e) => Step(Err(e), db)
      case Ok(decided) => Step(Ok(decided), db.(bookings := db.bookings[bookingId - 1 := decided]))
  }

  /** With both decisions saved, a repeated decision of either kind is refused. */
  lemma {:induction false} RepeatedDecisionRefused(db: Db, userId: int, bookingId: int, approved: bool)
    requires SetApprovedStepPersisting(db, userId, bookingId, approved).result.Ok?
    ensures var first := SetApprovedStepPersisting(db, userId, bookingId, approved);
      var second := SetApprovedStepPersisting(first.db, userId, bookingId, approved);
      && second.result.Err? && second.result.error.ValidationError?
      && second.db == first.db
  {
    var first := SetApprovedStepPersisting(db, userId, bookingId, approved);
    assert ApprovalGuard(first.db, userId, bookingId) == Ok(first.db.bookings[bookingId - 1]);
  }

  method SetApprovedByOwner(store: Store, userId: int, bookingId: int, approved: bool) returns (r: Result<Booking>)
    requires store.Valid()
    modifies store
    ensures Step(r, store.Snapshot()) == SetApprovedStep(old(store.Snapshot()), userId, bookingId, approved)
    ensures store.Valid()
  {
    SetApprovedKeepsConsistent(store.Snapshot(), userId, bookingId, approved);
    if userId !in store.users {
      return Err(NotFoundError(UserNotFound));
    }
    var found := FindBooking(store.bookings, bookingId);
    if found.None? {
      return Err(NotFoundError(BookingNotFound));
    }
    var booking := found.value;
    if ItemOwner(store.items, booking.itemId) != Some(userId) {
      return Err(NotFoundError(NotItemOwner));
    }
    if approved {
      if booking.status == Status.Approved {
        return Err(ValidationError(AlreadyApproved));
      }
      booking := booking.(status := Status.Approved);
      store.bookings := store.bookings[bookingId - 1 := booking];
      r := Ok(booking);
    } else {
      if booking.status == Status.Rejected {
        return Err(ValidationError(AlreadyRejected));
      }
      booking := booking.(status := Status.Rejected);
      r := Ok(booking);
    }
  }

  // ---------------------------------------------------------------------------
  // getBookingById

  /** The booker or the owner of the booked item. */
  predicate IsParticipant(items: seq<Item>, b: Booking, userId: int) {
    b.bookerId == userId || ItemOwner(items, b.itemId) == Some(userId)
  }

  /** getBookingById: the stored booking for an existing participant, NotFound for everyone else. */
  function GetBookingById(db: Db, userId: int, bookingId: int): (r: Result<Booking>)
    ensures r.Ok? <==>
      && userId in db.users
      && FindBooking(db.bookings, bookingId).Some?
      && IsParticipant(db.items, FindBooking(db.bookings, bookingId).value, userId)
    ensures r.Ok? ==> r.value in db.bookings && (Consistent(db) ==> r.value.id == bookingId)
    ensures r.Err? ==> r.error.NotFoundError?
    ensures userId !in db.users ==> r == Err(NotFoundError(UserNotFound))
  {
    if userId !in db.users then Err(NotFoundError(UserNotFound))
    else
      match FindBooking(db.bookings, bookingId)
      case None => Err(NotFoundError(BookingNotFound))
      case Some(b) =>
        assert Consistent(db) ==> BookingRowValid(db, bookingId - 1);
        if IsParticipant(db.items, b, userId) then Ok(b)
        else Err(NotFoundError(NotParticipant))
  }

  // ---------------------------------------------------------------------------
  // Listings

  /** The enum constant names, which State.valueOf matches exactly and case-sensitively. */
  function StateName(st: State): string {
    match st
    case All => "ALL"
    case Current => "CURRENT"
    case Past => "PAST"
    case Future => "FUTURE"
    case Waiting => "WAITING"
    case Rejected => "REJECTED"
  }

  /** The state token: blank means ALL, an enum name means that state, anything else is refused. */
  function ParseState(token: string): (r: Result<State>)
    ensures IsBlank(token) ==> r == Ok(State.All)
    ensures r.Ok? && !IsBlank(token) ==> StateName(r.value) == token
    ensures r.Err? ==> r == Err(ValidationError(UnknownState))
  {
    if IsBlank(token) then Ok(State.All)
    else if token == "ALL" then Ok(State.All)
    else if token == "CURRENT" then Ok(State.Current)
    else if token == "PAST" then Ok(State.Past)
    else if token == "FUTURE" then Ok(State.Future)
    else if token == "WAITING" then Ok(State.Waiting)
    else if token == "REJECTED" then Ok(State.Rejected)
    else Err(ValidationError(UnknownState))
  }

  /** Every state's name parses back to that state. */
  lemma ParseStateName(st: State)
    ensures ParseState(StateName(st)) == Ok(st)
  {
    assert !IsWhitespace(StateName(st)[0]);
  }

  /** The owner listing's CURRENT window: start before now and end after now. */
  predicate OwnerCurrentWindow(start: int, end: int, now: int) {
    start < now && now < end
  }

  /**
   * The time or status filter a state stands for at `now`; `current` is the
   * CURRENT window. WAITING and REJECTED are taken to select the bookings
   * whose status has the state's name.
   */
  predicate Satisfies(b: Booking, st: State, now: int, current: (int, int, int) -> bool) {
    match st
    case All => true
    case Current => current(b.start, b.end, now)
    case Past => b.end < now
    case Future => b.start > now
    case Waiting => b.status == Status.Waiting
    case Rejected => b.status == Status.Rejected
  }

  predicate StartDescending(s: seq<Booking>) {
    forall i, j :: 0 <= i < j < |s| ==> s[i].start >= s[j].start
  }

  /** A repository query: the bookings `keep` selects, ordered by start descending. */
  function SelectOrderByStartDesc(bookings: seq<Booking>, keep: Booking -> bool): (r: seq<Booking>)
    ensures forall i :: 0 <= i < |r| ==> r[i] in bookings && keep(r[i])
    ensures forall k :: 0 <= k < |bookings| && keep(bookings[k]) ==> bookings[k] in r
    ensures StartDescending(r)
    ensures multiset(r) <= multiset(bookings)
  {
    var selected := Filter(bookings, keep);
    var r := Sort(selected, StartDescKey);
    SameMembers(r, selected);
    assert forall i, j :: 0 <= i < j < |r| ==> StartDescKey(r[i]) <= StartDescKey(r[j]);
    r
  }

  /**
   * getAllBookingByUser: the token is parsed before the user is looked up;
   * the result is every booking of the user as booker that passes the
   * state's filter, by start descending. The booker's CURRENT window is the
   * parameter `bookerCurrent`.
   */
  function GetAllBookingByUser(db: Db, userId: int, token: string, now: int,
                               bookerCurrent: (int, int, int) -> bool): (r: Result<seq<Booking>>)
    ensures ParseState(token).Err? ==> r == Err(ValidationError(UnknownState))
    ensures ParseState(token).Ok? && userId !in db.users ==> r == Err(NotFoundError(UserNotFound))
    ensures r.Ok? <==> ParseState(token).Ok? && userId in db.users
    ensures r.Ok? ==> forall i :: 0 <= i < |r.value| ==>
      && r.value[i] in db.bookings
      && r.value[i].bookerId == userId
      && Satisfies(r.value[i], ParseState(token).value, now, bookerCurrent)
    ensures r.Ok? ==> forall k ::
      (0 <= k < |db.bookings| && db.bookings[k].bookerId == userId
       && Satisfies(db.bookings[k], ParseState(token).value, now, bookerCurrent)) ==> db.bookings[k] in r.value
    ensures r.Ok? ==> StartDescending(r.value)
    ensures r.Ok? ==> multiset(r.value) <= multiset(db.bookings)
  {
    match ParseState(token)
    case Err(e) => Err(e)
    case Ok(st) =>
      if userId !in db.users then Err(NotFoundError(UserNotFound))
      else Ok(SelectOrderByStartDesc(db.bookings,
                (b: Booking) => b.bookerId == userId && Satisfies(b, st, now, bookerCurrent)))
  }

  /**
   * getAllBookingByOwner: as the booker listing, over the bookings of the
   * items the user owns, with CURRENT meaning start < now < end.
   */
  function GetAllBookingByOwner(db: Db, userId: int, token: string, now: int): (r: Result<seq<Booking>>)
    ensures ParseState(token).Err? ==> r == Err(ValidationError(UnknownState))
    ensures ParseState(token).Ok? && userId !in db.users ==> r == Err(NotFoundError(UserNotFound))
    ensures r.Ok? <==> ParseState(token).Ok? && userId in db.users
    ensures r.Ok? ==> forall i :: 0 <= i < |r.value| ==>
      && r.value[i] in db.bookings
      && ItemOwner(db.items, r.value[i].itemId) == Some(userId)
      && Satisfies(r.value[i], ParseState(token).value, now, OwnerCurrentWindow)
    ensures r.Ok? ==> forall k ::
      (0 <= k < |db.bookings| && ItemOwner(db.items, db.bookings[k].itemId) == Some(userId)
       && Satisfies(db.bookings[k], ParseState(token).value, now, OwnerCurrentWindow)) ==> db.bookings[k] in r.value
    ensures r.Ok? ==> StartDescending(r.value)
    ensures r.Ok? ==> multiset(r.value) <= multiset(db.bookings)
  {
    match ParseState(token)
    case Err(e) => Err(e)
    case Ok(st) =>
      if userId !in db.users then Err(NotFoundError(UserNotFound))
      else Ok(SelectOrderByStartDesc(db.bookings,
                (b: Booking) => ItemOwner(db.items, b.itemId) == Some(userId) && Satisfies(b, st, now, OwnerCurrentWindow)))
  }
}
