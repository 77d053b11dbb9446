/** The booking service: the store of bikes and bookings, and the five
    request handlers of the booking controller as pure transitions. */
module Bookings {
  import opened Wrappers
  import Velos

  type UserId = string
  type BikeId = string
  type BookingId = string

  /** Start and end dates are carried through unchanged and never compared. */
  type Date = string

  datatype Status = Pending | Confirmed | Cancelled

  function StatusName(st: Status): string {
    match st
    case Pending => "pending"
    case Confirmed => "confirmed"
    case Cancelled => "cancelled"
  }

  /** The status check of the update handler: exactly the three listed names. */
  function ParseStatus(s: string): (r: Option<Status>)
    ensures r.Some? <==> s in ["pending", "confirmed", "cancelled"]
    ensures r.Some? ==> StatusName(r.value) == s
  {
    if s == "pending" then Some(Pending)
    else if s == "confirmed" then Some(Confirmed)
    else if s == "cancelled" then Some(Cancelled)
    else None
  }

  lemma StatusRoundTrip(st: Status)
    ensures ParseStatus(StatusName(st)) == Some(st)
  {
  }

  /** A booking: its owner, the bike it references, the requested dates, its
      status and its creation time. */
  datatype Booking = Booking(
    user: UserId,
    bike: BikeId,
    startDate: Date,
    endDate: Date,
    status: Status,
    createdAt: nat)

  /** The two collections the handlers read and write, keyed by document id. */
  datatype Store = Store(bikes: map<BikeId, Velos.Velo>, bookings: map<BookingId, Booking>)

  datatype Error = BikeNotFound | BikeUnavailable | BookingNotFound | NotOwner | InvalidStatus

  /** The HTTP status each error is answered with. */
  function HttpStatus(e: Error): (code: int)
    ensures code == 404 <==> e == BikeNotFound || e == BookingNotFound
    ensures code == 400 <==> e == BikeUnavailable || e == InvalidStatus
    ensures code == 403 <==> e == NotOwner
  {
    match e
    case BikeNotFound => 404
    case BikeUnavailable => 400
    case BookingNotFound => 404
    case NotOwner => 403
    case InvalidStatus => 400
  }

  /** `findByIdAndUpdate(id, { available: a })`: sets one bike's flag, and
      does nothing when no bike has that id. */
  function SetAvailable(bikes: map<BikeId, Velos.Velo>, id: BikeId, a: bool): (r: map<BikeId, Velos.Velo>)
    ensures r.Keys == bikes.Keys
    ensures id in bikes ==> r[id] == bikes[id].(available := a)
    ensures forall k :: k in bikes && k != id ==> r[k] == bikes[k]
  {
    if id in bikes then bikes[id := bikes[id].(available := a)] else bikes
  }

  /** `createBookings`. The bike must exist (404) and be available (400);
      then one pending booking is inserted under the fresh id `newId`, stamped
      with `now`. The bike itself is not touched. */
  function CreateBooking(s: Store, user: UserId, bike: BikeId, startDate: Date, endDate: Date,
                         newId: BookingId, now: nat): (r: Result<Store, Error>)
    requires newId !in s.bookings
    ensures r == Failure(BikeNotFound) <==> bike !in s.bikes
    ensures r == Failure(BikeUnavailable) <==> bike in s.bikes && !s.bikes[bike].available
    ensures r.Success? <==> bike in s.bikes && s.bikes[bike].available
    ensures r.Success? ==> r.value.bikes == s.bikes
    ensures r.Success? ==>
      && newId in r.value.bookings
      && r.value.bookings[newId] == Booking(user, bike, startDate, endDate, Pending, now)
      && r.value.bookings.Keys == s.bookings.Keys + {newId}
      && |r.value.bookings| == |s.bookings| + 1
      && forall k :: k in s.bookings ==> r.value.bookings[k] == s.bookings[k]
  {
    if bike !in s.bikes then Failure(BikeNotFound)
    else if !s.bikes[bike].available then Failure(BikeUnavailable)
    else Success(s.(bookings := s.bookings[newId := Booking(user, bike, startDate, endDate, Pending, now)]))
  }

  /** A booking with its bike attached (`populate("bike")`); the bike is
      absent when the reference dangles. */
  datatype Populated = Populated(booking: Booking, bike: Option<Velos.Velo>)

  function Populate(s: Store, b: Booking): (p: Populated)
    ensures p.booking == b
    ensures p.bike.Some? <==> b.bike in s.bikes
    ensures p.bike.Some? ==> p.bike.value == s.bikes[b.bike]
  {
    Populated(b, if b.bike in s.bikes then Some(s.bikes[b.bike]) else None)
  }

  /** `mybooking`: exactly the caller's bookings, each with its bike. */
  function MyBookings(s: Store, user: UserId): (r: map<BookingId, Populated>)
    ensures forall k :: k in r <==> k in s.bookings && s.bookings[k].user == user
    ensures forall k :: k in r ==> r[k].booking == s.bookings[k]
    ensures forall k :: k in r ==> r[k] == Populate(s, s.bookings[k])
  {
    map k | k in s.bookings && s.bookings[k].user == user :: Populate(s, s.bookings[k])
  }

  /** `cancelBooking`. The booking must exist (404) and belong to the caller
      (403); then it is cancelled and its bike made available. */
  function CancelBooking(s: Store, requester: UserId, id: BookingId): (r: Result<Store, Error>)
    ensures r == Failure(BookingNotFound) <==> id !in s.bookings
    ensures r == Failure(NotOwner) <==> id in s.bookings && s.bookings[id].user != requester
    ensures r.Success? <==> id in s.bookings && s.bookings[id].user == requester
    ensures r.Success? ==>
      && r.value.bookings.Keys == s.bookings.Keys
      && r.value.bookings[id] == s.bookings[id].(status := Cancelled)
      && (forall k :: k in s.bookings && k != id ==> r.value.bookings[k] == s.bookings[k])
    ensures r.Success? ==> r.value.bikes == SetAvailable(s.bikes, s.bookings[id].bike, true)
  {
    if id !in s.bookings then Failure(BookingNotFound)
    else if s.bookings[id].user != requester then Failure(NotOwner)
    else
      var b := s.bookings[id];
      Success(Store(SetAvailable(s.bikes, b.bike, true), s.bookings[id := b.(status := Cancelled)]))
  }

  /** The availability write that follows a status change. */
  function AvailabilityAfter(bikes: map<BikeId, Velos.Velo>, bike: BikeId, st: Status): map<BikeId, Velos.Velo>
  {
    match st
    case Cancelled => SetAvailable(bikes, bike, true)
    case Confirmed => SetAvailable(bikes, bike, false)
    case Pending => bikes
  }

  /** `updateBookingStatus`. The status text is checked first (400), then the
      booking looked up (404); then the status is set and the bike's flag
      written: true for cancelled, false for confirmed, untouched for pending.
      Any current status may move to any valid one. */
  function UpdateBookingStatus(s: Store, id: BookingId, status: string): (r: Result<Store, Error>)
    ensures r == Failure(InvalidStatus) <==> ParseStatus(status).None?
    ensures r == Failure(BookingNotFound) <==> ParseStatus(status).Some? && id !in s.bookings
    ensures r.Success? <==> ParseStatus(status).Some? && id in s.bookings
    ensures r.Success? ==>
      && r.value.bookings.Keys == s.bookings.Keys
      && StatusName(r.value.bookings[id].status) == status
      && r.value.bookings[id] == s.bookings[id].(status := r.value.bookings[id].status)
      && (forall k :: k in s.bookings && k != id ==> r.value.bookings[k] == s.bookings[k])
    ensures r.Success? ==>
      var b := s.bookings[id].bike;
      && r.value.bikes.Keys == s.bikes.Keys
      && (forall k :: k in s.bikes && k != b ==> r.value.bikes[k] == s.bikes[k])
      && (b in s.bikes ==> r.value.bikes[b] == s.bikes[b].(available := r.value.bikes[b].available))
      && (b in s.bikes && status == "cancelled" ==> r.value.bikes[b].available)
      && (b in s.bikes && status == "confirmed" ==> !r.value.bikes[b].available)
      && (status == "pending" ==> r.value.bikes == s.bikes)
  {
    match ParseStatus(status)
    case None => Failure(InvalidStatus)
    case Some(st) =>
      if id !in s.bookings then Failure(BookingNotFound)
      else
        var b := s.bookings[id];
        Success(Store(AvailabilityAfter(s.bikes, b.bike, st), s.bookings[id := b.(status := st)]))
  }

  /** Booking ids listed newest first. */
  predicate NewestFirst(bookings: map<BookingId, Booking>, ids: seq<BookingId>) {
    && (forall i :: 0 <= i < |ids| ==> ids[i] in bookings)
    && (forall i, j :: 0 <= i < j < |ids| ==> bookings[ids[i]].createdAt >= bookings[ids[j]].createdAt)
  }

  /** `x` is at least as new as every booking listed in `ids`. */
  predicate NewerThanAll(bookings: map<BookingId, Booking>, x: BookingId, ids: seq<BookingId>)
    requires x in bookings
  {
    forall y :: y in ids && y in bookings ==> bookings[x].createdAt >= bookings[y].createdAt
  }

  lemma PrependNewest(bookings: map<BookingId, Booking>, x: BookingId, ids: seq<BookingId>)
    requires x in bookings
    requires NewestFirst(bookings, ids)
    requires NewerThanAll(bookings, x, ids)
    ensures NewestFirst(bookings, [x] + ids)
  {
    var r := [x] + ids;
    forall i, j | 0 <= i < j < |r|
      ensures bookings[r[i]].createdAt >= bookings[r[j]].createdAt
    {
      assert r[j] == ids[j - 1];
      if i > 0 {
        assert r[i] == ids[i - 1];
      }
    }
  }

  lemma HeadNewerThanTail(bookings: map<BookingId, Booking>, ids: seq<BookingId>)
    requires |ids| > 0
    requires NewestFirst(bookings, ids)
    ensures NewerThanAll(bookings, ids[0], ids[1..])
  {
    forall y | y in ids[1..] && y in bookings
      ensures bookings[ids[0]].createdAt >= bookings[y].createdAt
    {
      var m :| 0 <= m < |ids[1..]| && ids[1..][m] == y;
      assert ids[m + 1] == y;
    }
  }

  /** Inserts `k` into a newest-first listing, keeping it newest first. */
  function InsertNewest(bookings: map<BookingId, Booking>, ids: seq<BookingId>, k: BookingId): (r: seq<BookingId>)
    requires k in bookings
    requires NewestFirst(bookings, ids)
    ensures NewestFirst(bookings, r)
    ensures multiset(r) == multiset(ids) + multiset{k}
    decreases |ids|
  {
    if |ids| == 0 then [k]
    else if bookings[k].createdAt >= bookings[ids[0]].createdAt then
      HeadNewerThanTail(bookings, ids);
      assert ids == [ids[0]] + ids[1..];
      PrependNewest(bookings, k, ids);
      [k] + ids
    else
      assert ids == [ids[0]] + ids[1..];
      var rest := InsertNewest(bookings, ids[1..], k);
      HeadNewerThanTail(bookings, ids);
      assert NewerThanAll(bookings, ids[0], rest) by {
        forall y | y in rest && y in bookings
          ensures bookings[ids[0]].createdAt >= bookings[y].createdAt
        {
          assert y in multiset(rest);
        }
      }
      PrependNewest(bookings, ids[0], rest);
      [ids[0]] + rest
  }

  /** `getAllBookings`: every booking exactly once, newest first. */
  method AllBookings(s: Store) returns (ids: seq<BookingId>)
    ensures NewestFirst(s.bookings, ids)
    ensures multiset(ids) == multiset(s.bookings.Keys)
  {
    ids := [];
    var rest := s.bookings.Keys;
    while rest != {}
      invariant rest <= s.bookings.Keys
      invariant NewestFirst(s.bookings, ids)
      invariant multiset(ids) + multiset(rest) == multiset(s.bookings.Keys)
      decreases rest
    {
      var k :| k in rest;
      ids := InsertNewest(s.bookings, ids, k);
      assert multiset(rest) == multiset(rest - {k}) + multiset{k};
      rest := rest - {k};
    }
  }
}
