/** Properties that relate several booking handlers, and the invariant of
    the store they all keep. */
module BookingProps {
  import opened Wrappers
  import Velos
  import opened Bookings

  /** Every booking references a stored bike and every stored bike is valid. */
  predicate StoreValid(s: Store) {
    && (forall b :: b in s.bikes ==> Velos.Valid(s.bikes[b]))
    && (forall k :: k in s.bookings ==> s.bookings[k].bike in s.bikes)
  }

  lemma CreatePreservesValid(s: Store, user: UserId, bike: BikeId, startDate: Date, endDate: Date,
                             newId: BookingId, now: nat)
    requires newId !in s.bookings
    requires StoreValid(s)
    requires CreateBooking(s, user, bike, startDate, endDate, newId, now).Success?
    ensures StoreValid(CreateBooking(s, user, bike, startDate, endDate, newId, now).value)
  {
  }

  lemma CancelPreservesValid(s: Store, requester: UserId, id: BookingId)
    requires StoreValid(s)
    requires CancelBooking(s, requester, id).Success?
    ensures StoreValid(CancelBooking(s, requester, id).value)
  {
  }

  lemma UpdatePreservesValid(s: Store, id: BookingId, status: string)
    requires StoreValid(s)
    requires UpdateBookingStatus(s, id, status).Success?
    ensures StoreValid(UpdateBookingStatus(s, id, status).value)
  {
  }

  /** An owner's cancel has the same effect as an administrator setting the
      status to cancelled. */
  lemma OwnerCancelIsAdminCancel(s: Store, id: BookingId)
    requires id in s.bookings
    ensures CancelBooking(s, s.bookings[id].user, id) == UpdateBookingStatus(s, id, "cancelled")
  {
  }

  /** Repeating a successful status update changes nothing more. */
  lemma UpdateIdempotent(s: Store, id: BookingId, status: string)
    requires UpdateBookingStatus(s, id, status).Success?
    ensures var s1 := UpdateBookingStatus(s, id, status).value;
            UpdateBookingStatus(s1, id, status) == Success(s1)
  {
    var s1 := UpdateBookingStatus(s, id, status).value;
    var s2 := UpdateBookingStatus(s1, id, status).value;
    assert s2.bookings == s1.bookings;
    assert s2.bikes == s1.bikes;
  }

  /** Repeating a successful cancel changes nothing more. */
  lemma CancelIdempotent(s: Store, requester: UserId, id: BookingId)
    requires CancelBooking(s, requester, id).Success?
    ensures var s1 := CancelBooking(s, requester, id).value;
            CancelBooking(s1, requester, id) == Success(s1)
  {
    var s1 := CancelBooking(s, requester, id).value;
    var s2 := CancelBooking(s1, requester, id).value;
    assert s2.bookings == s1.bookings;
    assert s2.bikes == s1.bikes;
  }

  /** The status machine is unrestricted: from any status an administrator
      can reach any of the three. */
  lemma AnyStatusReachable(s: Store, id: BookingId, target: Status)
    requires id in s.bookings
    ensures UpdateBookingStatus(s, id, StatusName(target)).Success?
    ensures UpdateBookingStatus(s, id, StatusName(target)).value.bookings[id].status == target
  {
    StatusRoundTrip(target);
  }

  /** A successful create adds the new booking to its owner's list and to no
      one else's. */
  lemma CreateShowsOnlyToOwner(s: Store, user: UserId, bike: BikeId, startDate: Date, endDate: Date,
                               newId: BookingId, now: nat, other: UserId)
    requires newId !in s.bookings
    requires CreateBooking(s, user, bike, startDate, endDate, newId, now).Success?
    ensures var s1 := CreateBooking(s, user, bike, startDate, endDate, newId, now).value;
            && MyBookings(s1, user).Keys == MyBookings(s, user).Keys + {newId}
            && (other != user ==> MyBookings(s1, other) == MyBookings(s, other))
  {
    var s1 := CreateBooking(s, user, bike, startDate, endDate, newId, now).value;
    assert MyBookings(s1, user).Keys == MyBookings(s, user).Keys + {newId};
    if other != user {
      assert MyBookings(s1, other).Keys == MyBookings(s, other).Keys;
    }
  }

  /** Creating a booking does not reserve the bike: a second booking of the
      same bike is accepted as well. */
  lemma PendingBookingDoesNotBlock(s: Store, user: UserId, bike: BikeId, startDate: Date, endDate: Date,
                                   newId: BookingId, now: nat,
                                   user2: UserId, start2: Date, end2: Date, newId2: BookingId, now2: nat)
    requires newId !in s.bookings
    requires newId2 !in s.bookings && newId2 != newId
    requires CreateBooking(s, user, bike, startDate, endDate, newId, now).Success?
    ensures var s1 := CreateBooking(s, user, bike, startDate, endDate, newId, now).value;
            CreateBooking(s1, user2, bike, start2, end2, newId2, now2).Success?
  {
  }

  /** Cancelling one booking frees its bike even when another booking of the
      same bike is confirmed: the flag no longer reflects the bookings. */
  lemma CancelCanFreeConfirmedBike()
    ensures exists s: Store, u: UserId, id: BookingId, other: BookingId ::
      && id in s.bookings && other in s.bookings && other != id
      && s.bookings[id].bike == s.bookings[other].bike
      && s.bookings[other].status == Confirmed
      && s.bookings[id].bike in s.bikes
      && CancelBooking(s, u, id).Success?
      && CancelBooking(s, u, id).value.bookings[other].status == Confirmed
      && CancelBooking(s, u, id).value.bikes[s.bookings[id].bike].available
  {
    var v := Velos.Velo(1, "City", Velos.Moyenne, Velos.Normal, None, None, false);
    var s := Store(map["b" := v],
                   map["k1" := Booking("u", "b", "d1", "d2", Pending, 1),
                       "k2" := Booking("w", "b", "d1", "d2", Confirmed, 0)]);
    var r := CancelBooking(s, "u", "k1");
    assert r.Success?;
    assert r.value.bookings["k2"].status == Confirmed;
    assert r.value.bikes["b"].available;
  }

  /** The lifecycle of a booking: created pending with the bike still
      available, confirmed (bike taken), then cancelled by its owner (bike
      free again). */
  lemma BookConfirmCancel(s: Store, user: UserId, bike: BikeId, startDate: Date, endDate: Date,
                          id: BookingId, now: nat)
    requires id !in s.bookings
    requires bike in s.bikes && s.bikes[bike].available
    ensures var s1 := CreateBooking(s, user, bike, startDate, endDate, id, now);
            && s1.Success?
            && s1.value.bookings[id].status == Pending
            && s1.value.bikes[bike].available
            && var s2 := UpdateBookingStatus(s1.value, id, "confirmed");
            && s2.Success?
            && !s2.value.bikes[bike].available
            && var s3 := CancelBooking(s2.value, user, id);
            && s3.Success?
            && s3.value.bookings[id].status == Cancelled
            && s3.value.bikes[bike].available
  {
  }
}
