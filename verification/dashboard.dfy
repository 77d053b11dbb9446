/** The administrator dashboard's derived figures and the guards that decide
    which actions it offers. */
module Dashboard {
  import Seqs
  import Velos
  import Users
  import opened Bookings

  /** The bookings a listing of ids names, in listing order. */
  function Listed(bookings: map<BookingId, Booking>, ids: seq<BookingId>): (r: seq<Booking>)
    requires forall i :: 0 <= i < |ids| ==> ids[i] in bookings
    ensures |r| == |ids|
    ensures forall i :: 0 <= i < |ids| ==> r[i] == bookings[ids[i]]
    decreases |ids|
  {
    if |ids| == 0 then [] else [bookings[ids[0]]] + Listed(bookings, ids[1..])
  }

  predicate IsConfirmed(b: Booking) {
    b.status == Confirmed
  }

  /** "Live Orders": the confirmed bookings among those listed. */
  function ActiveCount(bks: seq<Booking>): (n: nat)
    ensures n == |Seqs.Filter(bks, IsConfirmed)|
    ensures n <= |bks|
    ensures n == 0 <==> forall i :: 0 <= i < |bks| ==> !IsConfirmed(bks[i])
    decreases |bks|
  {
    if |bks| == 0 then 0
    else (if IsConfirmed(bks[0]) then 1 else 0) + ActiveCount(bks[1..])
  }

  datatype Stats = Stats(totalUsers: nat, totalBikes: nat, totalBookings: nat, activeBookings: nat)

  /** The four figures of the overview: one per fetched list, plus the
      confirmed bookings, which can never outnumber all bookings. */
  function ComputeStats(users: seq<Users.UserDoc>, bikes: seq<Velos.Velo>, bookings: seq<Booking>): (r: Stats)
    ensures r.totalUsers == |users| && r.totalBikes == |bikes| && r.totalBookings == |bookings|
    ensures r.activeBookings == |Seqs.Filter(bookings, IsConfirmed)|
    ensures r.activeBookings <= r.totalBookings
    ensures r.activeBookings == 0 <==> forall i :: 0 <= i < |bookings| ==> bookings[i].status != Confirmed
  {
    Stats(|users|, |bikes|, |bookings|, ActiveCount(bookings))
  }

  /** Confirming a booking that was not confirmed raises "Live Orders" by
      exactly one when the listing names that booking once. */
  lemma {:induction false} ConfirmRaisesActive(before: map<BookingId, Booking>, after: map<BookingId, Booking>,
                                               ids: seq<BookingId>, id: BookingId)
    requires forall i :: 0 <= i < |ids| ==> ids[i] in before && ids[i] in after
    requires forall k :: k in before && k != id ==> k in after && after[k] == before[k]
    requires id in before && id in after
    requires !IsConfirmed(before[id]) && IsConfirmed(after[id])
    requires multiset(ids)[id] == 1
    ensures ActiveCount(Listed(after, ids)) == ActiveCount(Listed(before, ids)) + 1
    decreases |ids|
  {
    assert ids == [ids[0]] + ids[1..];
    assert Listed(after, ids)[1..] == Listed(after, ids[1..]);
    assert Listed(before, ids)[1..] == Listed(before, ids[1..]);
    if ids[0] == id {
      assert multiset(ids[1..])[id] == 0;
      UnchangedActive(before, after, ids[1..], id);
    } else {
      ConfirmRaisesActive(before, after, ids[1..], id);
    }
  }

  /** A listing that does not name the changed booking counts the same. */
  lemma {:induction false} UnchangedActive(before: map<BookingId, Booking>, after: map<BookingId, Booking>,
                                           ids: seq<BookingId>, id: BookingId)
    requires forall i :: 0 <= i < |ids| ==> ids[i] in before && ids[i] in after
    requires forall k :: k in before && k != id ==> k in after && after[k] == before[k]
    requires id !in ids
    ensures Listed(after, ids) == Listed(before, ids)
    decreases |ids|
  {
    if |ids| > 0 {
      assert ids[0] != id;
      UnchangedActive(before, after, ids[1..], id);
    }
  }

  /** What confirming does to the bookings: that booking becomes confirmed
      and every other one is kept. */
  lemma ConfirmEffect(s: Store, id: BookingId)
    requires id in s.bookings
    ensures UpdateBookingStatus(s, id, "confirmed").Success?
    ensures var b1 := UpdateBookingStatus(s, id, "confirmed").value.bookings;
            && b1.Keys == s.bookings.Keys
            && IsConfirmed(b1[id])
            && forall k :: k in s.bookings && k != id ==> b1[k] == s.bookings[k]
  {
    var s1 := UpdateBookingStatus(s, id, "confirmed").value;
    assert StatusName(s1.bookings[id].status) == "confirmed";
  }

  /** A listing of every key names each stored booking exactly once. */
  lemma ListingCoversKeys(bookings: map<BookingId, Booking>, ids: seq<BookingId>, id: BookingId)
    requires id in bookings
    requires multiset(ids) == multiset(bookings.Keys)
    ensures multiset(ids)[id] == 1
    ensures forall i :: 0 <= i < |ids| ==> ids[i] in bookings
  {
    assert multiset(bookings.Keys)[id] == 1;
    forall i | 0 <= i < |ids| ensures ids[i] in bookings {
      assert ids[i] in multiset(ids);
    }
  }

  /** Confirming a pending booking through the status handler raises the
      count over the full listing by one. */
  lemma ConfirmPendingRaisesLiveOrders(s: Store, id: BookingId, ids: seq<BookingId>)
    requires id in s.bookings && s.bookings[id].status == Pending
    requires multiset(ids) == multiset(s.bookings.Keys)
    ensures var s1 := UpdateBookingStatus(s, id, "confirmed").value;
            && (forall i :: 0 <= i < |ids| ==> ids[i] in s1.bookings)
            && ActiveCount(Listed(s1.bookings, ids)) == ActiveCount(Listed(s.bookings, ids)) + 1
  {
    ConfirmEffect(s, id);
    ListingCoversKeys(s.bookings, ids, id);
    var b1 := UpdateBookingStatus(s, id, "confirmed").value.bookings;
    ConfirmRaisesActive(s.bookings, b1, ids, id);
  }

  predicate ShownAvailable(v: Velos.Velo) {
    v.available
  }

  predicate ShownRented(v: Velos.Velo) {
    !v.available
  }

  /** "Available Now" and "Currently Rented" split the fleet between them. */
  lemma AvailablePlusRented(bikes: seq<Velos.Velo>)
    ensures |Seqs.Filter(bikes, ShownAvailable)| + |Seqs.Filter(bikes, ShownRented)| == |bikes|
  {
    Seqs.FilterPartition(bikes, ShownAvailable, ShownRented);
  }

  /** The status label of the inventory table and of the report. */
  function StatusLabel(v: Velos.Velo): (shown: string)
    ensures shown == "Available" || shown == "Booked"
    ensures shown == "Available" <==> ShownAvailable(v)
  {
    if v.available then "Available" else "Booked"
  }

  datatype Action = ConfirmAction | CancelAction

  /** The status text an action sends to the status handler. */
  function ActionStatus(a: Action): string {
    match a
    case ConfirmAction => "confirmed"
    case CancelAction => "cancelled"
  }

  /** The actions a reservation row offers: confirm and cancel while the
      booking is pending, none otherwise. */
  function ActionsFor(b: Booking): (r: seq<Action>)
    ensures |r| > 0 <==> b.status == Pending
    ensures b.status == Pending ==> ConfirmAction in r && CancelAction in r
  {
    if b.status == Pending then [ConfirmAction, CancelAction] else []
  }

  /** Every offered action is accepted by the status handler for a stored
      booking, and leaves the booking in the status it names. */
  lemma OfferedActionsSucceed(s: Store, id: BookingId, a: Action)
    requires id in s.bookings
    requires a in ActionsFor(s.bookings[id])
    ensures UpdateBookingStatus(s, id, ActionStatus(a)).Success?
    ensures var s1 := UpdateBookingStatus(s, id, ActionStatus(a)).value;
            s1.bookings[id].status == (if a == ConfirmAction then Confirmed else Cancelled)
  {
  }

  /** The number of bookings the overview's recent operations show. */
  const RecentLimit: nat := 5

  /** "Recent Operations": the head of the newest-first listing. */
  function RecentOperations(bks: seq<Booking>): (r: seq<Booking>)
    ensures |r| <= RecentLimit
    ensures |r| == if |bks| < RecentLimit then |bks| else RecentLimit
    ensures r <= bks
  {
    if |bks| <= RecentLimit then bks else bks[..RecentLimit]
  }

  /** Whether a user row offers the delete button. */
  predicate CanDeleteUser(u: Users.UserDoc) {
    u.role != Users.Admin
  }

  /** The users a delete button is shown for: no administrator, every
      ordinary user. */
  function DeletableUsers(users: seq<Users.UserDoc>): (r: seq<Users.UserDoc>)
    ensures forall u :: u in r ==> u in users && u.role == Users.User
    ensures forall u :: u in users && u.role == Users.User ==> u in r
  {
    Seqs.Filter(users, CanDeleteUser)
  }
}
