/** The bike details modal: the image gallery, its cyclic index, the
    visibility of its controls and the guard of its reserve button. */
module Gallery {
  import opened Wrappers
  import Velos
  import Bookings

  const ApiUrl: string := "http://localhost:4000"

  /** The picture shown when a bike has no images. */
  const DefaultImage: string :=
    "https://images.unsplash.com/photo-1485965120184-e220f721d03e?auto=format&fit=crop&q=80&w=800"

  function ImageUrl(name: string): string {
    ApiUrl + "/uploads/" + name
  }

  /** The gallery of a bike: the URL of each uploaded image, or the single
      default picture when the bike has none. It is never empty. */
  function GalleryOf(images: Option<seq<string>>): (r: seq<string>)
    ensures |r| >= 1
    ensures images.Some? && |images.value| > 0 ==>
      |r| == |images.value| && forall i :: 0 <= i < |r| ==> r[i] == ImageUrl(images.value[i])
    ensures images.None? || |images.value| == 0 ==> r == [DefaultImage]
  {
    if images.Some? && |images.value| > 0 then
      seq(|images.value|, i requires 0 <= i < |images.value| => ImageUrl(images.value[i]))
    else [DefaultImage]
  }

  /** `nextImage` on a gallery of `n` pictures: one step forward, wrapping
      from the last picture to the first. Any current index lands in range. */
  function Next(i: nat, n: nat): (r: nat)
    requires n > 0
    ensures r < n
    ensures i + 1 < n ==> r == i + 1
    ensures i + 1 == n ==> r == 0
  {
    (i + 1) % n
  }

  /** `prevImage`: one step back, wrapping from the first picture to the
      last. The operand `i - 1 + n` is never negative, so the remainder is
      the same whether it truncates or floors. */
  function Prev(i: nat, n: nat): (r: nat)
    requires n > 0
    ensures r < n
    ensures 0 < i <= n ==> r == i - 1
    ensures i == 0 ==> r == n - 1
  {
    (i - 1 + n) % n
  }

  lemma PrevAfterNext(i: nat, n: nat)
    requires i < n
    ensures Prev(Next(i, n), n) == i
  {
  }

  lemma NextAfterPrev(i: nat, n: nat)
    requires i < n
    ensures Next(Prev(i, n), n) == i
  {
  }

  /** `k` presses of the next control. */
  function Advance(i: nat, n: nat, k: nat): (r: nat)
    requires n > 0
    ensures k > 0 ==> r < n
    decreases k
  {
    if k == 0 then i else Next(Advance(i, n, k - 1), n)
  }

  /** Presses that do not pass the last picture move one place each. */
  lemma {:induction false} AdvanceWithoutWrap(i: nat, n: nat, k: nat)
    requires n > 0 && i + k < n
    ensures Advance(i, n, k) == i + k
    decreases k
  {
    if k > 0 {
      AdvanceWithoutWrap(i, n, k - 1);
    }
  }

  /** Pressing `a` times and then `b` times is pressing `a + b` times. */
  lemma {:induction false} AdvanceCompose(i: nat, n: nat, a: nat, b: nat)
    requires n > 0
    ensures Advance(i, n, a + b) == Advance(Advance(i, n, a), n, b)
    decreases b
  {
    if b > 0 {
      AdvanceCompose(i, n, a, b - 1);
    }
  }

  /** A full turn of next presses comes back to the start. */
  lemma FullTurnReturns(i: nat, n: nat)
    requires i < n
    ensures Advance(i, n, n) == i
  {
    AdvanceCompose(i, n, n - 1 - i, 1 + i);
    AdvanceWithoutWrap(i, n, n - 1 - i);
    AdvanceCompose(n - 1, n, 1, i);
    assert Advance(n - 1, n, 1) == 0;
    AdvanceWithoutWrap(0, n, i);
  }

  /** The previous/next controls appear only for more than one picture. */
  predicate ShowControls(gallery: seq<string>) {
    |gallery| > 1
  }

  /** A bike with at most one uploaded image has no controls. */
  lemma ControlsNeedSeveralImages(images: Option<seq<string>>)
    ensures ShowControls(GalleryOf(images)) <==> images.Some? && |images.value| > 1
  {
  }

  /** The modal's gallery and current picture index. */
  datatype Modal = Modal(gallery: seq<string>, index: nat)

  /** The picture the modal displays: nothing when the index is past the
      end of the gallery. */
  function Shown(m: Modal): (r: Option<string>)
    ensures r.Some? <==> m.index < |m.gallery|
    ensures r.Some? ==> r.value in m.gallery
  {
    if m.index < |m.gallery| then Some(m.gallery[m.index]) else None
  }

  predicate InRange(m: Modal) {
    m.index < |m.gallery|
  }

  /** Opening the modal for a bike as the component does it: the gallery
      follows the new bike, the index is whatever the previous bike left. */
  function OpenDetailsAsWritten(m: Modal, images: Option<seq<string>>): (r: Modal)
    ensures r.gallery == GalleryOf(images) && r.index == m.index
  {
    Modal(GalleryOf(images), m.index)
  }

  /** A bike with three images, viewed at its last picture, then a bike with
      none: the modal displays nothing and offers no control to recover. */
  lemma StaleIndexLosesPicture()
    ensures var m := Modal(GalleryOf(Some(["a", "b", "c"])), Prev(0, 3));
            var m1 := OpenDetailsAsWritten(m, None);
            && InRange(m)
            && Shown(m1).None?
            && !ShowControls(m1.gallery)
  {
  }

  /** Opening the modal for a bike, starting at its first picture. */
  function OpenDetails(images: Option<seq<string>>): (r: Modal)
    ensures InRange(r)
    ensures r.gallery == GalleryOf(images)
    ensures Shown(r) == Some(GalleryOf(images)[0])
  {
    Modal(GalleryOf(images), 0)
  }

  function PressNext(m: Modal): (r: Modal)
    requires |m.gallery| > 0
    ensures InRange(r) && r.gallery == m.gallery
  {
    m.(index := Next(m.index, |m.gallery|))
  }

  function PressPrev(m: Modal): (r: Modal)
    requires |m.gallery| > 0
    ensures InRange(r) && r.gallery == m.gallery
  {
    m.(index := Prev(m.index, |m.gallery|))
  }

  /** From an opened modal, every sequence of presses keeps a picture on
      screen. */
  lemma {:induction false} PressesKeepPicture(images: Option<seq<string>>, presses: seq<bool>)
    ensures Shown(Replay(OpenDetails(images), presses)).Some?
    decreases |presses|
  {
    if |presses| > 0 {
      PressesKeepPicture(images, presses[..|presses| - 1]);
    }
  }

  /** The modal after a run of presses: `true` for next, `false` for previous. */
  function Replay(m: Modal, presses: seq<bool>): (r: Modal)
    requires InRange(m)
    ensures InRange(r) && r.gallery == m.gallery
    decreases |presses|
  {
    if |presses| == 0 then m
    else
      var before := Replay(m, presses[..|presses| - 1]);
      if presses[|presses| - 1] then PressNext(before) else PressPrev(before)
  }

  /** The reserve button: it hands the bike on only when the bike is not
      marked unavailable. */
  function ReserveClick(v: Velos.Velo): (r: Option<Velos.Velo>)
    ensures r.Some? <==> v.available
    ensures r.Some? ==> r.value == v
  {
    if v.available then Some(v) else None
  }

  /** When the modal shows the stored record, the button lets through exactly
      the requests the create handler does not refuse as unavailable. */
  lemma ReserveGuardAgreesWithServer(s: Bookings.Store, user: Bookings.UserId, bike: Bookings.BikeId,
                                     startDate: Bookings.Date, endDate: Bookings.Date,
                                     newId: Bookings.BookingId, now: nat)
    requires newId !in s.bookings
    requires bike in s.bikes
    ensures ReserveClick(s.bikes[bike]).Some?
            <==> Bookings.CreateBooking(s, user, bike, startDate, endDate, newId, now).Success?
  {
  }
}
