# Bike reservation: booking lifecycle and client logic in Dafny

This project models the core of a bike-rental web application. The service keeps three kinds of document:
- bikes (`Velo`);
- accounts (`User`);
- bookings, which link a user and a bike with a date range and a status (pending, confirmed or cancelled).

The booking controller's five request handlers are modelled over an in-memory store: four as pure functions, and the admin listing `AllBookings` as a method. That store maps bike ids to bikes and booking ids to bookings. The three handlers that write (create, cancel, status update) return `Success(newStore)` or `Failure(error)`, with error checks in the same order as the code. A failing handler writes nothing, so the caller keeps the old store. The two listing handlers only read: `MyBookings` returns a map of the caller's bookings with their bikes attached, and `AllBookings` returns the sequence of all booking ids, newest first. Bookings with equal creation times may come out in any order, as the database leaves them, so `AllBookings` promises an order rather than computing one particular list.

Next to the handlers are:
- the two schema validators;
- the pure logic of the client: the catalogue type filter, favourites toggling, page routing on login and logout, the figures and action guards of the administrator dashboard, and the image gallery of the bike details modal.

Modules, one per source component:
- `Wrappers`: `Option`, `Result`.
- `Text`: lower-casing, restricted to ASCII letters.
- `Seqs`: `filter` and its order, membership and partition facts.
- `Velos`: the bike schema (`models/Velo.js`).
- `Users`: the account schema (`backend/models/User.js`).
- `Bookings`: the store and the handlers (`backend/controllers/BookingController.js`).
- `BookingProps`: properties relating several handlers.
- `Catalog`: `frontend/App.tsx`.
- `Dashboard`: `frontend/components/admin/AdminDashboard.tsx`.
- `Gallery`: `frontend/components/BikeDetailsModal.tsx`.

Modelling decisions:
- A bike's type exists in two forms. The storage schema's `type` is an enumeration (`normal`, `electrique`). The client's `type` is a free string, which the admin form fills with `City`, `Electric` or `Vtt`. The catalogue filter works on the client's string (`Catalog.Listing.category`); the handlers and validators work on the schema's enumeration.
- Field names differ between the layers: the storage schema says `model`/`image`, while the client interface says `nom`/`images`. The model uses the storage schema's record everywhere. The gallery receives the client's image list as its own parameter.
- The booking schema is not part of this model. The create handler sets no status, so a new booking starts as `pending`. It gets a fresh id and a creation time, both passed in as parameters (the id generator and the clock). Dates are opaque strings and are never compared: the code checks neither their order nor any overlap.
- Schema validation returns the set of failing paths, as a validation error collects one entry per path. A `required` string rejects the empty string, and an `enum` accepts a missing value. `available` defaults to true and `role` defaults to `user`. The password length is counted in UTF-16 code units, as JavaScript's `length` counts it.
- Creating a booking for an unavailable bike answers 400. An administrator may move a booking from any status to any of the three.

## Model

| member | source | states |
|---|---|---|
| Text.Lower | frontend/App.tsx:135-136 | lower-casing keeps the length, leaves no upper-case letter and changes only upper-case letters |
| Text.LowerIdempotent | backend/models/User.js:6 | lower-casing twice equals lower-casing once |
| Seqs.FilterIsSubsequence | frontend/App.tsx:134 | a filtered list keeps the input's order (it is a subsequence of it) |
| Seqs.FilterMultiplicity | frontend/App.tsx:98 | filtering keeps every occurrence of a kept element and none of a dropped one |
| Seqs.FilterPartition | frontend/components/admin/AdminDashboard.tsx:380-384 | two complementary filters have sizes adding up to the list's size |
| Velos.ParseTaille | models/Velo.js:11-15 | a size is accepted iff it is one of Grand, Moyenne, petit, and maps back to the same spelling |
| Velos.ParseType | models/Velo.js:16-20 | a type is accepted iff it is normal or electrique, and maps back to the same spelling |
| Velos.VeloErrors | models/Velo.js:3-20 | id, model, taille and type are required; taille and type must be in their enumerations; prix and image never fail |
| Velos.CreateVelo | models/Velo.js:2-31 | creation fails exactly when some path fails, reporting all of them; on success the bike is valid, carries the given values, and is available when `available` was omitted |
| Velos.CreateVeloRoundTrip | models/Velo.js:2-31 | every valid bike is re-created unchanged from its own description |
| Users.ParseRole | backend/models/User.js:8 | a role is accepted iff it is user or admin |
| Users.NormalizeEmail | backend/models/User.js:6 | the stored email is the given one with each ASCII letter lower-cased, so it has no upper-case ASCII letter |
| Users.NormalizeEmailIdempotent | backend/models/User.js:6 | normalising an email twice equals normalising it once |
| Users.UserErrors | backend/models/User.js:5-10 | nom, email, password, age and gender are required; password has at least 6 UTF-16 code units; role, if given, is in the enumeration |
| Users.PasswordCountsCodeUnits | backend/models/User.js:7 | a password of three characters outside the Basic Multilingual Plane has length 6 and is accepted |
| Text.Utf16Length | backend/models/User.js:7 | a string's JavaScript length is its character count plus the number of characters above U+FFFF, so it lies between the count and twice it, and equals the count iff no character is above U+FFFF |
| Users.CreateUser | backend/models/User.js:3-20 | creation fails exactly when some path fails; on success the account is valid, the email lower-cased, the role user when absent, the favourites kept |
| Users.CreateUserRoundTrip | backend/models/User.js:3-20 | every valid account is re-created unchanged from its own description |
| Bookings.ParseStatus | backend/controllers/BookingController.js:82-84 | a status is accepted iff it is pending, confirmed or cancelled |
| Bookings.HttpStatus | backend/controllers/BookingController.js:13-87 | missing bike or booking answers 404, unavailable bike or bad status 400, non-owner 403 |
| Bookings.Populate | backend/controllers/BookingController.js:35 | the attached bike is the stored record of the booking's bike, or absent when that bike no longer exists |
| Bookings.SetAvailable | backend/controllers/BookingController.js:55 | only the named bike's flag changes, and a missing bike id changes nothing |
| Bookings.CreateBooking | backend/controllers/BookingController.js:11-25 | missing bike gives NotFound; an unavailable bike gives Unavailable; otherwise exactly one pending booking with the given user, bike and dates is added and no bike changes |
| Bookings.MyBookings | backend/controllers/BookingController.js:35 | the result holds exactly the caller's bookings, each with its bike attached when the bike exists |
| Bookings.CancelBooking | backend/controllers/BookingController.js:47-55 | missing booking gives NotFound; a non-owner gives Forbidden; otherwise that booking alone becomes cancelled and its bike alone becomes available |
| Bookings.UpdateBookingStatus | backend/controllers/BookingController.js:82-99 | an unknown status fails before the lookup, and a missing booking fails next; otherwise only that booking's status changes. Cancelled frees its bike, confirmed takes it, pending leaves bikes untouched |
| Bookings.InsertNewest | backend/controllers/BookingController.js:69 | inserting into a newest-first listing keeps it newest first and adds exactly one entry |
| Bookings.AllBookings | backend/controllers/BookingController.js:64-74 | the listing holds every booking exactly once, newest first |
| BookingProps.CreatePreservesValid | backend/controllers/BookingController.js:11-23 | a create keeps every booking pointing at a stored, valid bike |
| BookingProps.CancelPreservesValid | backend/controllers/BookingController.js:47-55 | a cancel keeps the store valid |
| BookingProps.UpdatePreservesValid | backend/controllers/BookingController.js:86-99 | a status update keeps the store valid |
| BookingProps.OwnerCancelIsAdminCancel | backend/controllers/BookingController.js:47-99 | an owner's cancel and an administrator's update to cancelled give the same store |
| BookingProps.UpdateIdempotent | backend/controllers/BookingController.js:89-99 | repeating a successful status update changes nothing further |
| BookingProps.CancelIdempotent | backend/controllers/BookingController.js:52-55 | repeating a successful cancel changes nothing further |
| BookingProps.AnyStatusReachable | backend/controllers/BookingController.js:82-90 | from any status an administrator can set any of the three |
| BookingProps.CreateShowsOnlyToOwner | backend/controllers/BookingController.js:18-35 | a new booking enters its owner's list and leaves every other user's list unchanged |
| BookingProps.PendingBookingDoesNotBlock | backend/controllers/BookingController.js:15-23 | after a create, the same bike can be booked again |
| BookingProps.CancelCanFreeConfirmedBike | backend/controllers/BookingController.js:52-55 | cancelling one booking can mark a bike available while another booking of it stays confirmed |
| BookingProps.BookConfirmCancel | backend/controllers/BookingController.js:11-99 | book, confirm, owner cancel: pending with the bike free, then the bike taken, then cancelled with the bike free |
| Catalog.FilterByType | frontend/App.tsx:133-139 | a bike is kept iff the selection is All or the lower-cased type equals the lower-cased selection; order is kept and a kept bike occurs as often as in the catalogue |
| Catalog.FilterAllIsIdentity | frontend/App.tsx:137 | selecting All returns the whole catalogue |
| Catalog.FilterCaseInsensitive | frontend/App.tsx:135-137 | selections equal up to letter case filter alike |
| Catalog.FormTypeShownUnderItsChoice | frontend/App.tsx:133-139 | a bike whose type the admin form stored (City, Electric, Vtt) is shown under All and under its own selector choice (Vtt under VTT), and under no other |
| Catalog.TypeChoicesMatchNoStoredBike | frontend/services/mockData.ts:71 | every offered choice other than All (VTT, City, Electric) matches no bike whose type is one of the schema's names |
| Catalog.FavoriteBikes | frontend/App.tsx:173 | exactly the catalogue bikes whose id (or "" when absent) is a favourite, in catalogue order and as often as they occur there |
| Catalog.Toggled | frontend/App.tsx:96-99 | the toggled id's membership flips and every other id keeps its number of occurrences; an absent id is appended, a present one removed everywhere |
| Catalog.ToggleFavorite | frontend/App.tsx:77-104 | without a user the page becomes login and favourites stay; a failed response changes nothing; a success replaces the list by the toggled one, which flips membership of that id only |
| Catalog.ToggledKeepsDistinct | frontend/App.tsx:83-99 | a list without repeats stays without repeats |
| Catalog.ToggleTwiceRestores | frontend/App.tsx:83-99 | adding an absent id and removing it again restores the list |
| Catalog.LoginSuccess | frontend/App.tsx:106-113 | admins land on the admin page, every other user on home |
| Catalog.Logout | frontend/App.tsx:126-131 | logging out clears the user and the favourites and shows home |
| Catalog.ToggleTwiceAfterLogin | frontend/App.tsx:83-113 | in a session opened by a login, a confirmed toggle of a new bike appends it and keeps the landing page (admin page iff the role is admin), and a second confirmed toggle restores the state the login produced |
| Dashboard.ActiveCount | frontend/components/admin/AdminDashboard.tsx:77 | equals the number of bookings a filter on status confirmed keeps, so never more than the bookings, and zero iff none is confirmed |
| Dashboard.ComputeStats | frontend/components/admin/AdminDashboard.tsx:74-78 | total bookings is the list's size; live orders equal the length of the list filtered to confirmed and never exceed it |
| Dashboard.ConfirmRaisesActive | frontend/components/admin/AdminDashboard.tsx:77 | turning one listed booking confirmed raises the confirmed count by exactly one |
| Dashboard.ConfirmPendingRaisesLiveOrders | frontend/components/admin/AdminDashboard.tsx:102-116 | confirming a pending booking through the status handler raises live orders over the full listing by one |
| Dashboard.AvailablePlusRented | frontend/components/admin/AdminDashboard.tsx:380-384 | available and rented counts add up to the number of bikes |
| Dashboard.StatusLabel | frontend/components/admin/AdminDashboard.tsx:454-458 | the label is Available iff the bike is available, otherwise Booked |
| Dashboard.ActionsFor | frontend/components/admin/AdminDashboard.tsx:535-549 | confirm and cancel are offered iff the booking is pending |
| Dashboard.OfferedActionsSucceed | frontend/components/admin/AdminDashboard.tsx:535-549 | every offered action is accepted by the status handler and sets the status it names |
| Dashboard.RecentOperations | frontend/components/admin/AdminDashboard.tsx:352 | shows the first min(5, n) bookings of the listing |
| Dashboard.DeletableUsers | frontend/components/admin/AdminDashboard.tsx:611-623 | delete is offered for every ordinary user and for no administrator |
| Gallery.GalleryOf | frontend/components/BikeDetailsModal.tsx:18-20 | the gallery is never empty: one URL per uploaded image, or the single default picture |
| Gallery.Next | frontend/components/BikeDetailsModal.tsx:30-32 | next lands in [0, n), steps forward, and wraps from the last picture to the first |
| Gallery.Prev | frontend/components/BikeDetailsModal.tsx:34-36 | prev lands in [0, n), steps back, and wraps from the first picture to the last |
| Gallery.PrevAfterNext | frontend/components/BikeDetailsModal.tsx:30-36 | prev undoes next |
| Gallery.NextAfterPrev | frontend/components/BikeDetailsModal.tsx:30-36 | next undoes prev |
| Gallery.FullTurnReturns | frontend/components/BikeDetailsModal.tsx:30-32 | n presses of next return to the starting picture |
| Gallery.ControlsNeedSeveralImages | frontend/components/BikeDetailsModal.tsx:50 | the controls appear iff the bike has more than one image |
| Gallery.Shown | frontend/components/BikeDetailsModal.tsx:45 | a picture is displayed iff the index is inside the gallery |
| Gallery.OpenDetailsAsWritten | frontend/components/BikeDetailsModal.tsx:12-20 | opening for another bike replaces the gallery but keeps the previous index |
| Gallery.StaleIndexLosesPicture | frontend/components/BikeDetailsModal.tsx:13-50 | a valid index left by a three-image bike displays nothing for a bike without images, and no control is offered |
| Gallery.OpenDetails | frontend/components/BikeDetailsModal.tsx:13-20 | opening starts at the first picture, so a picture is displayed |
| Gallery.Replay | frontend/components/BikeDetailsModal.tsx:30-36 | any run of next/prev presses keeps the index inside the gallery |
| Gallery.PressesKeepPicture | frontend/components/BikeDetailsModal.tsx:30-50 | from an opened modal, a picture stays displayed after any presses |
| Gallery.ReserveClick | frontend/components/BikeDetailsModal.tsx:139-141 | the bike is handed to the reservation flow iff it is available |
| Gallery.ReserveGuardAgreesWithServer | frontend/components/BikeDetailsModal.tsx:139-141 | for the stored record, the button lets a request through iff the create handler accepts it |

## Findings

| source | as written | input that shows it | evidently intended | confidence | as-written member | corrected member |
|---|---|---|---|---|---|---|
| frontend/components/BikeDetailsModal.tsx:13 | the picture index is component state. It is not reset when the modal opens for another bike: the modal instance at frontend/App.tsx:269-276 stays mounted | view a bike with three images and press previous once (index 2); close it; open a bike with no images. `images[2]` is undefined and the one-picture gallery shows no controls to recover | each opening starts at the first picture | medium, not executed | Gallery.OpenDetailsAsWritten, Gallery.StaleIndexLosesPicture | Gallery.OpenDetails, Gallery.PressesKeepPicture |

## Left out

- The booking controller loads its bike model from `backend/models/Velo.js`, which is not part of this model. The bike record follows `models/Velo.js`.
- HTTP, `fetch`, local storage, JSON encoding and React rendering are left out. The handlers become functions of the store, and the client logic becomes functions of its state. A server error (500) from a thrown exception, such as a malformed id, is not modelled.
- The administrator role gate of the routes (`backend/routes/Booking.js:18-19`) is left out. The middleware is not part of this model, so the admin handlers carry no role precondition.
- Population in the admin listing is left out: neither the owner's name and email nor the bike record (`populate("bike")`) is attached. `Bookings.AllBookings` returns booking ids in order; `Bookings.Populate` is what `MyBookings` uses to attach bikes.
- Mongoose persistence is modelled as maps. The booking save and the bike update are two separate writes with no transaction; each handler is modelled as one atomic step, and races between requests are not modelled.
- The unique index on the user email is left out. No insert into an account store is part of this core.
- Dates are opaque. The reservation modal's date defaults and all display formatting involve time zones and the clock.
- PDF reports, image upload, mock data, presentational components, the bike catalogue controller and the favourites, user and auth endpoints are left out. Their code is layout or is not part of this model.
- Text.Lower: lower-cases ASCII letters only, where the source's `toLowerCase` covers all of Unicode.
- Users.NormalizeEmail: lower-cases ASCII letters only, through `Text.Lower`. Mongoose's `lowercase: true` also lowers other letters (`"É@x"` is stored as `"é@x"`), which the model leaves as they are.
- Catalog.FilterByType: compares the lower-cased type and selection through `Text.Lower`, so only ASCII letters are folded. The selection comes from a fixed list of ASCII choices, so the difference shows only for a stored type containing non-ASCII letters.
- Gallery.ReserveGuardAgreesWithServer: the model's `available` flag is a boolean. The schema's `default: true` fills only a missing flag, so a bike stored with `available: null` keeps null. For such a bike the client's `available !== false` lets the request through, while the server's `!bike.available` answers 400. The lemma does not cover this case.
- Users.CreateUser: `age` is an integer, where the schema's Number also admits fractions.
- Velos.CreateVelo: `id` and `prix` are integers, where the schema's Number also admits fractions (a price of 12.5).
- Catalog.ToggleFavorite: the server's response is a boolean parameter. The list is updated from its value at click time, as if no other update intervened before the response.
- Catalog.LoginSuccess: the fetched favourites are a parameter. When the fetch fails or returns a non-list, the list is left as it was.
