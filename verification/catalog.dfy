/** The client application's pure state logic: the catalogue type filter,
    the favourites list and page routing on login and logout. */
module Catalog {
  import opened Wrappers
  import Text
  import Seqs
  import Velos
  import Users

  /** A bike as the client holds it: its document id, when present, its
      type as the client's free string (a selector category or whatever the
      admin form stored), and the record. */
  datatype Listing = Listing(oid: Option<string>, category: string, velo: Velos.Velo)

  /** The key the favourites page matches on: the document id, or "" when absent. */
  function FavKey(b: Listing): string {
    b.oid.GetOr("")
  }

  /** The selection that disables the type filter. */
  const AllTypes: string := "All"

  /** The choices the type selector offers. */
  const TypeChoices: seq<string> := ["All", "VTT", "City", "Electric"]

  /** The types the administrator's bike form stores, in the order of the
      selector choices they are meant to match. */
  const FormTypes: seq<string> := ["Vtt", "City", "Electric"]

  /** Whether a bike passes the type filter for `selected`. */
  predicate MatchesType(selected: string, b: Listing) {
    selected == AllTypes || Text.Lower(b.category) == Text.Lower(selected)
  }

  /** `filteredBikes`: the catalogue, in order, restricted to the selected
      type, compared without regard to letter case. */
  function FilterByType(bikes: seq<Listing>, selected: string): (r: seq<Listing>)
    ensures forall b :: b in r <==> b in bikes && MatchesType(selected, b)
    ensures forall b :: multiset(r)[b] == if MatchesType(selected, b) then multiset(bikes)[b] else 0
    ensures Seqs.IsSubsequence(r, bikes)
  {
    Seqs.FilterIsSubsequence(bikes, b => MatchesType(selected, b));
    forall b
      ensures multiset(Seqs.Filter(bikes, b => MatchesType(selected, b)))[b]
              == if MatchesType(selected, b) then multiset(bikes)[b] else 0
    {
      Seqs.FilterMultiplicity(bikes, b => MatchesType(selected, b), b);
    }
    Seqs.Filter(bikes, b => MatchesType(selected, b))
  }

  /** Selecting "All" shows the whole catalogue. */
  lemma FilterAllIsIdentity(bikes: seq<Listing>)
    ensures FilterByType(bikes, AllTypes) == bikes
  {
    Seqs.FilterKeepsAll(bikes, b => MatchesType(AllTypes, b));
  }

  /** Two selections that differ only in letter case filter alike, unless
      one of them is exactly "All". */
  lemma FilterCaseInsensitive(bikes: seq<Listing>, sel1: string, sel2: string)
    requires Text.Lower(sel1) == Text.Lower(sel2)
    requires sel1 != AllTypes && sel2 != AllTypes
    ensures FilterByType(bikes, sel1) == FilterByType(bikes, sel2)
  {
    Seqs.FilterCongruent(bikes, b => MatchesType(sel1, b), b => MatchesType(sel2, b));
  }

  /** A bike stored by the admin form is shown under "All" and under the
      one selector choice of its type, and under no other: letter case is
      what the lower-casing reconciles ("Vtt" against "VTT"). */
  lemma FormTypeShownUnderItsChoice(b: Listing, i: nat, j: nat)
    requires i < |FormTypes| && j < |TypeChoices|
    requires b.category == FormTypes[i]
    ensures MatchesType(TypeChoices[j], b) <==> j == 0 || j == i + 1
  {
    assert Text.Lower("Vtt") == "vtt" && Text.Lower("VTT") == "vtt";
    assert Text.Lower("City") == "city" && Text.Lower("Electric") == "electric";
  }

  /** The selector's types are not the schema's: every choice except "All"
      empties a catalogue whose types are the schema's names. */
  lemma TypeChoicesMatchNoStoredBike(bikes: seq<Listing>, selected: string)
    requires selected in TypeChoices && selected != AllTypes
    requires forall b :: b in bikes ==> Velos.ParseType(b.category).Some?
    ensures FilterByType(bikes, selected) == []
  {
    forall b | b in bikes
      ensures !MatchesType(selected, b)
    {
      assert |Text.Lower(b.category)| != |Text.Lower(selected)|;
    }
    Seqs.FilterNone(bikes, b => MatchesType(selected, b));
  }

  /** `favoriteBikes`: the catalogue bikes whose key is a favourite, in
      catalogue order. */
  function FavoriteBikes(bikes: seq<Listing>, favorites: seq<string>): (r: seq<Listing>)
    ensures forall b :: b in r <==> b in bikes && FavKey(b) in favorites
    ensures forall b :: multiset(r)[b] == if FavKey(b) in favorites then multiset(bikes)[b] else 0
    ensures Seqs.IsSubsequence(r, bikes)
  {
    Seqs.FilterIsSubsequence(bikes, b => FavKey(b) in favorites);
    forall b
      ensures multiset(Seqs.Filter(bikes, b => FavKey(b) in favorites))[b]
              == if FavKey(b) in favorites then multiset(bikes)[b] else 0
    {
      Seqs.FilterMultiplicity(bikes, b => FavKey(b) in favorites, b);
    }
    Seqs.Filter(bikes, b => FavKey(b) in favorites)
  }

  datatype Page = Home | BikesPage | ContactPage | Login | Register | Favorites | Reservations | AdminPage

  /** The client state these handlers touch. */
  datatype App = App(page: Page, user: Option<Users.UserDoc>, favorites: seq<string>)

  /** The favourites list once a toggle of `bikeId` has been accepted: the
      id removed everywhere it occurs, or appended when absent. */
  function Toggled(favorites: seq<string>, bikeId: string): (r: seq<string>)
    ensures bikeId in r <==> bikeId !in favorites
    ensures forall x :: x != bikeId ==> (x in r <==> x in favorites)
    ensures forall x :: x != bikeId ==> multiset(r)[x] == multiset(favorites)[x]
    ensures bikeId !in favorites ==> r == favorites + [bikeId]
    ensures bikeId in favorites ==> Seqs.IsSubsequence(r, favorites)
  {
    if bikeId in favorites then
      Seqs.FilterIsSubsequence(favorites, x => x != bikeId);
      assert forall x :: x != bikeId ==> multiset(Seqs.Filter(favorites, y => y != bikeId))[x] == multiset(favorites)[x] by {
        forall x | x != bikeId
          ensures multiset(Seqs.Filter(favorites, y => y != bikeId))[x] == multiset(favorites)[x]
        {
          Seqs.FilterMultiplicity(favorites, y => y != bikeId, x);
        }
      }
      Seqs.Filter(favorites, x => x != bikeId)
    else favorites + [bikeId]
  }

  /** `toggleFavorite`. Without a user, the app moves to the login page and
      the list is kept; otherwise the list changes only when the server
      accepted the request (`ok`). */
  function ToggleFavorite(a: App, bikeId: string, ok: bool): (r: App)
    ensures r.user == a.user
    ensures a.user.None? ==> r.page == Login && r.favorites == a.favorites
    ensures a.user.Some? ==> r.page == a.page
    ensures a.user.None? || !ok ==> r.favorites == a.favorites
    ensures a.user.Some? && ok ==> r.favorites == Toggled(a.favorites, bikeId)
    ensures a.user.Some? && ok ==>
      && (bikeId in r.favorites <==> bikeId !in a.favorites)
      && (forall x :: x != bikeId ==> (x in r.favorites <==> x in a.favorites))
  {
    if a.user.None? then a.(page := Login)
    else if ok then a.(favorites := Toggled(a.favorites, bikeId))
    else a
  }

  /** A list without repeated ids keeps that property under toggling. */
  lemma ToggledKeepsDistinct(favorites: seq<string>, bikeId: string)
    requires Seqs.Distinct(favorites)
    ensures Seqs.Distinct(Toggled(favorites, bikeId))
  {
    if bikeId in favorites {
      Seqs.FilterKeepsDistinct(favorites, x => x != bikeId);
    }
  }

  /** Adding an absent id and then removing it restores the list. */
  lemma ToggleTwiceRestores(favorites: seq<string>, bikeId: string)
    requires bikeId !in favorites
    ensures Toggled(Toggled(favorites, bikeId), bikeId) == favorites
  {
    var added := favorites + [bikeId];
    Seqs.FilterAppend(favorites, [bikeId], x => x != bikeId);
    Seqs.FilterKeepsAll(favorites, x => x != bikeId);
    assert Seqs.Filter([bikeId], x => x != bikeId) == [];
  }

  /** After a login: administrators land on the dashboard, everyone else on
      the home page. The favourites fetched for the user replace the list
      when the fetch returned a list. */
  function LoginSuccess(a: App, u: Users.UserDoc, fetched: Option<seq<string>>): (r: App)
    ensures r.user == Some(u)
    ensures r.page == AdminPage <==> u.role == Users.Admin
    ensures r.page != AdminPage ==> r.page == Home
    ensures fetched.Some? ==> r.favorites == fetched.value
    ensures fetched.None? ==> r.favorites == a.favorites
  {
    App(if u.role == Users.Admin then AdminPage else Home, Some(u), fetched.GetOr(a.favorites))
  }

  /** `handleLogout`: no user, home page, and (through the user effect) no
      favourites. */
  function Logout(a: App): (r: App)
    ensures r.user.None? && r.page == Home && r.favorites == []
  {
    App(Home, None, [])
  }

  /** A session after a login: a confirmed toggle of a bike that is not
      yet a favourite adds it and keeps the landing page, and a second
      confirmed toggle brings back exactly the state the login produced. */
  lemma {:induction false} ToggleTwiceAfterLogin(a: App, u: Users.UserDoc, fetched: seq<string>, bikeId: string)
    requires bikeId !in fetched
    ensures var s := LoginSuccess(a, u, Some(fetched));
            var t := ToggleFavorite(s, bikeId, true);
            && t.favorites == fetched + [bikeId]
            && (t.page == AdminPage <==> u.role == Users.Admin)
            && ToggleFavorite(t, bikeId, true) == s
  {
    ToggleTwiceRestores(fetched, bikeId);
  }
}
