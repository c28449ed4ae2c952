/** The "People You Follow" page app/my-favorites/page.js: each fetched
    favourite is joined with the user found by the search route, and
    unfollowing drops it from the list. */
module MyFavorites {
  import opened Wrappers
  import opened Text
  import opened Lists
  import opened Store
  import opened FavoritesRoute

  /** A user as `/api/search-users` returns it, or the fallback
      `{ username }`. The search route projects only `name` and `username`
      (app/api/search-users/route.js:18), so a profile never has an
      `image`. */
  datatype Profile = Profile(username: Option<string>, name: Option<string>)

  /** An element of the page's `favorites` state: the fetched item's
      `favoritedUsername` and the user attached to it. */
  datatype Entry = Entry(favoritedUsername: Option<string>, user: Profile)

  /** `users.find(u => u.username === key)`. */
  function FindProfile(results: seq<Profile>, key: Option<string>): (r: Option<Profile>)
    ensures r.None? <==> forall i :: 0 <= i < |results| ==> results[i].username != key
    ensures r.Some? ==> r.value in results && r.value.username == key
  {
    if results == [] then None
    else if results[0].username == key then Some(results[0])
    else FindProfile(results[1..], key)
  }

  /** `{ ...fav, user: user || { username: fav.favoritedUsername } }`. */
  function MergeOne(key: Option<string>, results: seq<Profile>): (e: Entry)
    ensures e.favoritedUsername == key && e.user.username == key
    ensures e.user in results || e.user == Profile(key, None)
    ensures FindProfile(results, key).None? ==> e.user == Profile(key, None)
  {
    var found := FindProfile(results, key);
    Entry(key, if found.Some? then found.value else Profile(key, None))
  }

  /** The `map` over the fetched favourites and `Promise.all`:
      `lookup(key)` is what the search route returned for that key. The
      list keeps its length and order, and every element carries a user
      whose username is its key. */
  function Merge(keys: seq<Option<string>>, lookup: Option<string> -> seq<Profile>): (r: seq<Entry>)
    ensures |r| == |keys|
    ensures forall i :: 0 <= i < |keys| ==> r[i] == MergeOne(keys[i], lookup(keys[i]))
    ensures forall i :: 0 <= i < |keys| ==> r[i].favoritedUsername == keys[i] && r[i].user.username == keys[i]
  {
    Map(keys, (k: Option<string>) => MergeOne(k, lookup(k)))
  }

  /** `favorites.filter(fav => fav.favoritedUsername !== username)`; the
      Unfollow button of a card passes that card's `favoritedUsername`,
      which may be undefined. */
  function Unfollow(entries: seq<Entry>, username: Option<string>): (r: seq<Entry>)
    ensures |r| <= |entries|
    ensures forall e :: e in r ==> e in entries && e.favoritedUsername != username
    ensures forall e :: e in entries && e.favoritedUsername != username ==> e in r
  {
    Filter(entries, (e: Entry) => e.favoritedUsername != username)
  }

  /** Unfollowing keeps the remaining entries in their order. */
  lemma UnfollowKeepsOrder(a: seq<Entry>, b: seq<Entry>, username: Option<string>)
    ensures Unfollow(a + b, username) == Unfollow(a, username) + Unfollow(b, username)
  {
    FilterAppend(a, b, (e: Entry) => e.favoritedUsername != username);
  }

  /** Why drawing the list throws. */
  datatype RenderError = CharAtOfUndefined

  /** The avatar of a card: the user's `image` when it has one, which a
      search result never has, so always the upper-cased first letter of
      the card's key; `charAt` on an undefined key throws. */
  function Avatar(e: Entry): (r: Result<string, RenderError>)
    ensures r.Failure? <==> e.favoritedUsername.None?
    ensures r.Success? ==> |r.value| <= 1
    ensures r.Success? && e.favoritedUsername.value != [] ==>
      r.value == UpperAscii(e.favoritedUsername.value[..1])
  {
    match e.favoritedUsername
    case None => Failure(CharAtOfUndefined)
    case Some(key) => Success(if key == [] then [] else UpperAscii(key[..1]))
  }

  /** The avatars of the drawn cards, in order; drawing throws as soon as
      one card's avatar does. */
  function Avatars(entries: seq<Entry>): (r: Result<seq<string>, RenderError>)
    ensures r.Failure? <==> exists i :: 0 <= i < |entries| && entries[i].favoritedUsername.None?
    ensures r.Success? ==> |r.value| == |entries|
    ensures r.Success? ==> forall i :: 0 <= i < |entries| ==> Avatar(entries[i]) == Success(r.value[i])
  {
    if entries == [] then Success([])
    else
      match Avatar(entries[0])
      case Failure(err) => Failure(err)
      case Success(first) =>
        match Avatars(entries[1..])
        case Failure(err) =>
          var i :| 0 <= i < |entries[1..]| && entries[1..][i].favoritedUsername.None?;
          assert entries[i + 1].favoritedUsername.None?;
          Failure(err)
        case Success(rest) => Success([first] + rest)
  }

  // ---------------------------------------------------------------------
  // Reading the GET /api/favorites response

  /** A property read `doc.<field>` on a user document. */
  function Field(u: User, field: string): (r: Option<string>)
    ensures field == "username" ==> r == u.username
    ensures field !in {"email", "password", "name", "username", "image"} ==> r == None
  {
    if field == "email" then Some(u.email)
    else if field == "password" then u.password
    else if field == "name" then u.name
    else if field == "username" then u.username
    else if field == "image" then u.image
    else None
  }

  /** As written: the page reads `fav.favoritedUsername` from the elements
      of the response, which are user documents. */
  function KeysAsWritten(items: seq<User>): (r: seq<Option<string>>)
    ensures |r| == |items|
    ensures forall k :: k in r ==> k == None
  {
    Map(items, (u: User) => Field(u, "favoritedUsername"))
  }

  /** Every key read as written is undefined, and so is the username the
      Unfollow button of any card passes: unfollowing one card empties the
      whole list. */
  lemma AsWrittenUnfollowClearsAll(items: seq<User>, lookup: Option<string> -> seq<Profile>, i: nat)
    requires i < |items|
    ensures forall k :: k in KeysAsWritten(items) ==> k == None
    ensures var entries := Merge(KeysAsWritten(items), lookup);
      Unfollow(entries, entries[i].favoritedUsername) == []
  {
    var entries := Merge(KeysAsWritten(items), lookup);
    FilterNone(entries, (e: Entry) => e.favoritedUsername != entries[i].favoritedUsername);
  }

  /** As written, drawing a non-empty list throws: the first card has no
      image and an undefined key, so its avatar letter cannot be read. No
      card, and so no Unfollow button, is ever drawn. */
  lemma AsWrittenRenderThrows(items: seq<User>, lookup: Option<string> -> seq<Profile>)
    requires items != []
    ensures Avatars(Merge(KeysAsWritten(items), lookup)) == Failure(CharAtOfUndefined)
  {
    var keys := KeysAsWritten(items);
    assert keys[0] in keys;
  }

  /** Corrected: the key of a user document is its `username`. */
  function KeysCorrected(items: seq<User>): (r: seq<Option<string>>)
    ensures |r| == |items|
    ensures forall i :: 0 <= i < |items| ==> r[i] == items[i].username
  {
    Map(items, (u: User) => Field(u, "username"))
  }

  /** With the corrected keys, card `j` is keyed by the username of a user
      the caller follows. */
  lemma CorrectedKeysFollowed(favs: seq<Favorite>, users: seq<User>, session: Session,
                              lookup: Option<string> -> seq<Profile>, j: nat)
    requires j < |Get(favs, users, Some(session)).items|
    ensures var entries := Merge(KeysCorrected(Get(favs, users, Some(session)).items), lookup);
      entries[j].favoritedUsername.Some? && HasEdge(favs, session.email, entries[j].favoritedUsername.value)
  {
    var items := Get(favs, users, Some(session)).items;
    assert items[j] in items;
  }

  /** With the corrected keys every card is keyed by the username of a user
      the caller follows, so the `DELETE` for that username removes a real
      edge and the list draws without throwing; unfollowing card `i` removes
      that card and keeps every card of another user. */
  lemma CorrectedUnfollowRemovesOne(favs: seq<Favorite>, users: seq<User>, session: Session,
                                    lookup: Option<string> -> seq<Profile>, i: nat)
    requires i < |Get(favs, users, Some(session)).items|
    ensures var entries := Merge(KeysCorrected(Get(favs, users, Some(session)).items), lookup);
      forall e :: e in entries ==>
        e.favoritedUsername.Some? && HasEdge(favs, session.email, e.favoritedUsername.value)
    ensures Avatars(Merge(KeysCorrected(Get(favs, users, Some(session)).items), lookup)).Success?
    ensures var entries := Merge(KeysCorrected(Get(favs, users, Some(session)).items), lookup);
      var r := Unfollow(entries, entries[i].favoritedUsername);
      entries[i] !in r &&
      forall e :: e in entries && e.favoritedUsername != entries[i].favoritedUsername ==> e in r
  {
    var items := Get(favs, users, Some(session)).items;
    var entries := Merge(KeysCorrected(items), lookup);
    forall j | 0 <= j < |entries|
      ensures entries[j].favoritedUsername.Some? && HasEdge(favs, session.email, entries[j].favoritedUsername.value)
    {
      CorrectedKeysFollowed(favs, users, session, lookup, j);
    }
  }

  /** The users of the concrete case below, followed by the caller. */
  function Bob(): User { User("bob@example.com", None, Some("Bob"), Some("bob"), None, 0) }
  function Carol(): User { User("carol@example.com", None, Some("Carol"), Some("carol"), None, 0) }

  /** A search that finds nobody, so every card gets the fallback user. */
  function NoResults(k: Option<string>): seq<Profile> { [] }

  /** A concrete case: the caller follows "bob" and "carol" and presses
      Unfollow on bob's card. As written both cards go. */
  lemma UnfollowExampleAsWritten()
    ensures var written := Merge(KeysAsWritten([Bob(), Carol()]), NoResults);
      Unfollow(written, written[0].favoritedUsername) == []
  {
    AsWrittenUnfollowClearsAll([Bob(), Carol()], NoResults, 0);
  }

  /** The same case corrected: only bob's card goes, carol's stays. */
  lemma UnfollowExampleCorrected()
    ensures var fixed := Merge(KeysCorrected([Bob(), Carol()]), NoResults);
      Unfollow(fixed, fixed[0].favoritedUsername) == [Entry(Some("carol"), Profile(Some("carol"), None))]
  {
    var keys := KeysCorrected([Bob(), Carol()]);
    assert keys[0] == Some("bob") && keys[1] == Some("carol");
    var fixed := Merge(keys, NoResults);
    var b := Entry(Some("bob"), Profile(Some("bob"), None));
    var c := Entry(Some("carol"), Profile(Some("carol"), None));
    assert fixed[0] == b && fixed[1] == c;
    assert fixed == [b] + [c];
    UnfollowKeepsOrder([b], [c], Some("bob"));
    assert Unfollow([b], Some("bob")) == [];
    assert Unfollow([c], Some("bob")) == [c];
  }

  // ---------------------------------------------------------------------
  // The page state

  class Page {
    var favorites: seq<Entry>
    var isLoading: bool

    constructor ()
      ensures favorites == [] && isLoading
    {
      favorites := [];
      isLoading := true;
    }

    /** `fetchFavorites`: nothing happens without a signed-in email;
        otherwise the response `items` (user documents) are merged with
        the search results, keyed as written by the (absent)
        `favoritedUsername` of each user document. */
    method FetchFavorites(email: Option<string>, items: seq<User>, lookup: Option<string> -> seq<Profile>)
      modifies this
      ensures email.None? || email == Some("") ==> favorites == old(favorites) && isLoading == old(isLoading)
      ensures email.Some? && email != Some("") ==>
        favorites == Merge(KeysAsWritten(items), lookup) && !isLoading
    {
      if email.None? || email == Some("") {
        return;
      }
      isLoading := true;
      favorites := Merge(KeysAsWritten(items), lookup);
      isLoading := false;
    }

    /** `handleUnfollow(username)`, with the `username` a card's Unfollow
        button passes: after the `DELETE` request every entry with that key
        goes; when the request throws, nothing changes. */
    method HandleUnfollow(username: Option<string>, requestFailed: bool)
      modifies this`favorites
      ensures requestFailed ==> favorites == old(favorites)
      ensures !requestFailed ==> favorites == Unfollow(old(favorites), username)
    {
      if !requestFailed {
        favorites := Unfollow(favorites, username);
      }
    }
  }
}
