/** `GET` and `POST /api/viewing-history`
    (app/api/viewing-history/route.js): recording profile views and
    listing the caller's recent ones. */
module ViewingHistoryRoute {
  import opened Wrappers
  import opened Text
  import opened Lists
  import opened Store

  /** `viewingHistory.maxAgeDays` and `viewingHistory.maxEntries` of
      lib/config.js. */
  const MaxAgeDays := 7
  const MaxEntries := 50
  const DayMs := 86_400_000

  /** `cutoffDate.setDate(cutoffDate.getDate() - maxAgeDays)`, in
      milliseconds, for a day without a clock change. */
  function Cutoff(now: int): int { now - MaxAgeDays * DayMs }

  function ViewedAt(v: View): int { v.viewedAt }

  /** `find({ userEmail, viewedAt: { $gte: cutoffDate } })`. */
  function Recent(views: seq<View>, email: string, now: int): seq<View> {
    Filter(views, (v: View) => v.userEmail == email && v.viewedAt >= Cutoff(now))
  }

  /** `.sort({ viewedAt: -1 }).limit(maxEntries)` on the recent views. */
  function Listed(views: seq<View>, email: string, now: int): seq<View> {
    Take(SortDesc(Recent(views, email, now), ViewedAt), MaxEntries)
  }

  /** Only the caller's views from the last seven days, newest first, at
      most fifty of them. */
  lemma ListedWithin(views: seq<View>, email: string, now: int)
    ensures |Listed(views, email, now)| <= MaxEntries
    ensures SortedDesc(Listed(views, email, now), ViewedAt)
    ensures forall v :: v in Listed(views, email, now) ==>
      v in views && v.userEmail == email && v.viewedAt >= now - 7 * 86_400_000
  {
    var sorted := SortDesc(Recent(views, email, now), ViewedAt);
    TakeSorted(sorted, MaxEntries, ViewedAt);
    forall v | v in Listed(views, email, now)
      ensures v in views && v.userEmail == email && v.viewedAt >= Cutoff(now)
    {
      assert v in multiset(sorted);
    }
  }

  /** A recent view is left out only when fifty views at least as new are
      listed. */
  lemma ListedTop(views: seq<View>, email: string, now: int, v: View)
    requires v in Recent(views, email, now) && v !in Listed(views, email, now)
    ensures |Listed(views, email, now)| == MaxEntries
    ensures forall i :: 0 <= i < MaxEntries ==> Listed(views, email, now)[i].viewedAt >= v.viewedAt
  {
    var sorted := SortDesc(Recent(views, email, now), ViewedAt);
    assert v in multiset(Recent(views, email, now));
    TakeTop(sorted, MaxEntries, ViewedAt, v);
  }

  /** The `GET` handler. */
  function Get(views: seq<View>, session: Option<Session>, now: int): (r: Listing<View>)
    ensures r.Unauthorized? <==> session.None?
    ensures r.Ok? ==> |r.items| <= MaxEntries && SortedDesc(r.items, ViewedAt)
    ensures r.Ok? ==> forall v :: v in r.items ==>
      v in views && v.userEmail == session.value.email && v.viewedAt >= now - 7 * 86_400_000
    ensures r.Ok? ==> r.items == Listed(views, session.value.email, now)
  {
    if session.None? then Unauthorized
    else
      ListedWithin(views, session.value.email, now);
      Ok(Listed(views, session.value.email, now))
  }

  /** When the caller has at most `MaxEntries` recent views, all of them
      are listed. */
  lemma ListedAllWhenFew(views: seq<View>, email: string, now: int)
    requires |Recent(views, email, now)| <= MaxEntries
    ensures multiset(Listed(views, email, now)) == multiset(Recent(views, email, now))
  {
  }

  const Unauthorized401 := Response(401, "Unauthorized")
  const OwnProfile := Response(200, "Own profile")
  const UserNotFound := Response(404, "User not found")
  const Recorded := Response(200, "Success")

  /** The document recorded for a view of the user `u`. */
  function ViewOf(email: string, viewedUsername: string, u: User, now: int): (v: View)
    ensures v.userEmail == email && v.viewedUsername == viewedUsername && v.viewedAt == now
    ensures Truthy(u.name) ==> v.viewedUserName == u.name.value
    ensures !Truthy(u.name) ==> v.viewedUserName == viewedUsername
    ensures Truthy(u.image) ==> v.viewedUserImage == u.image
    ensures !Truthy(u.image) ==> v.viewedUserImage == None
  {
    View(email, viewedUsername, OrElse(u.name, viewedUsername),
         if Truthy(u.image) then u.image else None, now)
  }

  /** The `POST` handler. */
  method Post(db: Database, session: Option<Session>, viewedUsername: string, now: int) returns (resp: Response)
    modifies db`viewingHistory
    ensures session.None? ==> resp == Unauthorized401 && db.viewingHistory == old(db.viewingHistory)
    ensures session.Some? && session.value.username == Some(viewedUsername) ==>
      resp == OwnProfile && db.viewingHistory == old(db.viewingHistory)
    ensures session.Some? && session.value.username != Some(viewedUsername) &&
            FindUserByUsername(db.users, viewedUsername).None? ==>
      resp == UserNotFound && db.viewingHistory == old(db.viewingHistory)
    ensures session.Some? && session.value.username != Some(viewedUsername) &&
            FindUserByUsername(db.users, viewedUsername).Some? ==>
      resp == Recorded &&
      db.viewingHistory == old(db.viewingHistory) +
        [ViewOf(session.value.email, viewedUsername, FindUserByUsername(db.users, viewedUsername).value, now)]
  {
    if session.None? {
      return Unauthorized401;
    }
    if session.value.username == Some(viewedUsername) {
      return OwnProfile;
    }
    var viewed := FindUserByUsername(db.users, viewedUsername);
    if viewed.None? {
      return UserNotFound;
    }
    db.viewingHistory := db.viewingHistory + [ViewOf(session.value.email, viewedUsername, viewed.value, now)];
    return Recorded;
  }
}
