/** The display decisions of components/PostCard.js. */
module PostCard {
  import opened Wrappers

  /** `isScheduledPost`: the post has a public release time (milliseconds
      since the epoch) that is still in the future. */
  predicate IsScheduled(publicReleaseTime: Option<int>, now: int) {
    publicReleaseTime.Some? && publicReleaseTime.value > now
  }

  /** Which optional parts of the card are drawn. */
  datatype CardView = CardView(
    dimmed: bool,          // the image gets `opacity-60`
    scheduledBadge: bool,  // the "Scheduled for …" badge
    likeButton: bool,
    deleteButton: bool)

  /** The card for a post, with the component's default props
      (`isOwnProfile = false`, `showLikeButton = true`, `onDelete = null`). */
  function Render(publicReleaseTime: Option<int>, now: int, isOwnProfile: bool := false,
                  showLikeButton: bool := true, hasOnDelete: bool := false): (v: CardView)
    ensures v.dimmed <==> isOwnProfile && publicReleaseTime.Some? && publicReleaseTime.value > now
    ensures v.scheduledBadge == v.dimmed
    ensures v.likeButton <==> showLikeButton
    ensures v.deleteButton <==> hasOnDelete
  {
    var scheduled := IsScheduled(publicReleaseTime, now);
    CardView(isOwnProfile && scheduled, isOwnProfile && scheduled, showLikeButton, hasOnDelete)
  }

  /** With the default props a card shows a like button and no badge,
      dimming or delete button, whatever the release time. */
  lemma DefaultCard(publicReleaseTime: Option<int>, now: int)
    ensures Render(publicReleaseTime, now) == CardView(false, false, true, false)
  {
  }

  /** Scheduling is strictly in the future: a release time of now, or no
      release time, is not scheduled, and a scheduled post stops being
      scheduled once time reaches its release. */
  lemma ScheduledUntilRelease(release: int, now: int, later: int)
    requires IsScheduled(Some(release), now) && later >= release
    ensures now < release
    ensures !IsScheduled(Some(release), later)
    ensures !IsScheduled(None, now)
  {
  }
}
