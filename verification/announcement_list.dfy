/** The admin list (src/components/admin/AnnouncementList.tsx): which view
    is drawn, the header counts, which dates an item shows and the status
    update each item's button offers. */
module AnnouncementList {
  import opened Common
  import opened Types
  import Analytics
  import H = AnnouncementsHook
  import W = AnnouncementWidget

  /** What the component draws. */
  datatype View = Skeleton | ErrorBanner(text: string) | Listing(items: seq<Announcement>)

  /** Loading wins over an error, and an error over the list. */
  function ViewFor(loading: bool, error: Option<string>, anns: seq<Announcement>): (v: View)
    ensures v.Skeleton? <==> loading
    ensures v.ErrorBanner? <==> !loading && Truthy(error)
    ensures v.ErrorBanner? ==> v.text == error.value
    ensures v.Listing? <==> !loading && !Truthy(error)
    ensures v.Listing? ==> v.items == anns
  {
    if loading then Skeleton
    else if Truthy(error) then ErrorBanner(error.value)
    else Listing(anns)
  }

  /** The header: the total and the number published. */
  function HeaderCounts(anns: seq<Announcement>): (c: (nat, nat))
    ensures c.0 == |anns| && c.1 <= c.0
    ensures c.1 == 0 <==> forall i :: 0 <= i < |anns| ==> anns[i].status != Published
  {
    (|anns|, Analytics.CountStatus(anns, Published))
  }

  /** The header's published count is the length of the published filter
      the widget (once corrected) applies to the same list. */
  lemma {:induction false} HeaderMatchesPublishedFilter(anns: seq<Announcement>)
    ensures HeaderCounts(anns).1 == |W.PublishedOnly(anns)|
    decreases |anns|
  {
    if anns != [] {
      HeaderMatchesPublishedFilter(anns[1..]);
    }
  }

  /** The schedule line is shown for a scheduled item that has an instant. */
  predicate ShowsSchedule(a: Announcement) {
    a.status == Scheduled && a.scheduledAt.Some?
  }

  /** The publish date is shown for a published item that has an instant. */
  predicate ShowsPublished(a: Announcement) {
    a.status == Published && a.publishedAt.Some?
  }

  /** An item shows at most one of the two dates. */
  lemma DatesExclusive(a: Announcement)
    ensures !(ShowsSchedule(a) && ShowsPublished(a))
    ensures ShowsSchedule(a) ==> a.status != Published
  {
  }

  /** An item published through the creation form shows its publish date
      and no schedule line. */
  lemma CreatedPublishedShowsDate(l: H.Local, uid: string, d: CreateData, now: int, reply: H.InsertReply)
    requires d.status == CreatePublished && reply.InsertOk?
    ensures H.AddAnnouncement(l, Some(uid), d, now, reply).outcome.Ok?
    ensures ShowsPublished(H.AddAnnouncement(l, Some(uid), d, now, reply).outcome.value)
    ensures !ShowsSchedule(H.AddAnnouncement(l, Some(uid), d, now, reply).outcome.value)
  {
  }

  /** The buttons an item offers besides edit (which does nothing) and delete. */
  datatype Button = Publish | PublishNow | Archive

  /** The status button of an item, if any. */
  function ButtonFor(s: Status): Option<Button> {
    match s
    case Draft => Some(Publish)
    case Scheduled => Some(PublishNow)
    case Published => Some(Archive)
    case Archived => None
  }

  /** The status the button asks `onUpdate` for: drafts and scheduled items
      can be published, published ones archived, archived ones nothing. */
  function OfferedStatus(s: Status): (t: Option<Status>)
    ensures t == Some(Published) <==> s == Draft || s == Scheduled
    ensures t == Some(Archived) <==> s == Published
    ensures t.None? <==> s == Archived
    ensures t.None? <==> ButtonFor(s).None?
  {
    match ButtonFor(s)
    case Some(Publish) => Some(Published)
    case Some(PublishNow) => Some(Published)
    case Some(Archive) => Some(Archived)
    case None => None
  }

  /** The update the item's button sends, which names only the status. */
  function OfferedUpdate(a: Announcement): (u: Option<H.Updates>)
    ensures u.Some? <==> a.status != Archived
    ensures u.Some? ==> u.value.status.Some? && u.value.status.value != a.status
    ensures u.Some? ==> u.value == H.StatusOnly(u.value.status.value)
  {
    match OfferedStatus(a.status)
    case Some(t) => Some(H.StatusOnly(t))
    case None => None
  }

  /** Following the offered buttons, every item reaches `archived` in at most
      two steps and nothing is offered after that: the buttons never lead
      back to `draft` or `scheduled`. */
  lemma OfferedPathsEndArchived(s: Status)
    ensures OfferedStatus(s).Some? ==> OfferedStatus(s).value in {Published, Archived}
    ensures OfferedStatus(s).Some? && OfferedStatus(OfferedStatus(s).value).Some?
      ==> OfferedStatus(OfferedStatus(s).value) == Some(Archived)
          && OfferedStatus(Archived).None?
  {
  }

  /** Clicking a publish button on a stored row re-stamps its publish
      instant with the click's `now`, even when the row already had one. */
  lemma PublishButtonStamps(l: H.Local, a: Announcement, now: int)
    requires a.status == Draft || a.status == Scheduled
    ensures H.UpdateAnnouncement(l, a.id, OfferedUpdate(a).value, now, H.Current(a)).outcome.Ok?
    ensures H.UpdateAnnouncement(l, a.id, OfferedUpdate(a).value, now, H.Current(a)).outcome.value.publishedAt == Some(now)
    ensures H.UpdateAnnouncement(l, a.id, OfferedUpdate(a).value, now, H.Current(a)).outcome.value.status == Published
  {
    H.PublishRestamps(a, OfferedUpdate(a).value, now);
  }

  /** The hook itself enforces no lifecycle: an update that moves an
      archived row back to draft succeeds, keeping the publish instant. */
  lemma HookAcceptsAnyStatus(l: H.Local, a: Announcement, now: int)
    requires a.status == Archived
    ensures OfferedUpdate(a).None?
    ensures H.UpdateAnnouncement(l, a.id, H.StatusOnly(Draft), now, H.Current(a)).outcome.Ok?
    ensures H.UpdateAnnouncement(l, a.id, H.StatusOnly(Draft), now, H.Current(a)).outcome.value.status == Draft
    ensures H.UpdateAnnouncement(l, a.id, H.StatusOnly(Draft), now, H.Current(a)).outcome.value.publishedAt == a.publishedAt
  {
  }
}
