/** The record shapes and enumerations of the announcement system
    (src/types/index.ts). Instants are milliseconds since the epoch. */
module Types {
  import opened Common

  /** The four kinds of announcement. */
  datatype AnnType = Feature | Update | News | Bugfix

  /** The three priorities. */
  datatype Priority = Low | Medium | High

  /** The four lifecycle stages. */
  datatype Status = Draft | Scheduled | Published | Archived

  /** The stages a newly created announcement may carry: `archived` is not one. */
  datatype CreateStatus = CreateDraft | CreateScheduled | CreatePublished

  /** The lifecycle stage a creation status is stored as. */
  function StatusOf(c: CreateStatus): (s: Status)
    ensures s != Archived
    ensures (s == Draft) == (c == CreateDraft)
    ensures (s == Scheduled) == (c == CreateScheduled)
    ensures (s == Published) == (c == CreatePublished)
  {
    match c
    case CreateDraft => Draft
    case CreateScheduled => Scheduled
    case CreatePublished => Published
  }

  /** The wire names of the statuses, as stored in the `status` column. */
  function StatusName(s: Status): string {
    match s
    case Draft => "draft"
    case Scheduled => "scheduled"
    case Published => "published"
    case Archived => "archived"
  }

  /** An announcement as the admin console holds it. `scheduledAt` and
      `publishedAt` are optional; `createdAt` and `updatedAt` always exist. */
  datatype Announcement = Announcement(
    id: string,
    userId: string,
    title: string,
    content: string,
    kind: AnnType,
    priority: Priority,
    status: Status,
    scheduledAt: Option<int>,
    publishedAt: Option<int>,
    timezone: string,
    imageUrl: Option<string>,
    linkUrl: Option<string>,
    linkText: Option<string>,
    createdAt: int,
    updatedAt: int)

  /** The public projection of a published announcement that the
      announcements endpoint returns and the embeddable widget consumes. */
  datatype Summary = Summary(
    id: string,
    title: string,
    content: string,
    kind: AnnType,
    priority: Priority,
    status: Status,
    publishedAt: Option<int>,
    createdAt: int,
    imageUrl: Option<string>,
    linkUrl: Option<string>,
    linkText: Option<string>)

  /** The wire names of the announcement types. */
  function TypeName(t: AnnType): string {
    match t
    case Feature => "feature"
    case Update => "update"
    case News => "news"
    case Bugfix => "bugfix"
  }

  /** The data the creation form hands to `addAnnouncement`. */
  datatype CreateData = CreateData(
    title: string,
    content: string,
    kind: AnnType,
    priority: Priority,
    status: CreateStatus,
    scheduledAt: Option<int>,
    timezone: string,
    imageUrl: Option<string>,
    linkUrl: Option<string>,
    linkText: Option<string>)

  /** Distinct statuses have distinct wire names, so the name identifies the status. */
  lemma StatusNamesDistinct(s: Status, s': Status)
    ensures StatusName(s) == StatusName(s') <==> s == s'
  {
  }
}
