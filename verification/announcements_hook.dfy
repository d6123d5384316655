/** The announcement store hook (src/hooks/useAnnouncements.ts): the row
    `addAnnouncement` inserts, the partial update `updateAnnouncement`
    sends with its `published_at` stamping, and the local list's prepend,
    replace-by-id and remove-by-id. The record store is external: its reply
    (the generated id and creation instant, the current row for an id, or
    an error) is an input. */
module AnnouncementsHook {
  import opened Common
  import opened Types

  /** The hook's local state: the cached list and the error banner text. */
  datatype Local = Local(items: seq<Announcement>, error: Option<string>)

  // ---------------------------------------------------------------------
  // Insert

  /** The columns `addAnnouncement` sends to the store. */
  datatype InsertRow = InsertRow(
    userId: string,
    title: string,
    content: string,
    kind: AnnType,
    priority: Priority,
    status: Status,
    scheduledAt: Option<int>,
    timezone: string,
    imageUrl: Option<string>,
    linkUrl: Option<string>,
    linkText: Option<string>,
    publishedAt: Option<int>)

  /** The row built from the creation data at instant `now`. */
  function BuildInsertRow(userId: string, d: CreateData, now: int): (row: InsertRow)
    ensures row.userId == userId && row.status == StatusOf(d.status) && row.status != Archived
    ensures row.publishedAt.Some? <==> row.status == Published
    ensures row.publishedAt.Some? ==> row.publishedAt.value == now
    ensures row.scheduledAt == d.scheduledAt
    ensures row.imageUrl.None? <==> !Truthy(d.imageUrl)
    ensures row.linkUrl.None? <==> !Truthy(d.linkUrl)
    ensures row.linkText.None? <==> !Truthy(d.linkText)
    ensures row.imageUrl.Some? ==> row.imageUrl == d.imageUrl
    ensures row.linkUrl.Some? ==> row.linkUrl == d.linkUrl
    ensures row.linkText.Some? ==> row.linkText == d.linkText
  {
    var status := StatusOf(d.status);
    InsertRow(userId, d.title, d.content, d.kind, d.priority, status,
              d.scheduledAt, d.timezone,
              EmptyToNone(d.imageUrl), EmptyToNone(d.linkUrl), EmptyToNone(d.linkText),
              if status == Published then Some(now) else None)
  }

  /** The record the store echoes back for an inserted row, given the id and
      creation instant it generated. */
  function Inserted(row: InsertRow, id: string, createdAt: int): Announcement {
    Announcement(id, row.userId, row.title, row.content, row.kind, row.priority, row.status,
                 row.scheduledAt, row.publishedAt, row.timezone,
                 row.imageUrl, row.linkUrl, row.linkText, createdAt, createdAt)
  }

  /** The store's answer to an insert. */
  datatype InsertReply = InsertFailed(message: string) | InsertOk(id: string, createdAt: int)

  /** The result of a store call: the new local state and what the call
      resolves to or rejects with. */
  datatype Step = Step(local: Local, outcome: Result<Announcement>)

  /** The banner texts the hook sets on failure. */
  const CreateFailedText: string := "Failed to create announcement. Please try again."
  const UpdateFailedText: string := "Failed to update announcement. Please try again."
  const DeleteFailedText: string := "Failed to delete announcement. Please try again."

  /** `addAnnouncement(data)`: without a user it rejects before the store
      is asked; on success the new record is prepended. */
  function AddAnnouncement(l: Local, user: Option<string>, d: CreateData, now: int, reply: InsertReply): (s: Step)
    ensures user.None? ==> s.outcome == Err("User not authenticated")
    ensures s.outcome.Err? ==> s.local == Local(l.items, Some(CreateFailedText))
    ensures s.outcome.Ok? <==> user.Some? && reply.InsertOk?
    ensures s.outcome.Ok? ==> s.local == Local([s.outcome.value] + l.items, None)
    ensures s.outcome.Ok? ==>
      var a := s.outcome.value;
      && a.userId == user.value && a.title == d.title && a.content == d.content
      && a.status == StatusOf(d.status)
      && (a.publishedAt.Some? <==> d.status == CreatePublished)
    ensures s.outcome.Ok? ==>
      var a := s.outcome.value;
      && a.id == reply.id && a.createdAt == reply.createdAt
      && a.kind == d.kind && a.priority == d.priority && a.timezone == d.timezone
    ensures s.outcome.Ok? ==>
      var a := s.outcome.value;
      var row := BuildInsertRow(user.value, d, now);
      && a.scheduledAt == row.scheduledAt && a.publishedAt == row.publishedAt
      && a.imageUrl == row.imageUrl && a.linkUrl == row.linkUrl && a.linkText == row.linkText
  {
    match user
    case None => Step(Local(l.items, Some(CreateFailedText)), Err("User not authenticated"))
    case Some(uid) =>
      match reply
      case InsertFailed(msg) => Step(Local(l.items, Some(CreateFailedText)), Err(msg))
      case InsertOk(id, createdAt) =>
        var a := Inserted(BuildInsertRow(uid, d, now), id, createdAt);
        Step(Local([a] + l.items, None), Ok(a))
  }

  /** Publishing at creation is the only way to be created with a publish
      instant, and that instant is the creation request's `now`. */
  lemma CreatedPublishedIsStamped(l: Local, uid: string, d: CreateData, now: int, reply: InsertReply)
    requires reply.InsertOk? && d.status == CreatePublished
    ensures AddAnnouncement(l, Some(uid), d, now, reply).outcome.Ok?
    ensures AddAnnouncement(l, Some(uid), d, now, reply).outcome.value.publishedAt == Some(now)
    ensures AddAnnouncement(l, Some(uid), d, now, reply).outcome.value.status == Published
  {
  }

  // ---------------------------------------------------------------------
  // Update

  /** `Partial<Announcement>`: each key may be left undefined. */
  datatype Updates = Updates(
    title: Option<string>,
    content: Option<string>,
    kind: Option<AnnType>,
    priority: Option<Priority>,
    status: Option<Status>,
    scheduledAt: Option<int>,
    timezone: Option<string>,
    imageUrl: Option<string>,
    linkUrl: Option<string>,
    linkText: Option<string>,
    publishedAt: Option<int>)

  /** An update that sets only the status. */
  function StatusOnly(s: Status): Updates {
    Updates(None, None, None, None, Some(s), None, None, None, None, None, None)
  }

  /** `updateData`: the columns the update sends; an absent key is left alone. */
  datatype Patch = Patch(
    title: Option<string>,
    content: Option<string>,
    kind: Option<AnnType>,
    priority: Option<Priority>,
    status: Option<Status>,
    scheduledAt: Option<int>,
    timezone: Option<string>,
    imageUrl: Option<string>,
    linkUrl: Option<string>,
    linkText: Option<string>,
    publishedAt: Option<int>)

  /** `updateData` built from the caller's updates at instant `now`. The
      caller's `publishedAt` is never copied; a publish update without one
      is stamped with `now`. */
  function UpdateData(u: Updates, now: int): (p: Patch)
    ensures p.title == u.title && p.content == u.content && p.kind == u.kind
    ensures p.priority == u.priority && p.status == u.status && p.scheduledAt == u.scheduledAt
    ensures p.timezone == u.timezone && p.imageUrl == u.imageUrl
    ensures p.linkUrl == u.linkUrl && p.linkText == u.linkText
    ensures p.publishedAt.Some? <==> u.status == Some(Published) && u.publishedAt.None?
    ensures p.publishedAt.Some? ==> p.publishedAt.value == now
  {
    Patch(u.title, u.content, u.kind, u.priority, u.status, u.scheduledAt, u.timezone,
          u.imageUrl, u.linkUrl, u.linkText,
          if u.status == Some(Published) && u.publishedAt.None? then Some(now) else None)
  }

  /** The caller's `publishedAt` never reaches the store: the patch is the
      same whatever instant the caller passes. */
  lemma CallerPublishedAtIgnored(u: Updates, t: int, now: int)
    ensures UpdateData(u.(publishedAt := Some(t)), now).publishedAt.None?
    ensures UpdateData(u.(publishedAt := Some(t)), now).(publishedAt := None)
         == UpdateData(u, now).(publishedAt := None)
  {
  }

  /** An optional column update: the new value, or the old one when absent. */
  function Column<T>(prev: T, v: Option<T>): (r: T)
    ensures v.Some? ==> r == v.value
    ensures v.None? ==> r == prev
  {
    if v.Some? then v.value else prev
  }

  /** A nullable column update. */
  function NullableColumn<T>(prev: Option<T>, v: Option<T>): (r: Option<T>)
    ensures v.Some? ==> r == v
    ensures v.None? ==> r == prev
  {
    if v.Some? then v else prev
  }

  /** The stored row after the store applies a patch. */
  function ApplyPatch(a: Announcement, p: Patch): (b: Announcement)
    ensures b.id == a.id && b.userId == a.userId && b.createdAt == a.createdAt
  {
    a.(title := Column(a.title, p.title),
       content := Column(a.content, p.content),
       kind := Column(a.kind, p.kind),
       priority := Column(a.priority, p.priority),
       status := Column(a.status, p.status),
       scheduledAt := NullableColumn(a.scheduledAt, p.scheduledAt),
       timezone := Column(a.timezone, p.timezone),
       imageUrl := NullableColumn(a.imageUrl, p.imageUrl),
       linkUrl := NullableColumn(a.linkUrl, p.linkUrl),
       linkText := NullableColumn(a.linkText, p.linkText),
       publishedAt := NullableColumn(a.publishedAt, p.publishedAt))
  }

  /** Every update that publishes (without a caller instant) re-stamps the
      publish instant with `now`, whatever the stored row held before. */
  lemma PublishRestamps(a: Announcement, u: Updates, now: int)
    requires u.status == Some(Published) && u.publishedAt.None?
    ensures ApplyPatch(a, UpdateData(u, now)).publishedAt == Some(now)
    ensures ApplyPatch(a, UpdateData(u, now)).status == Published
  {
  }

  /** An update that does not set the status leaves the publish instant as
      it was. */
  lemma NoStatusKeepsPublishedAt(a: Announcement, u: Updates, now: int)
    requires u.status.None?
    ensures ApplyPatch(a, UpdateData(u, now)).publishedAt == a.publishedAt
    ensures ApplyPatch(a, UpdateData(u, now)).status == a.status
  {
  }

  /** The store's answer to an update: an error (including the one
      `.single()` raises when no row has the id), or the current row. */
  datatype UpdateReply = StoreError(message: string) | Current(row: Announcement)

  /** `updateAnnouncement(id, updates)`: on success the cached element with
      that id is replaced by the updated row. */
  function UpdateAnnouncement(l: Local, id: string, u: Updates, now: int, reply: UpdateReply): (s: Step)
    requires reply.Current? ==> reply.row.id == id
    ensures s.outcome.Err? ==> s.local == Local(l.items, Some(UpdateFailedText))
    ensures s.outcome.Ok? <==> reply.Current?
    ensures s.outcome.Ok? ==>
      && s.outcome.value == ApplyPatch(reply.row, UpdateData(u, now))
      && s.local == Local(ReplaceById(l.items, id, s.outcome.value), None)
  {
    match reply
    case StoreError(msg) => Step(Local(l.items, Some(UpdateFailedText)), Err(msg))
    case Current(row) =>
      var b := ApplyPatch(row, UpdateData(u, now));
      Step(Local(ReplaceById(l.items, id, b), None), Ok(b))
  }

  /** `prev.map(ann => ann.id === id ? updated : ann)`. */
  function ReplaceById(items: seq<Announcement>, id: string, b: Announcement): (r: seq<Announcement>)
    ensures |r| == |items|
    ensures forall i :: 0 <= i < |items| && items[i].id != id ==> r[i] == items[i]
    ensures forall i :: 0 <= i < |items| && items[i].id == id ==> r[i] == b
  {
    if items == [] then []
    else [if items[0].id == id then b else items[0]] + ReplaceById(items[1..], id, b)
  }

  /** Replacing keeps the list's ids in place when the new record keeps its
      id, and replacing twice with the same record is replacing once. */
  lemma ReplaceKeepsIds(items: seq<Announcement>, id: string, b: Announcement)
    requires b.id == id
    ensures forall i :: 0 <= i < |items| ==> ReplaceById(items, id, b)[i].id == items[i].id
    ensures ReplaceById(ReplaceById(items, id, b), id, b) == ReplaceById(items, id, b)
  {
  }

  // ---------------------------------------------------------------------
  // Delete

  /** `prev.filter(ann => ann.id !== id)`. */
  function RemoveById(items: seq<Announcement>, id: string): (r: seq<Announcement>)
    ensures |r| <= |items|
    ensures forall x :: x in r <==> x in items && x.id != id
  {
    if items == [] then []
    else (if items[0].id != id then [items[0]] else []) + RemoveById(items[1..], id)
  }

  /** Removing keeps the other elements in their order: the result is the
      list with exactly the matching elements skipped, and removing leaves
      a list no element of which has the id. */
  lemma {:induction false} RemoveKeepsOrder(items: seq<Announcement>, id: string)
    ensures IsSubsequence(RemoveById(items, id), items)
    ensures |RemoveById(items, id)| == |items| - CountId(items, id)
    decreases |items|
  {
    if items != [] {
      RemoveKeepsOrder(items[1..], id);
      var rest := RemoveById(items[1..], id);
      if items[0].id == id {
        assert RemoveById(items, id) == rest;
        if rest != [] {
          assert rest[0] in rest;
          assert rest[0] != items[0];
          assert IsSubsequence(rest, items[1..]);
        }
      } else {
        assert RemoveById(items, id) == [items[0]] + rest;
        assert ([items[0]] + rest)[1..] == rest;
      }
    }
  }

  /** `xs` is `ys` with some elements skipped. */
  predicate IsSubsequence(xs: seq<Announcement>, ys: seq<Announcement>)
    decreases |ys|
  {
    if xs == [] then true
    else if ys == [] then false
    else if xs[0] == ys[0] then IsSubsequence(xs[1..], ys[1..])
    else IsSubsequence(xs, ys[1..])
  }

  /** The number of elements with the given id. */
  function CountId(items: seq<Announcement>, id: string): nat {
    if items == [] then 0 else (if items[0].id == id then 1 else 0) + CountId(items[1..], id)
  }

  /** `deleteAnnouncement(id)`: on success the matching elements leave the
      cache; on a store error the cache is unchanged. */
  function DeleteAnnouncement(l: Local, id: string, failure: Option<string>): (s: Local)
    ensures failure.Some? ==> s == Local(l.items, Some(DeleteFailedText))
    ensures failure.None? ==> s == Local(RemoveById(l.items, id), None)
  {
    if failure.Some? then Local(l.items, Some(DeleteFailedText)) else Local(RemoveById(l.items, id), None)
  }

  /** Deleting what was just added restores the earlier list, as long as no
      earlier element shared the id. */
  lemma {:induction false} AddThenDelete(items: seq<Announcement>, a: Announcement)
    requires forall x :: x in items ==> x.id != a.id
    ensures RemoveById([a] + items, a.id) == items
  {
    RemoveNothing(items, a.id);
    assert ([a] + items)[1..] == items;
  }

  /** Removing an id no element has changes nothing. */
  lemma {:induction false} RemoveNothing(items: seq<Announcement>, id: string)
    requires forall x :: x in items ==> x.id != id
    ensures RemoveById(items, id) == items
    decreases |items|
  {
    if items != [] {
      assert items[0] in items;
      RemoveNothing(items[1..], id);
    }
  }
}
