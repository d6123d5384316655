/** The in-product widget (src/components/widget/AnnouncementWidget.tsx):
    the published filter, the unread count and badge, opening the panel
    (with its delayed mark-all) and clicking an item. */
module AnnouncementWidget {
  import opened Common
  import opened Types
  import opened Badge
  import R = ReadStatusHook

  /** The component's `config` prop; every key is optional. */
  datatype WidgetConfig = WidgetConfig(
    position: Option<string>,
    theme: Option<string>,
    showBadge: Option<bool>,
    autoOpen: Option<bool>)

  /** The prop's default, used when no `config` is passed at all. */
  const DefaultConfig: WidgetConfig :=
    WidgetConfig(Some("bottom-right"), Some("light"), Some(true), Some(false))

  /** The component state: panel open, the expanded item, the read tracker. */
  datatype State = State(open: bool, expanded: Option<string>, hook: R.Hook)

  // ---------------------------------------------------------------------
  // The published filter

  /** `a.isPublished` as the component reads it: the announcement record has
      no such property, so the read yields `undefined`, which is falsy. */
  function IsPublishedProperty(a: Announcement): bool {
    false
  }

  /** `announcements.filter(a => a.isPublished)`, as written. */
  function PublishedAsWritten(anns: seq<Announcement>): seq<Announcement> {
    Filter(anns, IsPublishedProperty)
  }

  /** As written, the filter drops every announcement: the widget shows
      nothing and its unread count is 0, even for a published unread one. */
  lemma PublishedAsWrittenIsEmpty(anns: seq<Announcement>)
    ensures PublishedAsWritten(anns) == []
  {
    FilterKeepsNone(anns, IsPublishedProperty);
  }

  /** A concrete case: one published announcement nobody has read, and the
      as-written filter still yields no badge. */
  lemma PublishedAsWrittenHidesUnread(a: Announcement)
    requires a.status == Published
    ensures R.UnreadCount(R.Hook([], map[]), Ids(PublishedOnly([a]))) == 1
    ensures BadgeFor(true, R.UnreadCount(R.Hook([], map[]), Ids(PublishedAsWritten([a])))) == Hidden
  {
    PublishedAsWrittenIsEmpty([a]);
    assert PublishedOnly([a]) == [a];
  }

  /** The evidently intended filter: the announcements whose status is
      `published`, in their original order. */
  function PublishedOnly(anns: seq<Announcement>): (r: seq<Announcement>)
    ensures |r| <= |anns|
    ensures forall x :: x in r <==> x in anns && x.status == Published
  {
    Filter(anns, (a: Announcement) => a.status == Published)
  }

  /** The ids of a list of announcements, in order. */
  function Ids(anns: seq<Announcement>): (ids: seq<string>)
    ensures |ids| == |anns|
    ensures forall i :: 0 <= i < |anns| ==> ids[i] == anns[i].id
  {
    if anns == [] then [] else [anns[0].id] + Ids(anns[1..])
  }

  /** The unread count over the published announcements only. */
  function UnreadCount(s: State, anns: seq<Announcement>): (n: nat)
    ensures n <= |PublishedOnly(anns)|
    ensures n == 0 <==> forall x :: x in anns && x.status == Published ==> R.IsRead(s.hook, x.id)
  {
    var pub := PublishedOnly(anns);
    var ids := Ids(pub);
    assert forall x :: x in pub ==> x.id in ids by {
      forall x | x in pub ensures x.id in ids {
        var i :| 0 <= i < |pub| && pub[i] == x;
        assert ids[i] == x.id;
      }
    }
    R.UnreadCount(s.hook, ids)
  }

  /** The count is exact: it is the number of published announcements whose
      id is unread, which is the number published minus those already read. */
  lemma {:induction false} UnreadCountExact(s: State, anns: seq<Announcement>)
    ensures UnreadCount(s, anns)
         == |Filter(anns, (a: Announcement) => a.status == Published && !R.IsRead(s.hook, a.id))|
    ensures UnreadCount(s, anns) == |PublishedOnly(anns)| - R.ReadCount(s.hook, Ids(PublishedOnly(anns)))
    decreases |anns|
  {
    R.UnreadIsComplement(s.hook, Ids(PublishedOnly(anns)));
    if anns != [] {
      UnreadCountExact(s, anns[1..]);
      var pub := PublishedOnly(anns);
      if anns[0].status == Published {
        assert pub == [anns[0]] + PublishedOnly(anns[1..]);
        assert Ids(pub) == [anns[0].id] + Ids(PublishedOnly(anns[1..]));
      } else {
        assert pub == PublishedOnly(anns[1..]);
      }
    }
  }

  /** Unpublished announcements never count as unread. */
  lemma UnpublishedNeverCounts(s: State, anns: seq<Announcement>, x: Announcement)
    requires x.status != Published
    ensures UnreadCount(s, anns + [x]) == UnreadCount(s, anns)
  {
    FilterSnocDropped(anns, x, (a: Announcement) => a.status == Published);
  }

  /** The badge on the closed button: shown when the prop's `showBadge` is
      truthy and something published is unread. */
  function WidgetBadge(config: Option<WidgetConfig>, s: State, anns: seq<Announcement>): (b: Badge)
    ensures b.Shown? <==> config.GetOr(DefaultConfig).showBadge == Some(true) && UnreadCount(s, anns) > 0
  {
    var shown := config.GetOr(DefaultConfig).showBadge;
    var n := UnreadCount(s, anns);
    assert shown.GetOr(false) <==> shown == Some(true);
    BadgeFor(shown.GetOr(false), n)
  }

  // ---------------------------------------------------------------------
  // State changes

  /** The state on mount: open as `autoOpen` says (false when absent),
      nothing expanded, the read set loaded from storage. */
  function Initial(config: Option<WidgetConfig>, storage: R.Storage): (s: State)
    ensures s.open <==> config.GetOr(DefaultConfig).autoOpen == Some(true)
    ensures config.None? ==> !s.open
    ensures s.expanded.None? && R.Valid(s.hook)
  {
    State(config.GetOr(DefaultConfig).autoOpen.GetOr(false), None, R.Mount(storage))
  }

  /** `handleToggle()`, with the delayed `markAllAsRead` applied: opening the
      panel while something published is unread marks every published id. */
  function HandleToggle(s: State, anns: seq<Announcement>): (s': State)
    requires R.Valid(s.hook)
    ensures R.Valid(s'.hook)
    ensures s'.open == !s.open && s'.expanded == s.expanded
    ensures s.open || UnreadCount(s, anns) == 0 ==> s'.hook == s.hook
    ensures !s.open && UnreadCount(s, anns) > 0 ==> s'.hook == R.MarkAllAsRead(s.hook, Ids(PublishedOnly(anns)))
  {
    if !s.open && UnreadCount(s, anns) > 0 then
      State(true, s.expanded, R.MarkAllAsRead(s.hook, Ids(PublishedOnly(anns))))
    else
      State(!s.open, s.expanded, s.hook)
  }

  /** Once the panel has been opened and the grace period has passed,
      nothing published is unread, whether or not anything was marked. */
  lemma OpenClearsUnread(s: State, anns: seq<Announcement>)
    requires R.Valid(s.hook) && !s.open
    ensures UnreadCount(HandleToggle(s, anns), anns) == 0
  {
    if UnreadCount(s, anns) > 0 {
      R.MarkAllThenNoneUnread(s.hook, Ids(PublishedOnly(anns)));
      var s' := HandleToggle(s, anns);
      forall x | x in anns && x.status == Published ensures R.IsRead(s'.hook, x.id) {
        var pub := PublishedOnly(anns);
        var i :| 0 <= i < |pub| && pub[i] == x;
        assert Ids(pub)[i] == x.id;
      }
    }
  }

  /** `handleToggle()` as written: the unread count and the ids marked
      come from the `a.isPublished` filter. */
  function HandleToggleAsWritten(s: State, anns: seq<Announcement>): State
    requires R.Valid(s.hook)
  {
    var pub := PublishedAsWritten(anns);
    if !s.open && R.UnreadCount(s.hook, Ids(pub)) > 0 then
      State(true, s.expanded, R.MarkAllAsRead(s.hook, Ids(pub)))
    else
      State(!s.open, s.expanded, s.hook)
  }

  /** As written, toggling only flips the panel: nothing is ever marked
      read, and the closed button never shows a badge. */
  lemma ToggleAsWrittenMarksNothing(s: State, anns: seq<Announcement>, showBadge: bool)
    requires R.Valid(s.hook)
    ensures HandleToggleAsWritten(s, anns) == s.(open := !s.open)
    ensures BadgeFor(showBadge, R.UnreadCount(s.hook, Ids(PublishedAsWritten(anns)))) == Hidden
  {
    PublishedAsWrittenIsEmpty(anns);
  }

  /** Opening a closed panel over one published, unread announcement: the
      corrected toggle marks it read, the toggle as written does not. */
  lemma ToggleContrast(a: Announcement)
    requires a.status == Published
    ensures R.IsRead(HandleToggle(State(false, None, R.Hook([], map[])), [a]).hook, a.id)
    ensures !R.IsRead(HandleToggleAsWritten(State(false, None, R.Hook([], map[])), [a]).hook, a.id)
  {
    var s := State(false, None, R.Hook([], map[]));
    assert PublishedOnly([a]) == [a];
    assert UnreadCount(s, [a]) > 0 by {
      assert !R.IsRead(s.hook, a.id);
    }
    ToggleAsWrittenMarksNothing(s, [a], true);
  }

  /** The close button: the panel closes and nothing else changes. */
  function Close(s: State): (s': State)
    ensures !s'.open && s'.expanded == s.expanded && s'.hook == s.hook
  {
    s.(open := false)
  }

  /** `handleAnnouncementClick(a)`: an unread item is marked read, a read
      one leaves the set alone; the item is expanded, or collapsed when it
      was the expanded one. */
  function HandleClick(s: State, a: Announcement): (s': State)
    requires R.Valid(s.hook)
    ensures R.Valid(s'.hook) && s'.open == s.open
    ensures R.IsRead(s'.hook, a.id)
    ensures forall y :: y != a.id ==> (R.IsRead(s'.hook, y) <==> R.IsRead(s.hook, y))
    ensures R.IsRead(s.hook, a.id) ==> s'.hook == s.hook
    ensures s'.expanded == (if s.expanded == Some(a.id) then None else Some(a.id))
  {
    var hook := if !R.IsRead(s.hook, a.id) then R.MarkAsRead(s.hook, a.id) else s.hook;
    var expanded := if s.expanded == Some(a.id) then None else Some(a.id);
    State(s.open, expanded, hook)
  }

  /** Clicking the same item twice from a collapsed list collapses it
      again, and the read set after the second click is the one after the
      first. */
  lemma ClickTwice(s: State, a: Announcement)
    requires R.Valid(s.hook)
    ensures s.expanded.None? ==> HandleClick(HandleClick(s, a), a).expanded.None?
    ensures HandleClick(HandleClick(s, a), a).hook == HandleClick(s, a).hook
  {
  }
}
