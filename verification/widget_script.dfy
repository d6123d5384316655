/** The embeddable widget script (public/widget.js): configuration merge,
    the storage-backed read tracker it re-reads on every call, the badge,
    the fetch fallbacks, the panel toggle and the delayed mark-all. */
module WidgetScript {
  import opened Common
  import opened Types
  import opened JsSet
  import opened Badge
  import ReadStatusHook

  /** Browser storage, shared in shape with the in-product tracker. */
  type Storage = ReadStatusHook.Storage

  /** The key this script reads and writes. */
  const StorageKey: string := "announcements-read"

  // ---------------------------------------------------------------------
  // Configuration

  /** `window.AnnouncementsConfig`: every key may be left out. */
  datatype UserConfig = UserConfig(
    userId: Option<string>,
    position: Option<string>,
    theme: Option<string>,
    showBadge: Option<bool>,
    autoOpen: Option<bool>,
    apiUrl: Option<string>,
    supabaseUrl: Option<string>)

  /** The merged configuration the script runs with. */
  datatype Config = Config(
    userId: Option<string>,
    position: string,
    theme: string,
    showBadge: bool,
    autoOpen: bool,
    apiUrl: string,
    supabaseUrl: Option<string>)

  /** The built-in defaults; `origin` is the host page's origin. */
  function Defaults(origin: string): Config {
    Config(None, "bottom-right", "light", true, false, origin, None)
  }

  /** `Object.assign({}, defaultConfig, window.AnnouncementsConfig || {})`. */
  function Merge(user: Option<UserConfig>, origin: string): (c: Config)
    ensures user.None? ==> c == Defaults(origin)
    ensures user.Some? ==>
      && c.userId == user.value.userId
      && c.position == user.value.position.GetOr("bottom-right")
      && c.theme == user.value.theme.GetOr("light")
      && c.showBadge == user.value.showBadge.GetOr(true)
      && c.autoOpen == user.value.autoOpen.GetOr(false)
      && c.apiUrl == user.value.apiUrl.GetOr(origin)
      && c.supabaseUrl == user.value.supabaseUrl
  {
    var d := Defaults(origin);
    match user
    case None => d
    case Some(u) =>
      Config(
        if u.userId.Some? then u.userId else d.userId,
        u.position.GetOr(d.position),
        u.theme.GetOr(d.theme),
        u.showBadge.GetOr(d.showBadge),
        u.autoOpen.GetOr(d.autoOpen),
        u.apiUrl.GetOr(d.apiUrl),
        if u.supabaseUrl.Some? then u.supabaseUrl else d.supabaseUrl)
  }

  /** A user value always wins over the default, and a key the user leaves
      out keeps its default. */
  lemma MergeOverrides(u: UserConfig, origin: string)
    ensures u.showBadge.Some? ==> Merge(Some(u), origin).showBadge == u.showBadge.value
    ensures u.showBadge.None? ==> Merge(Some(u), origin).showBadge == Defaults(origin).showBadge
    ensures u.position.Some? ==> Merge(Some(u), origin).position == u.position.value
    ensures u.position.None? ==> Merge(Some(u), origin).position == Defaults(origin).position
    ensures Merge(Some(UserConfig(None, None, None, None, None, None, None)), origin) == Defaults(origin)
  {
  }

  // ---------------------------------------------------------------------
  // Lookup tables

  /** The four placement styles. */
  const BottomRight: string := "bottom: 24px; right: 24px;"
  const BottomLeft: string := "bottom: 24px; left: 24px;"
  const TopRight: string := "top: 24px; right: 24px;"
  const TopLeft: string := "top: 24px; left: 24px;"

  /** `getPositionStyles(position)`. */
  function PositionStyles(position: string): (css: string)
    ensures css in {BottomRight, BottomLeft, TopRight, TopLeft}
    ensures position !in {"bottom-right", "bottom-left", "top-right", "top-left"} ==> css == BottomRight
  {
    if position == "bottom-right" then BottomRight
    else if position == "bottom-left" then BottomLeft
    else if position == "top-right" then TopRight
    else if position == "top-left" then TopLeft
    else BottomRight
  }

  /** Each named corner gets its own style. */
  lemma PositionStylesDistinct(p: string, q: string)
    requires p in {"bottom-right", "bottom-left", "top-right", "top-left"}
    requires q in {"bottom-right", "bottom-left", "top-right", "top-left"}
    ensures PositionStyles(p) == PositionStyles(q) <==> p == q
  {
  }

  /** The fallback icon for a type the table does not know. */
  const FallbackIcon: string := "\U{1F4CC}"

  /** `getTypeIcon(type)`. */
  function TypeIcon(t: string): (icon: string)
    ensures t !in {"feature", "update", "news", "bugfix"} ==> icon == FallbackIcon
    ensures t in {"feature", "update", "news", "bugfix"} ==> icon != FallbackIcon
  {
    if t == "feature" then "\U{1F389}"
    else if t == "update" then "\U{1F504}"
    else if t == "news" then "\U{1F4E2}"
    else if t == "bugfix" then "\U{1F41B}"
    else FallbackIcon
  }

  /** Every announcement type has its own icon, never the fallback. */
  lemma TypeIconsDistinct(a: AnnType, b: AnnType)
    ensures TypeIcon(TypeName(a)) != FallbackIcon
    ensures TypeIcon(TypeName(a)) == TypeIcon(TypeName(b)) <==> a == b
  {
  }

  // ---------------------------------------------------------------------
  // Read tracking, re-read from storage on every call

  /** `getStoredReadStatus()`: the stored array as a set, empty when absent. */
  function StoredReadStatus(st: Storage): (rs: seq<string>)
    ensures Distinct(rs)
    ensures StorageKey !in st ==> rs == []
    ensures StorageKey in st ==> forall id :: id in rs <==> id in st[StorageKey]
  {
    if StorageKey in st then
      AddAllElems([], st[StorageKey]);
      FromSeq(st[StorageKey])
    else []
  }

  /** `saveReadStatus(readSet)`: overwrites the entry with the set's elements. */
  function SaveReadStatus(st: Storage, readSet: seq<string>): (st': Storage)
    requires Distinct(readSet)
    ensures StoredReadStatus(st') == readSet
    ensures forall k :: k != StorageKey ==> (k in st' <==> k in st)
    ensures forall k :: k != StorageKey && k in st ==> st'[k] == st[k]
  {
    FromSeqOfDistinct(readSet);
    st[StorageKey := readSet]
  }

  /** `isRead(id)`. */
  predicate IsRead(st: Storage, id: string) {
    id in StoredReadStatus(st)
  }

  /** `markAsRead(id)`: read, add `id`, write back. */
  function MarkAsRead(st: Storage, id: string): (st': Storage)
    ensures IsRead(st', id)
    ensures forall y :: IsRead(st', y) <==> IsRead(st, y) || y == id
    ensures forall k :: k != StorageKey ==> (k in st' <==> k in st)
    ensures forall k :: k != StorageKey && k in st ==> st'[k] == st[k]
  {
    SaveReadStatus(st, Add(StoredReadStatus(st), id))
  }

  /** Marking twice is marking once. */
  lemma MarkAsReadIdempotent(st: Storage, id: string)
    ensures MarkAsRead(MarkAsRead(st, id), id) == MarkAsRead(st, id)
  {
    var once := MarkAsRead(st, id);
    assert StoredReadStatus(once) == Add(StoredReadStatus(st), id);
  }

  /** `getUnreadCount(announcements)`: entries whose id is unread. */
  function UnreadCount(st: Storage, anns: seq<Summary>): (n: nat)
    ensures n <= |anns|
    ensures n == 0 <==> forall i :: 0 <= i < |anns| ==> IsRead(st, anns[i].id)
    ensures n == |anns| <==> forall i :: 0 <= i < |anns| ==> !IsRead(st, anns[i].id)
  {
    if anns == [] then 0
    else (if IsRead(st, anns[0].id) then 0 else 1) + UnreadCount(st, anns[1..])
  }

  /** The ids of the fetched entries, in order. */
  function SummaryIds(anns: seq<Summary>): (ids: seq<string>)
    ensures |ids| == |anns|
    ensures forall i :: 0 <= i < |anns| ==> ids[i] == anns[i].id
  {
    if anns == [] then [] else [anns[0].id] + SummaryIds(anns[1..])
  }

  /** The script counts as the in-product tracker does: its unread count is
      the tracker's count over the same ids, for a tracker holding the set
      the script stored. So it is the number of entries minus the entries
      read. */
  lemma {:induction false} UnreadCountAgrees(st: Storage, anns: seq<Summary>)
    ensures UnreadCount(st, anns)
         == ReadStatusHook.UnreadCount(ReadStatusHook.Hook(StoredReadStatus(st), st), SummaryIds(anns))
    ensures UnreadCount(st, anns)
         == |anns| - ReadStatusHook.ReadCount(ReadStatusHook.Hook(StoredReadStatus(st), st), SummaryIds(anns))
    decreases |anns|
  {
    var h := ReadStatusHook.Hook(StoredReadStatus(st), st);
    if anns != [] {
      UnreadCountAgrees(st, anns[1..]);
      assert SummaryIds(anns)[1..] == SummaryIds(anns[1..]);
    }
    ReadStatusHook.UnreadIsComplement(h, SummaryIds(anns));
  }

  /** The ids of the entries still unread. */
  function UnreadIds(st: Storage, anns: seq<Summary>): (ids: seq<string>)
    ensures |ids| == UnreadCount(st, anns)
  {
    if anns == [] then []
    else
      var rest := UnreadIds(st, anns[1..]);
      if IsRead(st, anns[0].id) then rest else [anns[0].id] + rest
  }

  /** The collected ids are exactly the unread ids of the list. */
  lemma {:induction false} UnreadIdsMembers(st: Storage, anns: seq<Summary>, id: string)
    ensures id in UnreadIds(st, anns) <==> !IsRead(st, id) && id in SummaryIds(anns)
    decreases |anns|
  {
    if anns != [] {
      UnreadIdsMembers(st, anns[1..], id);
      assert SummaryIds(anns) == [anns[0].id] + SummaryIds(anns[1..]);
    }
  }

  /** The delayed step of `loadAnnouncements`: every fetched id still unread
      is added to the stored set in one write. */
  function MarkAllSeen(st: Storage, anns: seq<Summary>): (st': Storage)
    ensures forall y :: IsRead(st', y) <==> IsRead(st, y) || y in SummaryIds(anns)
    ensures forall k :: k != StorageKey && k in st ==> k in st' && st'[k] == st[k]
  {
    var ids := UnreadIds(st, anns);
    var readSet := StoredReadStatus(st);
    AddAllElems(readSet, ids);
    forall y ensures y in ids <==> !IsRead(st, y) && y in SummaryIds(anns) {
      UnreadIdsMembers(st, anns, y);
    }
    SaveReadStatus(st, AddAll(readSet, ids))
  }

  /** After the delayed step, the fetched list has nothing unread. */
  lemma MarkAllSeenClearsUnread(st: Storage, anns: seq<Summary>)
    ensures UnreadCount(MarkAllSeen(st, anns), anns) == 0
  {
    var st' := MarkAllSeen(st, anns);
    forall i | 0 <= i < |anns| ensures IsRead(st', anns[i].id) {
      assert SummaryIds(anns)[i] == anns[i].id;
    }
  }

  // ---------------------------------------------------------------------
  // Fetching and the badge

  /** What the network does with the request: the call throws, or a
      response arrives with its `ok` flag and its parsed body. */
  datatype FetchReply = Threw(message: string) | Responded(ok: bool, body: seq<Summary>)

  /** `${config.supabaseUrl}/functions/v1/announcements`: an absent value
      is interpolated as the text "undefined". */
  function FetchUrl(c: Config): (url: string)
    ensures c.supabaseUrl.None? ==> url == "undefined/functions/v1/announcements"
  {
    (if c.supabaseUrl.Some? then c.supabaseUrl.value else "undefined") + "/functions/v1/announcements"
  }

  /** `fetchAnnouncements()`: the body of an ok response for a configured
      user id, otherwise the empty list. */
  function FetchAnnouncements(c: Config, reply: FetchReply): (anns: seq<Summary>)
    ensures anns != [] ==> Truthy(c.userId) && reply.Responded? && reply.ok && anns == reply.body
    ensures Truthy(c.userId) && reply.Responded? && reply.ok ==> anns == reply.body
  {
    if !Truthy(c.userId) then []
    else match reply
      case Threw(_) => []
      case Responded(ok, body) => if ok then body else []
  }

  /** `updateBadge()`: the badge for the freshly fetched list. */
  function BadgeAfterFetch(c: Config, st: Storage, reply: FetchReply): (b: Badge)
    ensures b.Shown? <==> c.showBadge && UnreadCount(st, FetchAnnouncements(c, reply)) > 0
  {
    BadgeFor(c.showBadge, UnreadCount(st, FetchAnnouncements(c, reply)))
  }

  /** A missing user id, a non-ok response or a thrown error hides the badge. */
  lemma FailedFetchHidesBadge(c: Config, st: Storage, reply: FetchReply)
    requires !Truthy(c.userId) || reply.Threw? || (reply.Responded? && !reply.ok)
    ensures FetchAnnouncements(c, reply) == []
    ensures BadgeAfterFetch(c, st, reply) == Hidden
  {
  }

  // ---------------------------------------------------------------------
  // The panel

  /** The script's session: whether the panel is open, and storage. */
  datatype Session = Session(open: bool, storage: Storage)

  /** `togglePanel()` followed, when it opens the panel, by the load and its
      delayed mark-all over what the load fetched. */
  function TogglePanel(s: Session, c: Config, reply: FetchReply): (s': Session)
    ensures s'.open == !s.open
    ensures !s'.open ==> s'.storage == s.storage
    ensures s'.open ==> UnreadCount(s'.storage, FetchAnnouncements(c, reply)) == 0
  {
    if !s.open then
      var anns := FetchAnnouncements(c, reply);
      MarkAllSeenClearsUnread(s.storage, anns);
      Session(true, MarkAllSeen(s.storage, anns))
    else
      Session(false, s.storage)
  }

  /** The click handler of a rendered item: marks it read if it was unread. */
  function ClickItem(s: Session, id: string): (s': Session)
    ensures s'.open == s.open
    ensures IsRead(s'.storage, id)
    ensures IsRead(s.storage, id) ==> s' == s
  {
    if !IsRead(s.storage, id) then Session(s.open, MarkAsRead(s.storage, id)) else s
  }

  /** What `initWidget` leaves behind: whether the panel ends up open,
      whether announcements were loaded, and whether the badge was refreshed. */
  datatype InitEffect = InitEffect(open: bool, loads: bool, refreshesBadge: bool)

  /** `initWidget` as written: `isOpen` starts at `autoOpen`, and when that
      is true `togglePanel()` flips it back to false before showing anything. */
  function InitAsWritten(c: Config): InitEffect {
    var isOpen := c.autoOpen;
    if isOpen then
      var flipped := !isOpen;
      InitEffect(flipped, flipped, false)
    else
      InitEffect(false, false, true)
  }

  /** With `autoOpen` set, the script as written leaves the panel closed,
      loads nothing and does not refresh the badge. */
  lemma AutoOpenClosesAsWritten(c: Config)
    requires c.autoOpen
    ensures !InitAsWritten(c).open && !InitAsWritten(c).loads && !InitAsWritten(c).refreshesBadge
  {
  }

  /** `initWidget` as evidently intended: the panel starts closed and is
      toggled open (and loaded) when `autoOpen` is set. */
  function Init(c: Config, st: Storage, reply: FetchReply): (e: InitEffect)
    ensures e.open == c.autoOpen
    ensures e.loads == c.autoOpen
    ensures e.refreshesBadge == !c.autoOpen
  {
    var closed := Session(false, st);
    if c.autoOpen then
      var toggled := TogglePanel(closed, c, reply);
      InitEffect(toggled.open, true, false)
    else
      InitEffect(closed.open, false, true)
  }

  // ---------------------------------------------------------------------
  // Independence from the in-product tracker

  /** The two trackers use different keys, so nothing the script writes
      changes what the in-product tracker loads, and the other way round. */
  lemma TrackersAreIndependent(st: Storage, id: string, ids: seq<string>, h: ReadStatusHook.Hook)
    requires ReadStatusHook.Valid(h)
    ensures ReadStatusHook.Mount(MarkAsRead(st, id)) == ReadStatusHook.Mount(st).(storage := MarkAsRead(st, id))
    ensures StoredReadStatus(ReadStatusHook.MarkAllAsRead(h, ids).storage) == StoredReadStatus(h.storage)
  {
    assert StorageKey != ReadStatusHook.StorageKey;
  }
}
