/** The in-product read-state tracker (src/hooks/useReadStatus.ts): an
    in-memory read set, loaded once from storage and written back wholesale
    on every mark. Storage maps a key to the parsed JSON array stored there. */
module ReadStatusHook {
  import opened JsSet

  /** Browser storage: key to the array of ids stored under it. */
  type Storage = map<string, seq<string>>

  /** The key this tracker reads and writes. */
  const StorageKey: string := "readAnnouncements"

  /** The hook's state: the in-memory read set and the storage it writes to. */
  datatype Hook = Hook(read: seq<string>, storage: Storage)

  /** The in-memory set is a proper set. */
  predicate Valid(h: Hook) {
    Distinct(h.read)
  }

  /** The stored array under this tracker's key equals the in-memory set. */
  predicate Persisted(h: Hook) {
    StorageKey in h.storage && h.storage[StorageKey] == h.read
  }

  /** The state after mounting: the stored array when an entry exists,
      the empty set otherwise. */
  function Mount(storage: Storage): (h: Hook)
    ensures Valid(h) && h.storage == storage
    ensures StorageKey !in storage ==> h.read == []
    ensures StorageKey in storage ==>
      forall id :: id in h.read <==> id in storage[StorageKey]
  {
    if StorageKey in storage then
      AddAllElems([], storage[StorageKey]);
      Hook(FromSeq(storage[StorageKey]), storage)
    else
      Hook([], storage)
  }

  /** `isRead(id)`. */
  predicate IsRead(h: Hook, id: string) {
    id in h.read
  }

  /** `markAsRead(id)`: the set gains `id` and nothing else, and the new set
      is written under the key; no other storage entry changes. */
  function MarkAsRead(h: Hook, id: string): (r: Hook)
    requires Valid(h)
    ensures Valid(r) && Persisted(r)
    ensures forall y :: IsRead(r, y) <==> IsRead(h, y) || y == id
    ensures forall k :: k != StorageKey ==> (k in r.storage <==> k in h.storage)
    ensures forall k :: k != StorageKey && k in h.storage ==> r.storage[k] == h.storage[k]
  {
    var updated := FromSeq(h.read + [id]);
    SpreadUnion(h.read, [id]);
    Hook(updated, h.storage[StorageKey := updated])
  }

  /** `markAllAsRead(ids)`: the set gains exactly the ids, in one write. */
  function MarkAllAsRead(h: Hook, ids: seq<string>): (r: Hook)
    requires Valid(h)
    ensures Valid(r) && Persisted(r)
    ensures forall y :: IsRead(r, y) <==> IsRead(h, y) || y in ids
    ensures r.storage == h.storage[StorageKey := r.read]
  {
    var updated := FromSeq(h.read + ids);
    SpreadUnion(h.read, ids);
    AddAllElems(h.read, ids);
    Hook(updated, h.storage[StorageKey := updated])
  }

  /** `getUnreadCount(ids)`: the number of positions of `ids` not in the set. */
  function UnreadCount(h: Hook, ids: seq<string>): (n: nat)
    ensures n <= |ids|
    ensures n == 0 <==> forall i :: 0 <= i < |ids| ==> IsRead(h, ids[i])
    ensures n == |ids| <==> forall i :: 0 <= i < |ids| ==> !IsRead(h, ids[i])
  {
    if ids == [] then 0
    else (if IsRead(h, ids[0]) then 0 else 1) + UnreadCount(h, ids[1..])
  }

  /** The number of positions of `ids` that are in the set. */
  function ReadCount(h: Hook, ids: seq<string>): nat {
    if ids == [] then 0
    else (if IsRead(h, ids[0]) then 1 else 0) + ReadCount(h, ids[1..])
  }

  /** The unread count is the length minus the read positions, the
      complement `ids.length - |ids ∩ read|`. */
  lemma {:induction false} UnreadIsComplement(h: Hook, ids: seq<string>)
    ensures UnreadCount(h, ids) == |ids| - ReadCount(h, ids)
    decreases |ids|
  {
    if ids != [] {
      UnreadIsComplement(h, ids[1..]);
    }
  }

  /** Marking one id twice is marking it once. */
  lemma MarkAsReadIdempotent(h: Hook, id: string)
    requires Valid(h)
    ensures MarkAsRead(MarkAsRead(h, id), id) == MarkAsRead(h, id)
  {
    var once := MarkAsRead(h, id);
    SpreadUnion(h.read, [id]);
    SpreadUnion(once.read, [id]);
    assert id in once.read;
  }

  /** After marking a batch, nothing in the batch is unread. */
  lemma MarkAllThenNoneUnread(h: Hook, ids: seq<string>)
    requires Valid(h)
    ensures UnreadCount(MarkAllAsRead(h, ids), ids) == 0
  {
    var r := MarkAllAsRead(h, ids);
    assert forall i :: 0 <= i < |ids| ==> IsRead(r, ids[i]);
  }

  /** Reloading from what a mark wrote restores the same in-memory set. */
  lemma MarkThenReload(h: Hook, id: string)
    requires Valid(h)
    ensures Mount(MarkAsRead(h, id).storage).read == MarkAsRead(h, id).read
  {
    FromSeqOfDistinct(MarkAsRead(h, id).read);
  }
}
