/**
 * The server-side notes table (DynamoDB), keyed by `(userId, noteId)`, that the
 * note lambdas share. A record carries an optional `deletedAt`: absent means
 * live, present means soft-deleted until the cleanup job purges it.
 * Timestamps are milliseconds; ISO strings of one format order the same way.
 */
module NoteTable {
  import opened Wrappers

  /** `(userId, noteId)`. */
  type Key = (string, string)

  /** Every handler works in this user's partition. */
  const Anonymous: string := "anonymous"

  /** The soft-delete grace period: seven days, in milliseconds. */
  const GracePeriodMs: int := 7 * 24 * 60 * 60 * 1000

  datatype Item = Item(
    userId: string,
    noteId: string,
    title: string,
    content: string,
    tags: seq<string>,
    pinned: bool,
    favorite: bool,
    createdAt: int,
    updatedAt: int,
    lastSynced: int,
    deletedAt: Option<int>)

  function KeyOf(it: Item): Key {
    (it.userId, it.noteId)
  }

  /** The body of a handler's HTTP response. */
  datatype Body =
    | Empty
    | Error(error: string)
    | Synced(syncedAt: int)
    | Notes(items: seq<Item>)
    | MarkedForDeletion(message: string, deletedAt: int)
    | RestoredNote(message: string, note: Item)
    | CleanupDone(message: string)

  datatype Response = Response(status: int, body: Body)

  const Preflight: Response := Response(200, Empty)
  const MethodNotAllowed: Response := Response(405, Error("Method not allowed"))
  const InternalError: Response := Response(500, Error("Internal server error"))
  const RestoredMessage: string := "Note restored successfully."

  /** A record whose grace period ran out before `now`: what the cleanup scan matches. */
  predicate Expired(it: Item, now: int) {
    it.deletedAt.Some? && it.deletedAt.value < now
  }

  /** The record as a soft delete at `now` leaves it. */
  function SoftDeleted(it: Item, now: int): Item {
    it.(deletedAt := Some(now + GracePeriodMs))
  }

  /** The record as a restore leaves it. */
  function Restored(it: Item): Item {
    it.(deletedAt := None)
  }

  /** The table after the cleanup job has removed every expired record. */
  function Purge(items: map<Key, Item>, now: int): map<Key, Item> {
    map k | k in items && !Expired(items[k], now) :: items[k]
  }

  /** The keys of the expired records, in any partition. */
  function ExpiredKeys(items: map<Key, Item>, now: int): set<Key> {
    set k | k in items && Expired(items[k], now)
  }

  /** The keys of a list of records. */
  function Keys(its: seq<Item>): set<Key> {
    set i | 0 <= i < |its| :: KeyOf(its[i])
  }

  predicate UniqueKeys(its: seq<Item>) {
    forall i, j :: 0 <= i < j < |its| ==> KeyOf(its[i]) != KeyOf(its[j])
  }

  lemma KeysAppend(its: seq<Item>, it: Item)
    ensures Keys(its + [it]) == Keys(its) + {KeyOf(it)}
  {
    var all := its + [it];
    assert all[|its|] == it;
    forall k | k in Keys(its) ensures k in Keys(all) {
      var i :| 0 <= i < |its| && KeyOf(its[i]) == k;
      assert all[i] == its[i];
    }
  }

  /** The purge removes exactly the expired records and keeps the others as they were. */
  lemma {:induction false} PurgeRemovesExactlyExpired(items: map<Key, Item>, now: int)
    ensures Purge(items, now).Keys == items.Keys - ExpiredKeys(items, now)
    ensures forall k :: k in Purge(items, now) ==> Purge(items, now)[k] == items[k] && !Expired(items[k], now)
  {
    assert Purge(items, now).Keys == items.Keys - ExpiredKeys(items, now);
  }

  class RemoteTable {
    var items: map<Key, Item>

    /** Every record is stored under its own key. */
    ghost predicate Valid()
      reads this
    {
      forall k :: k in items ==> KeyOf(items[k]) == k
    }

    constructor ()
      ensures Valid() && items == map[]
    {
      items := map[];
    }
  }
}
