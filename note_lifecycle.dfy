/**
 * How the note lambdas compose on the shared table: soft delete, restore,
 * listing, sync and the cleanup job.
 */
module NoteLifecycle {
  import opened Wrappers
  import opened NoteTable
  import GetNotes
  import SyncNotes
  import DeleteNotes
  import RestoreNote
  import CleanupNotes

  /** Restoring a freshly soft-deleted note gives back the record as it was. */
  lemma DeleteThenRestore(it: Item, now: int)
    requires it.deletedAt.None?
    ensures Restored(SoftDeleted(it, now)) == it
  {
  }

  /** A note deleted at `t` becomes eligible for the purge exactly once `now` is past `t` plus seven days. */
  lemma PurgeEligibility(it: Item, t: int, now: int)
    ensures Expired(SoftDeleted(it, t), now) <==> now > t + GracePeriodMs
  {
  }

  /** A live record is never purged, so the cleanup job leaves every listing unchanged. */
  lemma {:induction false} PurgeKeepsListings(items: map<Key, Item>, now: int, q: GetNotes.Query)
    ensures GetNotes.Listed(Purge(items, now), q) == GetNotes.Listed(items, q)
  {
    PurgeRemovesExactlyExpired(items, now);
    forall k | k in GetNotes.Listed(items, q) ensures k in GetNotes.Listed(Purge(items, now), q) {
      assert !Expired(items[k], now);
    }
  }

  /** A soft-deleted note stays in the table until its grace period is over. */
  lemma {:induction false} PurgeWaitsForGrace(items: map<Key, Item>, k: Key, t: int, now: int)
    requires k in items && now <= t + GracePeriodMs
    ensures var deleted := items[k := SoftDeleted(items[k], t)];
      k in Purge(deleted, now) && Purge(deleted, now)[k] == deleted[k]
  {
    var deleted := items[k := SoftDeleted(items[k], t)];
    assert !Expired(deleted[k], now);
  }

  /** After the grace period the purge removes the note and nothing that is live. */
  lemma {:induction false} PurgeAfterGrace(items: map<Key, Item>, k: Key, t: int, now: int)
    requires k in items && now > t + GracePeriodMs
    ensures var deleted := items[k := SoftDeleted(items[k], t)];
      k !in Purge(deleted, now) && GetNotes.Listed(Purge(deleted, now), GetNotes.NoQuery) == GetNotes.Listed(items, GetNotes.NoQuery) - {k}
  {
    var deleted := items[k := SoftDeleted(items[k], t)];
    PurgeKeepsListings(deleted, now, GetNotes.NoQuery);
    assert Expired(deleted[k], now);
    assert GetNotes.Listed(deleted, GetNotes.NoQuery) == GetNotes.Listed(items, GetNotes.NoQuery) - {k};
  }

  /** A synced note is live and listed, even if the key held a soft-deleted record. */
  lemma SyncRevives(items: map<Key, Item>, b: SyncNotes.NoteBody, now: int)
    requires SyncNotes.Acceptable(b)
    ensures (Anonymous, b.id.value) in GetNotes.Listed(items[(Anonymous, b.id.value) := SyncNotes.Normalise(b, now)], GetNotes.NoQuery)
  {
  }

  /** A DELETE followed by a restore POST leaves the table exactly as it was. */
  method DeleteRestoreRoundTrip(t: RemoteTable, id: string, now: int)
    returns (deleted: Response, restored: Response)
    requires t.Valid() && id != ""
    requires (Anonymous, id) in t.items && t.items[(Anonymous, id)].deletedAt.None?
    modifies t
    ensures t.Valid() && t.items == old(t.items)
    ensures deleted.status == 200 && restored.status == 200
    ensures restored.body == RestoredNote(RestoredMessage, old(t.items)[(Anonymous, id)])
  {
    ghost var before := t.items;
    var k := (Anonymous, id);
    deleted := DeleteNotes.Handler(t, "DELETE", Some(id), now, true);
    restored := RestoreNote.Handler(t, "POST", Some(id), true);
    DeleteThenRestore(before[k], now);
    assert t.items == before[k := before[k]];
  }

  /** Right after a DELETE the note is missing from every listing. */
  method DeleteThenList(t: RemoteTable, id: string, now: int, q: Option<GetNotes.Query>)
    returns (listing: Response)
    requires t.Valid() && id != "" && (Anonymous, id) in t.items
    modifies t
    ensures listing.status == 200 && listing.body.Notes?
    ensures forall i :: 0 <= i < |listing.body.items| ==> KeyOf(listing.body.items[i]) != (Anonymous, id)
  {
    var _ := DeleteNotes.Handler(t, "DELETE", Some(id), now, true);
    listing := GetNotes.Handler(t, "GET", q, true);
    assert (Anonymous, id) !in GetNotes.Listed(t.items, q.GetOr(GetNotes.NoQuery));
    forall i | 0 <= i < |listing.body.items| ensures KeyOf(listing.body.items[i]) != (Anonymous, id) {
      assert KeyOf(listing.body.items[i]) in Keys(listing.body.items);
    }
  }

  /** A complete cleanup run leaves the unfiltered listing unchanged. */
  method CleanupThenList(t: RemoteTable, now: int) returns (before: Response, after: Response)
    requires t.Valid()
    modifies t
    ensures before.body.Notes? && after.body.Notes?
    ensures Keys(after.body.items) == Keys(before.body.items)
  {
    before := GetNotes.Handler(t, "GET", None, true);
    ghost var items := t.items;
    var _, _ := CleanupNotes.Handler(t, now, true, None);
    after := GetNotes.Handler(t, "GET", None, true);
    PurgeKeepsListings(items, now, GetNotes.NoQuery);
  }
}
