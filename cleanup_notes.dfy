/**
 * The scheduled cleanup lambda: it scans the whole table for records whose
 * `deletedAt` lies before `now` and deletes them one at a time, counting the
 * deletions. A failing delete aborts the run; the records already deleted
 * stay deleted.
 */
module CleanupNotes {
  import opened Wrappers
  import opened NoteTable
  import Seqs
  import Text

  const Failed: Response := Response(500, Error("Cleanup failed"))

  function CompletedMessage(count: nat): string {
    "Cleanup completed: " + Text.NatToString(count) + " notes permanently deleted"
  }

  /** The scan: every expired record of every partition, each once, as stored. */
  method ScanExpired(t: RemoteTable, now: int) returns (found: seq<Item>)
    requires t.Valid()
    ensures UniqueKeys(found)
    ensures Keys(found) == ExpiredKeys(t.items, now)
    ensures forall i :: 0 <= i < |found| ==> KeyOf(found[i]) in t.items && t.items[KeyOf(found[i])] == found[i]
  {
    found := [];
    var rest := t.items.Keys;
    while rest != {}
      invariant rest <= t.items.Keys
      invariant UniqueKeys(found)
      invariant Keys(found) == ExpiredKeys(t.items, now) - rest
      invariant forall i :: 0 <= i < |found| ==> KeyOf(found[i]) in t.items && t.items[KeyOf(found[i])] == found[i]
      decreases rest
    {
      var k :| k in rest;
      if Expired(t.items[k], now) {
        KeysAppend(found, t.items[k]);
        found := found + [t.items[k]];
      }
      rest := rest - {k};
    }
  }

  /** The keys of the scanned records, in scan order. */
  function KeySeq(found: seq<Item>): (ks: seq<Key>)
    ensures |ks| == |found| && forall i :: 0 <= i < |found| ==> ks[i] == KeyOf(found[i])
  {
    seq(|found|, i requires 0 <= i < |found| => KeyOf(found[i]))
  }

  lemma KeySeqFacts(found: seq<Item>)
    requires UniqueKeys(found)
    ensures Seqs.NoDup(KeySeq(found)) && Seqs.Elems(KeySeq(found)) == Keys(found)
    ensures |Keys(found)| == |found|
  {
    var ks := KeySeq(found);
    forall k | k in Keys(found) ensures k in Seqs.Elems(ks) {
      var i :| 0 <= i < |found| && KeyOf(found[i]) == k;
      assert ks[i] == k;
    }
    Seqs.NoDupCard(ks);
  }

  /**
   * The handler. `scanOk` is whether the scan succeeds; `failAt`, when
   * present, is the position in the scan of the first delete that fails.
   * `purged` lists the keys deleted, in order.
   */
  method Handler(t: RemoteTable, now: int, scanOk: bool, failAt: Option<nat>)
    returns (r: Response, purged: seq<Key>)
    requires t.Valid()
    modifies t
    ensures t.Valid()
    ensures Seqs.NoDup(purged) && Seqs.Elems(purged) <= ExpiredKeys(old(t.items), now)
    ensures t.items == old(t.items) - Seqs.Elems(purged)
    ensures !scanOk ==> r == Failed && purged == []
    ensures scanOk && (failAt.None? || failAt.value >= |ExpiredKeys(old(t.items), now)|) ==>
      && r == Response(200, CleanupDone(CompletedMessage(|ExpiredKeys(old(t.items), now)|)))
      && Seqs.Elems(purged) == ExpiredKeys(old(t.items), now)
      && t.items == Purge(old(t.items), now)
    ensures scanOk && failAt.Some? && failAt.value < |ExpiredKeys(old(t.items), now)| ==>
      r == Failed && |purged| == failAt.value
  {
    purged := [];
    if !scanOk {
      return Failed, purged;
    }
    var found := ScanExpired(t, now);
    ghost var ks := KeySeq(found);
    KeySeqFacts(found);
    ghost var before := t.items;
    var deletedCount := 0;
    for i := 0 to |found|
      invariant deletedCount == i && purged == ks[..i]
      invariant t.items == before - Seqs.Elems(ks[..i])
      invariant t.Valid()
      invariant failAt.None? || failAt.value >= i
    {
      if failAt == Some(i) {
        Seqs.PrefixNoDup(ks, i);
        return Failed, purged;
      }
      var k := KeyOf(found[i]);
      Seqs.PrefixElemsSnoc(ks, i);
      assert ks[..i + 1] == purged + [k];
      t.items := t.items - {k};
      purged := purged + [k];
      deletedCount := deletedCount + 1;
    }
    assert purged == ks;
    PurgeRemovesExactlyExpired(before, now);
    return Response(200, CleanupDone(CompletedMessage(deletedCount))), purged;
  }
}
