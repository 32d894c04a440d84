/**
 * The merge the notes page runs after fetching the cloud list: local notes
 * keep their positions, a cloud copy replaces its local note only when it is
 * strictly newer, and cloud notes with no local counterpart are appended in
 * cloud order.
 */
module NoteMerge {
  import opened Wrappers
  import opened LocalStore
  import NoteTable

  type Item = NoteTable.Item

  /** A cloud record as the page turns it into a local note: `id := noteId`, `synced := true`. */
  function FromCloud(c: Item): (n: Note)
    ensures n.id == c.noteId && n.synced
    ensures n.title == c.title && n.content == c.content && n.tags == c.tags
    ensures n.pinned == c.pinned && n.favorite == c.favorite
    ensures n.createdAt == c.createdAt && n.updatedAt == c.updatedAt
  {
    Note(c.noteId, c.title, c.content, c.createdAt, c.updatedAt, c.pinned, c.favorite, c.tags, true)
  }

  /** `findIndex(n => n.id === id)`: the first position holding `id`, or -1. */
  function FindIndex(ns: seq<Note>, id: string): (r: int)
    ensures -1 <= r < |ns|
    ensures r >= 0 ==> ns[r].id == id && forall j :: 0 <= j < r ==> ns[j].id != id
    ensures r == -1 ==> forall j :: 0 <= j < |ns| ==> ns[j].id != id
    decreases |ns|
  {
    if ns == [] then -1
    else if ns[0].id == id then 0
    else
      var r := FindIndex(ns[1..], id);
      if r == -1 then -1 else r + 1
  }

  /** One iteration of the merge loop for the cloud record `c`. */
  function MergeStep(ms: seq<Note>, c: Item): seq<Note> {
    var i := FindIndex(ms, c.noteId);
    if i >= 0 then
      if c.updatedAt > ms[i].updatedAt then ms[i := FromCloud(c)] else ms
    else
      ms + [FromCloud(c)]
  }

  /** The whole loop, in cloud order. */
  function MergeAll(local: seq<Note>, cloud: seq<Item>): seq<Note>
    decreases |cloud|
  {
    if cloud == [] then local
    else MergeStep(MergeAll(local, cloud[..|cloud| - 1]), cloud[|cloud| - 1])
  }

  /** The cloud copy of `id`: the last cloud record with that note id. */
  function CloudCopy(cloud: seq<Item>, id: string): (r: Option<Item>)
    ensures r.Some? ==> r.value.noteId == id
    decreases |cloud|
  {
    if cloud == [] then None
    else if cloud[|cloud| - 1].noteId == id then Some(cloud[|cloud| - 1])
    else CloudCopy(cloud[..|cloud| - 1], id)
  }

  /** What a local note becomes: the cloud copy if that is strictly newer, else itself. */
  function Resolve(n: Note, cloud: seq<Item>): Note {
    match CloudCopy(cloud, n.id)
    case Some(c) => if c.updatedAt > n.updatedAt then FromCloud(c) else n
    case None => n
  }

  /** The cloud notes with no local counterpart, converted, in cloud order. */
  function NewFromCloud(local: seq<Note>, cloud: seq<Item>): seq<Note>
    decreases |cloud|
  {
    if cloud == [] then []
    else
      var c := cloud[|cloud| - 1];
      NewFromCloud(local, cloud[..|cloud| - 1]) + (if c.noteId in Ids(local) then [] else [FromCloud(c)])
  }

  /** The local notes, each resolved against the cloud list. */
  function Resolved(local: seq<Note>, cloud: seq<Item>): (r: seq<Note>)
    ensures |r| == |local|
    ensures forall j :: 0 <= j < |local| ==> r[j] == Resolve(local[j], cloud)
  {
    seq(|local|, j requires 0 <= j < |local| => Resolve(local[j], cloud))
  }

  /** The declarative reading of the merge. */
  function MergeSpec(local: seq<Note>, cloud: seq<Item>): seq<Note> {
    Resolved(local, cloud) + NewFromCloud(local, cloud)
  }

  function CloudIds(cloud: seq<Item>): set<string> {
    set i | 0 <= i < |cloud| :: cloud[i].noteId
  }

  predicate UniqueNoteIds(cloud: seq<Item>) {
    forall i, j :: 0 <= i < j < |cloud| ==> cloud[i].noteId != cloud[j].noteId
  }

  lemma {:induction false} CloudCopyAbsent(cloud: seq<Item>, id: string)
    requires id !in CloudIds(cloud)
    ensures CloudCopy(cloud, id) == None
    decreases |cloud|
  {
    if cloud != [] {
      var p := cloud[..|cloud| - 1];
      assert CloudIds(p) <= CloudIds(cloud) by {
        forall x | x in CloudIds(p) ensures x in CloudIds(cloud) {
          var i :| 0 <= i < |p| && p[i].noteId == x;
          assert cloud[i] == p[i];
        }
      }
      assert cloud[|cloud| - 1].noteId in CloudIds(cloud);
      CloudCopyAbsent(p, id);
    }
  }

  lemma {:induction false} NewFromCloudIds(local: seq<Note>, cloud: seq<Item>)
    ensures forall k :: 0 <= k < |NewFromCloud(local, cloud)| ==>
      NewFromCloud(local, cloud)[k].id in CloudIds(cloud) && NewFromCloud(local, cloud)[k].id !in Ids(local)
    decreases |cloud|
  {
    if cloud != [] {
      var p := cloud[..|cloud| - 1];
      var c := cloud[|cloud| - 1];
      NewFromCloudIds(local, p);
      var b := NewFromCloud(local, p);
      forall k | 0 <= k < |b| ensures b[k].id in CloudIds(cloud) {
        var i :| 0 <= i < |p| && p[i].noteId == b[k].id;
        assert cloud[i] == p[i];
      }
      assert c.noteId in CloudIds(cloud);
    }
  }

  lemma PrefixUnique(cloud: seq<Item>)
    requires cloud != [] && UniqueNoteIds(cloud)
    ensures UniqueNoteIds(cloud[..|cloud| - 1])
    ensures cloud[|cloud| - 1].noteId !in CloudIds(cloud[..|cloud| - 1])
  {
    var p := cloud[..|cloud| - 1];
    forall i | 0 <= i < |p| ensures p[i].noteId != cloud[|cloud| - 1].noteId {
      assert p[i] == cloud[i];
    }
  }

  lemma CloudCopySnoc(p: seq<Item>, c: Item, id: string)
    ensures CloudCopy(p + [c], id) == if c.noteId == id then Some(c) else CloudCopy(p, id)
  {
    assert (p + [c])[..|p|] == p;
  }

  lemma NewFromCloudSnoc(local: seq<Note>, p: seq<Item>, c: Item)
    ensures NewFromCloud(local, p + [c]) == NewFromCloud(local, p) + (if c.noteId in Ids(local) then [] else [FromCloud(c)])
  {
    assert (p + [c])[..|p|] == p;
  }

  /** Resolving against one more cloud record changes only the local note with its id. */
  lemma ResolvedSnoc(local: seq<Note>, p: seq<Item>, c: Item)
    requires c.noteId !in CloudIds(p)
    ensures forall j :: 0 <= j < |local| && local[j].id != c.noteId ==>
      Resolved(local, p + [c])[j] == Resolved(local, p)[j]
    ensures forall j :: 0 <= j < |local| && local[j].id == c.noteId ==>
      Resolved(local, p)[j] == local[j]
      && Resolved(local, p + [c])[j] == (if c.updatedAt > local[j].updatedAt then FromCloud(c) else local[j])
  {
    CloudCopyAbsent(p, c.noteId);
    forall j | 0 <= j < |local| {
      CloudCopySnoc(p, c, local[j].id);
    }
  }

  /** The merge step for a cloud record whose note is also local. */
  lemma StepMatched(local: seq<Note>, p: seq<Item>, c: Item, li: int)
    requires UniqueIds(local) && 0 <= li < |local| && local[li].id == c.noteId
    requires c.noteId !in CloudIds(p)
    ensures MergeStep(MergeSpec(local, p), c) == MergeSpec(local, p + [c])
  {
    var a := Resolved(local, p);
    var b := NewFromCloud(local, p);
    ResolvedSnoc(local, p, c);
    NewFromCloudSnoc(local, p, c);
    assert c.noteId in Ids(local) by {
      assert local[li].id in Ids(local);
    }
    MatchedIndex(local, p, c, li);
    if c.updatedAt > local[li].updatedAt {
      ResolvedNewer(local, p, c, li);
      assert (a + b)[li := FromCloud(c)] == a[li := FromCloud(c)] + b;
    } else {
      ResolvedOlder(local, p, c, li);
    }
  }

  /** The merge loop finds a local note's cloud record at the note's own position. */
  lemma MatchedIndex(local: seq<Note>, p: seq<Item>, c: Item, li: int)
    requires UniqueIds(local) && 0 <= li < |local| && local[li].id == c.noteId
    requires c.noteId !in CloudIds(p)
    ensures FindIndex(MergeSpec(local, p), c.noteId) == li
    ensures MergeSpec(local, p)[li] == local[li]
  {
    var a := Resolved(local, p);
    var ms := a + NewFromCloud(local, p);
    ResolvedSnoc(local, p, c);
    forall j | 0 <= j < li ensures ms[j].id != c.noteId {
      assert ms[j] == a[j] == Resolve(local[j], p);
    }
    assert ms[li] == a[li];
  }

  lemma ResolvedNewer(local: seq<Note>, p: seq<Item>, c: Item, li: int)
    requires 0 <= li < |local| && local[li].id == c.noteId
    requires c.noteId !in CloudIds(p) && c.updatedAt > local[li].updatedAt
    requires UniqueIds(local)
    ensures Resolved(local, p + [c]) == Resolved(local, p)[li := FromCloud(c)]
  {
    ResolvedSnoc(local, p, c);
  }

  lemma ResolvedOlder(local: seq<Note>, p: seq<Item>, c: Item, li: int)
    requires 0 <= li < |local| && local[li].id == c.noteId
    requires c.noteId !in CloudIds(p) && c.updatedAt <= local[li].updatedAt
    requires UniqueIds(local)
    ensures Resolved(local, p + [c]) == Resolved(local, p)
  {
    ResolvedSnoc(local, p, c);
  }

  /** The merge step for a cloud record with no local note. */
  lemma StepNew(local: seq<Note>, p: seq<Item>, c: Item)
    requires c.noteId !in Ids(local) && c.noteId !in CloudIds(p)
    ensures MergeStep(MergeSpec(local, p), c) == MergeSpec(local, p + [c])
  {
    var a := Resolved(local, p);
    var b := NewFromCloud(local, p);
    var ms := a + b;
    ResolvedSnoc(local, p, c);
    NewFromCloudSnoc(local, p, c);
    NewFromCloudIds(local, p);
    forall k | 0 <= k < |ms| ensures ms[k].id != c.noteId {
      if k < |local| {
        assert local[k].id in Ids(local);
      } else {
        assert ms[k] == b[k - |local|];
      }
    }
    assert Resolved(local, p + [c]) == a;
  }

  /** With unique ids on both sides, the merge loop computes the declarative merge. */
  lemma {:induction false} MergeAllIsSpec(local: seq<Note>, cloud: seq<Item>)
    requires UniqueIds(local) && UniqueNoteIds(cloud)
    ensures MergeAll(local, cloud) == MergeSpec(local, cloud)
    decreases |cloud|
  {
    if cloud == [] {
      assert MergeSpec(local, cloud) == local;
    } else {
      var p := cloud[..|cloud| - 1];
      var c := cloud[|cloud| - 1];
      assert cloud == p + [c];
      PrefixUnique(cloud);
      MergeAllIsSpec(local, p);
      if c.noteId in Ids(local) {
        var li :| 0 <= li < |local| && local[li].id == c.noteId;
        StepMatched(local, p, c, li);
      } else {
        StepNew(local, p, c);
      }
    }
  }

  /** Positions, replacement rule and appended notes of the merge, for unique ids. */
  lemma MergeShape(local: seq<Note>, cloud: seq<Item>)
    requires UniqueIds(local) && UniqueNoteIds(cloud)
    ensures |MergeAll(local, cloud)| == |local| + |NewFromCloud(local, cloud)|
    ensures forall j :: 0 <= j < |local| ==> MergeAll(local, cloud)[j].id == local[j].id
    ensures forall j, k :: 0 <= j < |local| && 0 <= k < |cloud| && cloud[k].noteId == local[j].id ==>
      MergeAll(local, cloud)[j] == (if cloud[k].updatedAt > local[j].updatedAt then FromCloud(cloud[k]) else local[j])
    ensures forall j :: 0 <= j < |local| && local[j].id !in CloudIds(cloud) ==> MergeAll(local, cloud)[j] == local[j]
  {
    MergeAllIsSpec(local, cloud);
    forall j, k | 0 <= j < |local| && 0 <= k < |cloud| && cloud[k].noteId == local[j].id
      ensures CloudCopy(cloud, local[j].id) == Some(cloud[k])
    {
      CloudCopyUnique(cloud, k);
    }
    forall j | 0 <= j < |local| && local[j].id !in CloudIds(cloud)
      ensures CloudCopy(cloud, local[j].id) == None
    {
      CloudCopyAbsent(cloud, local[j].id);
    }
  }

  lemma {:induction false} CloudCopyUnique(cloud: seq<Item>, k: int)
    requires UniqueNoteIds(cloud) && 0 <= k < |cloud|
    ensures CloudCopy(cloud, cloud[k].noteId) == Some(cloud[k])
    decreases |cloud|
  {
    if k < |cloud| - 1 {
      var p := cloud[..|cloud| - 1];
      assert p[k] == cloud[k];
      PrefixUnique(cloud);
      CloudCopyUnique(p, k);
    }
  }

  /** The loop of the page: index assignment and push on a copy of the local list. */
  method MergeNotes(local: seq<Note>, cloud: seq<Item>) returns (merged: seq<Note>)
    ensures merged == MergeAll(local, cloud)
  {
    merged := local;
    for k := 0 to |cloud|
      invariant merged == MergeAll(local, cloud[..k])
    {
      ghost var before := merged;
      var c := cloud[k];
      var existingIndex := FindIndex(merged, c.noteId);
      if existingIndex >= 0 {
        if c.updatedAt > merged[existingIndex].updatedAt {
          merged := merged[existingIndex := FromCloud(c)];
        }
      } else {
        merged := merged + [FromCloud(c)];
      }
      assert cloud[..k + 1][..k] == cloud[..k];
      assert merged == MergeStep(before, c);
    }
    assert cloud[..|cloud|] == cloud;
  }
}
