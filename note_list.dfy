/**
 * The pure list helpers of the notes page: the tag edits, the active-note
 * lookup and the sidebar's search-and-sort.
 */
module NoteList {
  import opened Wrappers
  import opened LocalStore
  import Text
  import Seqs

  /** The tag list after adding `value`: appended only when absent. */
  function AddTag(tags: seq<string>, value: string): (r: seq<string>)
    ensures value in r
    ensures value in tags ==> r == tags
    ensures value !in tags ==> |r| == |tags| + 1 && r[..|tags|] == tags && r[|tags|] == value
  {
    if value in tags then tags else tags + [value]
  }

  /** The tag list after removing `tag`: every occurrence goes, the rest keep their order. */
  function RemoveTag(tags: seq<string>, tag: string): (r: seq<string>)
    ensures tag !in r
    ensures forall i :: 0 <= i < |tags| && tags[i] != tag ==> tags[i] in r
    ensures forall i :: 0 <= i < |r| ==> r[i] in tags
  {
    Seqs.Filter(tags, t => t != tag)
  }

  /** Removing keeps the other tags in their original order. */
  lemma RemoveTagKeepsOrder(tags: seq<string>, tag: string)
    ensures Seqs.IsSubseq(RemoveTag(tags, tag), tags)
  {
    Seqs.FilterIsSubseq(tags, t => t != tag);
  }

  /** Adding a present tag changes nothing, so adding twice is adding once. */
  lemma AddTagIdempotent(tags: seq<string>, value: string)
    ensures AddTag(AddTag(tags, value), value) == AddTag(tags, value)
  {
  }

  /** Removing a tag that was just added to a list without it gives the list back. */
  lemma {:induction false} RemoveUndoesAdd(tags: seq<string>, value: string)
    requires value !in tags
    ensures RemoveTag(AddTag(tags, value), value) == tags
  {
    var p := (t: string) => t != value;
    assert forall i :: 0 <= i < |tags| ==> p(tags[i]);
    Seqs.FilterAll(tags, p);
    FilterSnocRejected(tags, value, p);
  }

  lemma {:induction false} FilterSnocRejected(s: seq<string>, x: string, p: string -> bool)
    requires !p(x)
    ensures Seqs.Filter(s + [x], p) == Seqs.Filter(s, p)
    decreases |s|
  {
    if s == [] {
      assert [] + [x] == [x];
      assert Seqs.Filter([x], p) == Seqs.Filter([], p) by {
        assert [x][1..] == [];
      }
    } else {
      assert (s + [x])[1..] == s[1..] + [x];
      assert (s + [x])[0] == s[0];
      FilterSnocRejected(s[1..], x, p);
    }
  }

  /** `notes.find(n => n.id === id)`: the first note with that id. */
  function FindNote(notes: seq<Note>, id: Option<string>): (r: Option<Note>)
    ensures r.None? <==> id.None? || forall i :: 0 <= i < |notes| ==> notes[i].id != id.value
    ensures r.Some? ==> r.value.id == id.value && exists i :: (0 <= i < |notes| && notes[i] == r.value
      && forall j :: 0 <= j < i ==> notes[j].id != id.value)
  {
    if id.None? || notes == [] then None
    else if notes[0].id == id.value then Some(notes[0])
    else
      var r := FindNote(notes[1..], id);
      assert forall i :: 1 <= i < |notes| ==> notes[i] == notes[1..][i - 1];
      if r.Some? then
        var k :| 0 <= k < |notes[1..]| && notes[1..][k] == r.value
          && forall j :: 0 <= j < k ==> notes[1..][j].id != id.value;
        assert notes[k + 1] == r.value;
        r
      else r
  }

  /** The search: the title contains the term, both lowercased. */
  predicate TitleMatches(n: Note, term: string) {
    Text.Includes(Text.Lower(n.title), Text.Lower(term))
  }

  /** The sort order: pinned notes first, then the most recently updated first. */
  predicate Before(a: Note, b: Note) {
    (a.pinned && !b.pinned) || (a.pinned == b.pinned && a.updatedAt >= b.updatedAt)
  }

  predicate Sorted(s: seq<Note>) {
    forall i, j :: 0 <= i < j < |s| ==> Before(s[i], s[j])
  }

  lemma SortedCons(h: Note, t: seq<Note>)
    requires Sorted(t)
    requires forall i :: 0 <= i < |t| ==> Before(h, t[i])
    ensures Sorted([h] + t)
  {
    var s := [h] + t;
    forall i, j | 0 <= i < j < |s| ensures Before(s[i], s[j]) {
      assert s[j] == t[j - 1];
      if i > 0 { assert s[i] == t[i - 1]; }
    }
  }

  /** Inserts `x` before the first note it may precede, which puts it ahead of the notes it ties with. */
  function Insert(x: Note, s: seq<Note>): (r: seq<Note>)
    requires Sorted(s)
    ensures Sorted(r)
    ensures multiset(r) == multiset(s) + multiset{x}
    decreases |s|
  {
    if s == [] || Before(x, s[0]) then
      SortedCons(x, s);
      [x] + s
    else
      var rest := Insert(x, s[1..]);
      assert s == [s[0]] + s[1..];
      forall i | 0 <= i < |rest| ensures Before(s[0], rest[i]) {
        assert rest[i] in multiset(rest);
        if rest[i] != x {
          assert rest[i] in multiset(s[1..]);
          var j :| 0 <= j < |s[1..]| && s[1..][j] == rest[i];
          assert s[j + 1] == rest[i];
        }
      }
      SortedCons(s[0], rest);
      [s[0]] + rest
  }

  /** A stable insertion sort by `Before`, standing for the array sort with the same comparator. */
  function SortNotes(s: seq<Note>): (r: seq<Note>)
    ensures Sorted(r)
    ensures multiset(r) == multiset(s)
    decreases |s|
  {
    if s == [] then []
    else
      assert s == [s[0]] + s[1..];
      Insert(s[0], SortNotes(s[1..]))
  }

  /** The sidebar list: the notes whose title matches the search, sorted. */
  function FilteredNotes(notes: seq<Note>, term: string): seq<Note> {
    SortNotes(Seqs.Filter(notes, n => TitleMatches(n, term)))
  }

  /** The sidebar list is sorted, is a permutation of the matching notes, and holds exactly the notes that match. */
  lemma FilteredNotesSpec(notes: seq<Note>, term: string)
    ensures Sorted(FilteredNotes(notes, term))
    ensures multiset(FilteredNotes(notes, term)) == multiset(Seqs.Filter(notes, n => TitleMatches(n, term)))
    ensures forall n :: n in FilteredNotes(notes, term) <==> n in notes && TitleMatches(n, term)
  {
    var matching := Seqs.Filter(notes, n => TitleMatches(n, term));
    forall n ensures n in FilteredNotes(notes, term) <==> n in notes && TitleMatches(n, term) {
      assert n in FilteredNotes(notes, term) <==> n in multiset(matching);
      if n in notes && TitleMatches(n, term) {
        var i :| 0 <= i < |notes| && notes[i] == n;
      }
    }
  }

  /** An empty search term keeps every note. */
  lemma EmptyTermKeepsAll(notes: seq<Note>)
    ensures multiset(FilteredNotes(notes, "")) == multiset(notes)
  {
    forall i | 0 <= i < |notes| ensures TitleMatches(notes[i], "") {
      Text.IncludesEmpty(Text.Lower(notes[i].title));
    }
    Seqs.FilterAll(notes, n => TitleMatches(n, ""));
  }
}
