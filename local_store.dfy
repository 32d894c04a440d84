/**
 * The on-device note table (a Dexie table keyed by `id`). Each operation of
 * `localNotesAPI` is a method of `NoteTable`; the table is a map from id to
 * record, so a put replaces whatever was stored under the same id.
 */
module LocalStore {
  import opened Wrappers

  /** A local note record. Timestamps are milliseconds since the epoch. */
  datatype Note = Note(
    id: string,
    title: string,
    content: string,
    createdAt: int,
    updatedAt: int,
    pinned: bool,
    favorite: bool,
    tags: seq<string>,
    synced: bool)

  /** The ids of a list of notes. */
  function Ids(ns: seq<Note>): set<string> {
    set i | 0 <= i < |ns| :: ns[i].id
  }

  lemma IdsAppend(ns: seq<Note>, n: Note)
    ensures Ids(ns + [n]) == Ids(ns) + {n.id}
  {
    var ms := ns + [n];
    assert ms[|ns|] == n;
    forall id | id in Ids(ns) ensures id in Ids(ms) {
      var i :| 0 <= i < |ns| && ns[i].id == id;
      assert ms[i] == ns[i];
    }
  }

  /** No id occurs twice in the list. */
  predicate UniqueIds(ns: seq<Note>) {
    forall i, j :: 0 <= i < j < |ns| ==> ns[i].id != ns[j].id
  }

  /** The record `saveNote` writes: the caller's note with a fresh `updatedAt` and `synced` cleared. */
  function Stamped(n: Note, now: int): (r: Note)
    ensures r.updatedAt == now && !r.synced
    ensures r.id == n.id && r.title == n.title && r.content == n.content
    ensures r.createdAt == n.createdAt && r.pinned == n.pinned
    ensures r.favorite == n.favorite && r.tags == n.tags
  {
    n.(updatedAt := now, synced := false)
  }

  /** The ids of the stored records that are not synced. */
  function UnsyncedIds(m: map<string, Note>): set<string> {
    set id | id in m && !m[id].synced
  }

  class NoteTable {
    var notes: map<string, Note>

    /** Every record is stored under its own id. */
    ghost predicate Valid()
      reads this
    {
      forall id :: id in notes ==> notes[id].id == id
    }

    constructor ()
      ensures Valid() && notes == map[]
    {
      notes := map[];
    }

    /** `getAllNotes`: every stored record, once each, in no particular order. */
    method GetAllNotes() returns (all: seq<Note>)
      requires Valid()
      ensures UniqueIds(all) && Ids(all) == notes.Keys
      ensures forall i :: 0 <= i < |all| ==> all[i].id in notes && notes[all[i].id] == all[i]
    {
      all := [];
      var rest := notes.Keys;
      while rest != {}
        invariant rest <= notes.Keys
        invariant Ids(all) == notes.Keys - rest
        invariant UniqueIds(all)
        invariant forall i :: 0 <= i < |all| ==> all[i].id in notes && notes[all[i].id] == all[i]
        decreases rest
      {
        var id :| id in rest;
        assert id !in Ids(all);
        IdsAppend(all, notes[id]);
        all := all + [notes[id]];
        rest := rest - {id};
      }
    }

    /** `getNote(id)`: the record stored under `id`, if any. */
    method GetNote(id: string) returns (r: Option<Note>)
      ensures r.Some? <==> id in notes
      ensures r.Some? ==> r.value == notes[id]
    {
      if id in notes {
        r := Some(notes[id]);
      } else {
        r := None;
      }
    }

    /** `saveNote(note)`: upsert under `note.id`, restamping `updatedAt` and clearing `synced`. */
    method SaveNote(note: Note, now: int)
      requires Valid()
      modifies this
      ensures Valid()
      ensures notes == old(notes)[note.id := Stamped(note, now)]
    {
      notes := notes[note.id := Stamped(note, now)];
    }

    /** `deleteNote(id)`: removes that record; deleting a missing id changes nothing. */
    method DeleteNote(id: string)
      requires Valid()
      modifies this
      ensures Valid()
      ensures notes == old(notes) - {id}
    {
      notes := notes - {id};
    }

    /** `markAsSynced(id)`: sets `synced` on that record only; a missing id changes nothing. */
    method MarkAsSynced(id: string)
      requires Valid()
      modifies this
      ensures Valid()
      ensures notes.Keys == old(notes).Keys
      ensures id in notes ==> notes == old(notes)[id := old(notes)[id].(synced := true)]
      ensures id !in old(notes) ==> notes == old(notes)
    {
      if id in notes {
        notes := notes[id := notes[id].(synced := true)];
      }
    }

    /** `getUnsyncedNotes`: exactly the stored records whose `synced` is false, once each. */
    method GetUnsyncedNotes() returns (unsynced: seq<Note>)
      requires Valid()
      ensures UniqueIds(unsynced) && Ids(unsynced) == UnsyncedIds(notes)
      ensures forall i :: 0 <= i < |unsynced| ==>
        unsynced[i].id in notes && notes[unsynced[i].id] == unsynced[i] && !unsynced[i].synced
    {
      unsynced := [];
      var rest := notes.Keys;
      while rest != {}
        invariant rest <= notes.Keys
        invariant Ids(unsynced) == UnsyncedIds(notes) - rest
        invariant UniqueIds(unsynced)
        invariant forall i :: 0 <= i < |unsynced| ==>
          unsynced[i].id in notes && notes[unsynced[i].id] == unsynced[i] && !unsynced[i].synced
        decreases rest
      {
        var id :| id in rest;
        assert id !in Ids(unsynced);
        if !notes[id].synced {
          IdsAppend(unsynced, notes[id]);
          unsynced := unsynced + [notes[id]];
        }
        rest := rest - {id};
      }
    }
  }

  /** Saving then reading back returns the caller's note, restamped and unsynced. */
  method SaveThenGet(t: NoteTable, n: Note, now: int) returns (r: Option<Note>)
    requires t.Valid()
    modifies t
    ensures t.Valid()
    ensures r == Some(Stamped(n, now))
  {
    t.SaveNote(n, now);
    r := t.GetNote(n.id);
  }

  /** Marking a saved note as synced changes only its `synced` flag. */
  method SaveMarkThenGet(t: NoteTable, n: Note, now: int) returns (r: Option<Note>)
    requires t.Valid()
    modifies t
    ensures t.Valid()
    ensures r == Some(n.(updatedAt := now, synced := true))
  {
    t.SaveNote(n, now);
    t.MarkAsSynced(n.id);
    r := t.GetNote(n.id);
  }
}
