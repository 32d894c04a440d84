/**
 * The notes page as a state machine: the in-memory list, the active note,
 * the sync status and the online flag, over the local store. Remote calls
 * are parameters: whether the cloud accepted a push, and what a fetch of
 * the cloud list returned.
 */
module NotesApp {
  import opened Wrappers
  import opened LocalStore
  import NoteTable
  import NoteList
  import NoteMerge
  import Seqs

  datatype SyncStatus = Idle | Syncing | Online | Offline

  /** The property edits the page makes to the active note. */
  datatype Edit = SetContent(html: string) | SetTitle(title: string) | SetPinned(pinned: bool) | SetTags(tags: seq<string>)

  function Apply(n: Note, e: Edit): Note {
    match e
    case SetContent(html) => n.(content := html)
    case SetTitle(t) => n.(title := t)
    case SetPinned(b) => n.(pinned := b)
    case SetTags(ts) => n.(tags := ts)
  }

  /** `prev.map(n => n.id === id ? updated : n)`. */
  function ReplaceById(ns: seq<Note>, id: string, updated: Note): (r: seq<Note>)
    ensures |r| == |ns|
  {
    seq(|ns|, i requires 0 <= i < |ns| => if ns[i].id == id then updated else ns[i])
  }

  /** After replacing, a lookup of the id finds the new record, and the other notes are untouched. */
  lemma ReplaceByIdFound(ns: seq<Note>, id: string, updated: Note)
    requires updated.id == id && exists i :: 0 <= i < |ns| && ns[i].id == id
    ensures NoteList.FindNote(ReplaceById(ns, id, updated), Some(id)) == Some(updated)
    ensures forall i :: 0 <= i < |ns| && ns[i].id != id ==> ReplaceById(ns, id, updated)[i] == ns[i]
  {
    var r := ReplaceById(ns, id, updated);
    var i :| 0 <= i < |ns| && ns[i].id == id;
    assert r[i].id == id;
  }

  /** The store after `markAsSynced(id)`. */
  function MarkedSynced(m: map<string, Note>, id: string): map<string, Note> {
    if id in m then m[id := m[id].(synced := true)] else m
  }

  /** The store after pushing each note of `ns` in turn, marking those the cloud accepts as synced. */
  function PushAll(m: map<string, Note>, ns: seq<Note>, accepts: Note -> bool): map<string, Note>
    decreases |ns|
  {
    if ns == [] then m
    else
      var last := ns[|ns| - 1];
      var before := PushAll(m, ns[..|ns| - 1], accepts);
      if accepts(last) then MarkedSynced(before, last.id) else before
  }

  /**
   * Pushing stored notes marks exactly the pushed ids whose push is accepted,
   * and leaves every other record as it was.
   */
  lemma {:induction false} PushAllEffect(m: map<string, Note>, ns: seq<Note>, accepts: Note -> bool)
    requires forall i :: 0 <= i < |ns| ==> ns[i].id in m && m[ns[i].id] == ns[i]
    ensures PushAll(m, ns, accepts).Keys == m.Keys
    ensures forall id :: id in m ==>
      PushAll(m, ns, accepts)[id] == if id in Ids(ns) && accepts(m[id]) then m[id].(synced := true) else m[id]
    decreases |ns|
  {
    if ns != [] {
      var p := ns[..|ns| - 1];
      var last := ns[|ns| - 1];
      var q := PushAll(m, p, accepts);
      assert PushAll(m, ns, accepts) == if accepts(last) then MarkedSynced(q, last.id) else q;
      assert forall i :: 0 <= i < |p| ==> p[i] == ns[i];
      PushAllEffect(m, p, accepts);
      PushStep(m, q, Ids(p), last, accepts);
      IdsSnoc(ns);
    }
  }

  lemma IdsSnoc(ns: seq<Note>)
    requires ns != []
    ensures Ids(ns) == Ids(ns[..|ns| - 1]) + {ns[|ns| - 1].id}
  {
    assert ns == ns[..|ns| - 1] + [ns[|ns| - 1]];
    IdsAppend(ns[..|ns| - 1], ns[|ns| - 1]);
  }

  /** One more push keeps the pointwise description, with the pushed id added. */
  lemma PushStep(m: map<string, Note>, q: map<string, Note>, pushed: set<string>, last: Note, accepts: Note -> bool)
    requires q.Keys == m.Keys && last.id in m && m[last.id] == last
    requires forall id :: id in m ==>
      q[id] == if id in pushed && accepts(m[id]) then m[id].(synced := true) else m[id]
    ensures var r := if accepts(last) then MarkedSynced(q, last.id) else q;
      r.Keys == m.Keys &&
      forall id :: id in m ==>
        r[id] == if id in pushed + {last.id} && accepts(m[id]) then m[id].(synced := true) else m[id]
  {
  }

  /** The store after saving each note of `ns` in turn at `now`. */
  function SaveAll(m: map<string, Note>, ns: seq<Note>, now: int): map<string, Note>
    decreases |ns|
  {
    if ns == [] then m
    else
      var last := ns[|ns| - 1];
      SaveAll(m, ns[..|ns| - 1], now)[last.id := Stamped(last, now)]
  }

  /**
   * Saving a list leaves every saved id unsynced and stamped `now`, whatever
   * the in-memory copy said, and every other record as it was.
   */
  lemma {:induction false} SaveAllEffect(m: map<string, Note>, ns: seq<Note>, now: int)
    ensures SaveAll(m, ns, now).Keys == m.Keys + Ids(ns)
    ensures forall id :: id in Ids(ns) ==> !SaveAll(m, ns, now)[id].synced && SaveAll(m, ns, now)[id].updatedAt == now
    ensures forall id :: id in m && id !in Ids(ns) ==> SaveAll(m, ns, now)[id] == m[id]
    decreases |ns|
  {
    if ns != [] {
      var p := ns[..|ns| - 1];
      var last := ns[|ns| - 1];
      assert ns == p + [last];
      IdsAppend(p, last);
      SaveAllEffect(m, p, now);
    }
  }

  /** The merge keeps every local note's id at its position, so saving the merge covers the whole store. */
  lemma {:induction false} MergeKeepsLocalIds(local: seq<Note>, cloud: seq<NoteTable.Item>)
    ensures |NoteMerge.MergeAll(local, cloud)| >= |local|
    ensures forall j :: 0 <= j < |local| ==> NoteMerge.MergeAll(local, cloud)[j].id == local[j].id
    decreases |cloud|
  {
    if cloud != [] {
      var p := cloud[..|cloud| - 1];
      MergeKeepsLocalIds(local, p);
    }
  }

  /** Saving a merge of the whole store leaves exactly the merged ids, all unsynced and stamped `now`. */
  lemma SavedMergeUnsynced(m: map<string, Note>, local: seq<Note>, cloud: seq<NoteTable.Item>, now: int)
    requires Ids(local) == m.Keys
    ensures var merged := NoteMerge.MergeAll(local, cloud);
      && SaveAll(m, merged, now).Keys == Ids(merged)
      && forall id :: id in SaveAll(m, merged, now) ==>
           !SaveAll(m, merged, now)[id].synced && SaveAll(m, merged, now)[id].updatedAt == now
  {
    var merged := NoteMerge.MergeAll(local, cloud);
    SaveAllEffect(m, merged, now);
    MergeKeepsLocalIds(local, cloud);
    forall id | id in m ensures id in Ids(merged) {
      var j :| 0 <= j < |local| && local[j].id == id;
      assert merged[j].id == id;
    }
  }

  class NotesPage {
    const store: LocalStore.NoteTable
    var notes: seq<Note>
    var activeNoteId: Option<string>
    var syncStatus: SyncStatus
    var online: bool
    var saving: bool
    var saveSuccess: bool
    var showRenameModal: bool
    var showTagModal: bool

    ghost predicate Valid()
      reads this, store
    {
      store.Valid()
    }

    constructor (s: LocalStore.NoteTable, initiallyOnline: bool)
      requires s.Valid()
      ensures Valid() && store == s && notes == [] && activeNoteId.None?
      ensures syncStatus == Idle && online == initiallyOnline
      ensures !saving && !saveSuccess && !showRenameModal && !showTagModal
    {
      store := s;
      notes := [];
      activeNoteId := None;
      syncStatus := Idle;
      online := initiallyOnline;
      saving := false;
      saveSuccess := false;
      showRenameModal := false;
      showTagModal := false;
    }

    /**
     * `syncNoteToAWS`: offline it does nothing; online it pushes the note,
     * marks it synced only when the cloud accepted it, and always ends with
     * status `Online`. `sent` says whether a push was made.
     */
    method SyncNoteToCloud(note: Note, pushOk: bool) returns (sent: bool)
      requires Valid()
      modifies this, store
      ensures Valid()
      ensures sent == old(online)
      ensures online == old(online) && notes == old(notes) && activeNoteId == old(activeNoteId)
      ensures saving == old(saving) && saveSuccess == old(saveSuccess)
      ensures showRenameModal == old(showRenameModal) && showTagModal == old(showTagModal)
      ensures !sent ==> store.notes == old(store.notes) && syncStatus == old(syncStatus)
      ensures sent ==> syncStatus == Online
      ensures sent && pushOk ==> store.notes == MarkedSynced(old(store.notes), note.id)
      ensures sent && !pushOk ==> store.notes == old(store.notes)
    {
      if !online {
        return false;
      }
      syncStatus := Syncing;
      sent := true;
      if pushOk {
        store.MarkAsSynced(note.id);
      }
      syncStatus := Online;
    }

    /**
     * `syncUnsyncedNotes`: online, it pushes every unsynced stored note in
     * turn; `accepts` says which pushes the cloud accepted. A rejected push
     * does not stop the others.
     */
    method SyncUnsyncedNotes(accepts: Note -> bool) returns (attempted: seq<Note>)
      requires Valid()
      modifies this, store
      ensures Valid()
      ensures online == old(online) && notes == old(notes) && activeNoteId == old(activeNoteId)
      ensures saving == old(saving) && saveSuccess == old(saveSuccess)
      ensures showRenameModal == old(showRenameModal) && showTagModal == old(showTagModal)
      ensures !online ==> attempted == [] && store.notes == old(store.notes) && syncStatus == old(syncStatus)
      ensures online ==> syncStatus == Online
      ensures online ==> UniqueIds(attempted) && Ids(attempted) == UnsyncedIds(old(store.notes))
      ensures online ==> forall i :: 0 <= i < |attempted| ==>
        attempted[i].id in old(store.notes) && attempted[i] == old(store.notes)[attempted[i].id]
      ensures store.notes.Keys == old(store.notes).Keys
      ensures forall id :: id in store.notes ==>
        store.notes[id] == if online && !old(store.notes)[id].synced && accepts(old(store.notes)[id])
                           then old(store.notes)[id].(synced := true) else old(store.notes)[id]
    {
      if !online {
        return [];
      }
      syncStatus := Syncing;
      attempted := store.GetUnsyncedNotes();
      ghost var before := store.notes;
      for i := 0 to |attempted|
        invariant store.Valid() && online
        invariant notes == old(notes) && activeNoteId == old(activeNoteId)
        invariant saving == old(saving) && saveSuccess == old(saveSuccess)
        invariant showRenameModal == old(showRenameModal) && showTagModal == old(showTagModal)
        invariant store.notes == PushAll(before, attempted[..i], accepts)
      {
        var note := attempted[i];
        assert attempted[..i + 1][..i] == attempted[..i];
        var _ := SyncNoteToCloud(note, accepts(note));
      }
      assert attempted[..|attempted|] == attempted;
      PushAllEffect(before, attempted, accepts);
      syncStatus := Online;
    }

    /** The `online` event: set the flag, report `Online`, and push the unsynced notes; nothing is pulled. */
    method HandleOnline(accepts: Note -> bool) returns (attempted: seq<Note>)
      requires Valid()
      modifies this, store
      ensures Valid() && online && syncStatus == Online
      ensures notes == old(notes) && activeNoteId == old(activeNoteId)
      ensures saving == old(saving) && saveSuccess == old(saveSuccess)
      ensures showRenameModal == old(showRenameModal) && showTagModal == old(showTagModal)
      ensures UniqueIds(attempted) && Ids(attempted) == UnsyncedIds(old(store.notes))
      ensures store.notes.Keys == old(store.notes).Keys
      ensures forall id :: id in store.notes ==>
        store.notes[id] == if !old(store.notes)[id].synced && accepts(old(store.notes)[id])
                           then old(store.notes)[id].(synced := true) else old(store.notes)[id]
    {
      online := true;
      syncStatus := Online;
      attempted := SyncUnsyncedNotes(accepts);
    }

    /** The `offline` event. */
    method HandleOffline()
      modifies this
      ensures !online && syncStatus == Offline
      ensures notes == old(notes) && activeNoteId == old(activeNoteId)
      ensures saving == old(saving) && saveSuccess == old(saveSuccess)
      ensures showRenameModal == old(showRenameModal) && showTagModal == old(showTagModal)
    {
      online := false;
      syncStatus := Offline;
    }

    /**
     * `loadNotesFromAWS`: online and with a fetched cloud list, merge it into
     * the stored notes, save every merged note and show the merge. `local`
     * is the list the store returned. Offline, or when the fetch failed,
     * nothing changes.
     */
    method LoadNotesFromCloud(fetched: Option<seq<NoteTable.Item>>, now: int) returns (local: seq<Note>)
      requires Valid()
      modifies this, store
      ensures Valid()
      ensures activeNoteId == old(activeNoteId) && online == old(online) && syncStatus == old(syncStatus)
      ensures saving == old(saving) && saveSuccess == old(saveSuccess)
      ensures showRenameModal == old(showRenameModal) && showTagModal == old(showTagModal)
      ensures !(old(online) && fetched.Some?) ==> notes == old(notes) && store.notes == old(store.notes)
      ensures old(online) && fetched.Some? ==>
        && UniqueIds(local) && Ids(local) == old(store.notes).Keys
        && (forall i :: 0 <= i < |local| ==> old(store.notes)[local[i].id] == local[i])
        && notes == NoteMerge.MergeAll(local, fetched.value)
        && store.notes == SaveAll(old(store.notes), notes, now)
        && store.notes.Keys == Ids(notes)
        && forall id :: id in store.notes ==> !store.notes[id].synced && store.notes[id].updatedAt == now
    {
      local := [];
      if !online || fetched.None? {
        return;
      }
      local := store.GetAllNotes();
      var merged := NoteMerge.MergeNotes(local, fetched.value);
      ghost var before := store.notes;
      SaveEach(merged, now);
      notes := merged;
      SavedMergeUnsynced(before, local, fetched.value, now);
    }

    /** The save loop after a merge: `saveNote` on each note in turn. */
    method SaveEach(ns: seq<Note>, now: int)
      requires store.Valid()
      modifies store
      ensures store.Valid()
      ensures store.notes == SaveAll(old(store.notes), ns, now)
    {
      for i := 0 to |ns|
        invariant store.Valid()
        invariant store.notes == SaveAll(old(store.notes), ns[..i], now)
      {
        assert ns[..i + 1][..i] == ns[..i];
        store.SaveNote(ns[i], now);
      }
      assert ns[..|ns|] == ns;
    }

    /**
     * `createNewNote`: a fresh note titled `<today>_<suffix>` under id
     * `note_<uuid>`, saved, put at the head of the list, made active and
     * pushed.
     */
    method CreateNewNote(uuid: string, today: string, suffix: string, now: int, pushOk: bool)
      returns (created: Note, sent: bool)
      requires Valid()
      modifies this, store
      ensures Valid()
      ensures created == Note("note_" + uuid, today + "_" + suffix, "", now, now, false, false, [], false)
      ensures notes == [created] + old(notes) && activeNoteId == Some(created.id)
      ensures sent == old(online)
      ensures !(sent && pushOk) ==> store.notes == old(store.notes)[created.id := created]
      ensures sent && pushOk ==> store.notes == old(store.notes)[created.id := created.(synced := true)]
      ensures online == old(online) && (sent ==> syncStatus == Online) && (!sent ==> syncStatus == old(syncStatus))
      ensures saving == old(saving) && saveSuccess == old(saveSuccess)
      ensures showRenameModal == old(showRenameModal) && showTagModal == old(showTagModal)
    {
      created := Note("note_" + uuid, today + "_" + suffix, "", now, now, false, false, [], false);
      store.SaveNote(created, now);
      notes := [created] + notes;
      activeNoteId := Some(created.id);
      sent := SyncNoteToCloud(created, pushOk);
    }

    /**
     * The whole effect of `updateNoteProperty` on the active note `a` with
     * the edit `e`: the edited note, restamped, replaces `a` in the list and
     * in the store, and is pushed when online (`sent`), which marks it
     * synced when the cloud accepts it. The active id and the connectivity
     * stay as they were.
     */
    twostate predicate EditedActive(a: Note, e: Edit, now: int, pushOk: bool, sent: bool)
      reads this, store
    {
      var updated := Apply(a, e).(updatedAt := now);
      var saved := old(store.notes)[a.id := Stamped(updated, now)];
      && sent == old(online)
      && notes == ReplaceById(old(notes), a.id, updated)
      && store.notes == (if sent && pushOk then MarkedSynced(saved, a.id) else saved)
      && activeNoteId == old(activeNoteId) && online == old(online)
      && syncStatus == (if sent then Online else old(syncStatus))
    }

    /**
     * `updateNoteProperty` (and the autosave, for content): the active note
     * with the edit and a fresh `updatedAt` is saved, replaces its entry in
     * the list, and is pushed. Without an active note the source's save
     * rejects an id-less record, so nothing changes.
     */
    method UpdateNoteProperty(e: Edit, now: int, pushOk: bool) returns (sent: bool)
      requires Valid()
      modifies this, store
      ensures Valid()
      ensures showRenameModal == old(showRenameModal) && showTagModal == old(showTagModal)
      ensures saving == old(saving) && saveSuccess == old(saveSuccess)
      ensures NoteList.FindNote(old(notes), old(activeNoteId)).None? ==>
        !sent && unchanged(this) && store.notes == old(store.notes)
      ensures NoteList.FindNote(old(notes), old(activeNoteId)).Some? ==>
        EditedActive(NoteList.FindNote(old(notes), old(activeNoteId)).value, e, now, pushOk, sent)
    {
      var active := NoteList.FindNote(notes, activeNoteId);
      if active.None? {
        return false;
      }
      var updated := Apply(active.value, e).(updatedAt := now);
      store.SaveNote(updated, now);
      notes := ReplaceById(notes, activeNoteId.value, updated);
      sent := SyncNoteToCloud(updated, pushOk);
    }

    /**
     * The debounced autosave. Without an active id no listener exists, so
     * nothing happens; with an id whose note is missing, `saving` is set and
     * stays set; otherwise the content is saved like any edit, and `saving`
     * clears with success shown.
     */
    method Autosave(html: string, now: int, pushOk: bool) returns (sent: bool)
      requires Valid()
      modifies this, store
      ensures Valid()
      ensures showRenameModal == old(showRenameModal) && showTagModal == old(showTagModal)
      ensures old(activeNoteId).None? ==> !sent && unchanged(this) && store.notes == old(store.notes)
      ensures old(activeNoteId).Some? && NoteList.FindNote(old(notes), old(activeNoteId)).None? ==>
        && !sent && saving && store.notes == old(store.notes)
        && unchanged(this`notes, this`activeNoteId, this`syncStatus, this`online, this`saveSuccess)
      ensures NoteList.FindNote(old(notes), old(activeNoteId)).Some? ==>
        && EditedActive(NoteList.FindNote(old(notes), old(activeNoteId)).value, SetContent(html), now, pushOk, sent)
        && !saving && saveSuccess
    {
      if activeNoteId.None? {
        return false;
      }
      saving := true;
      var active := NoteList.FindNote(notes, activeNoteId);
      if active.None? {
        return false;
      }
      sent := UpdateNoteProperty(SetContent(html), now, pushOk);
      saving := false;
      saveSuccess := true;
    }

    /**
     * `handleRename`: retitle the active note and close the rename dialog.
     * Without an active note the save rejects first and the dialog stays.
     */
    method HandleRename(value: string, now: int, pushOk: bool) returns (sent: bool)
      requires Valid()
      modifies this, store
      ensures Valid()
      ensures NoteList.FindNote(old(notes), old(activeNoteId)).None? ==>
        !sent && unchanged(this) && store.notes == old(store.notes)
      ensures NoteList.FindNote(old(notes), old(activeNoteId)).Some? ==>
        && EditedActive(NoteList.FindNote(old(notes), old(activeNoteId)).value, SetTitle(value), now, pushOk, sent)
        && !showRenameModal && showTagModal == old(showTagModal)
        && saving == old(saving) && saveSuccess == old(saveSuccess)
    {
      var active := NoteList.FindNote(notes, activeNoteId);
      if active.None? {
        return false;
      }
      sent := UpdateNoteProperty(SetTitle(value), now, pushOk);
      showRenameModal := false;
    }

    /**
     * `handleAddTag`: an empty value is ignored (the dialog stays open);
     * without an active note reading its tags throws, so nothing changes;
     * otherwise the tag is added when absent and the dialog closes.
     */
    method HandleAddTag(value: string, now: int, pushOk: bool) returns (sent: bool)
      requires Valid()
      modifies this, store
      ensures Valid()
      ensures value == "" || NoteList.FindNote(old(notes), old(activeNoteId)).None? ==>
        !sent && unchanged(this) && store.notes == old(store.notes)
      ensures value != "" && NoteList.FindNote(old(notes), old(activeNoteId)).Some? ==>
        var a := NoteList.FindNote(old(notes), old(activeNoteId)).value;
        && EditedActive(a, SetTags(NoteList.AddTag(a.tags, value)), now, pushOk, sent)
        && !showTagModal && showRenameModal == old(showRenameModal)
        && saving == old(saving) && saveSuccess == old(saveSuccess)
    {
      sent := false;
      if value == "" {
        return;
      }
      var active := NoteList.FindNote(notes, activeNoteId);
      if active.None? {
        return;
      }
      sent := UpdateNoteProperty(SetTags(NoteList.AddTag(active.value.tags, value)), now, pushOk);
      showTagModal := false;
    }

    /**
     * `handleRemoveTag`: drop every occurrence of the tag from the active
     * note; without an active note reading its tags throws and nothing changes.
     */
    method HandleRemoveTag(tag: string, now: int, pushOk: bool) returns (sent: bool)
      requires Valid()
      modifies this, store
      ensures Valid()
      ensures NoteList.FindNote(old(notes), old(activeNoteId)).None? ==>
        !sent && unchanged(this) && store.notes == old(store.notes)
      ensures NoteList.FindNote(old(notes), old(activeNoteId)).Some? ==>
        var a := NoteList.FindNote(old(notes), old(activeNoteId)).value;
        && EditedActive(a, SetTags(NoteList.RemoveTag(a.tags, tag)), now, pushOk, sent)
        && showRenameModal == old(showRenameModal) && showTagModal == old(showTagModal)
        && saving == old(saving) && saveSuccess == old(saveSuccess)
    {
      sent := false;
      var active := NoteList.FindNote(notes, activeNoteId);
      if active.Some? {
        sent := UpdateNoteProperty(SetTags(NoteList.RemoveTag(active.value.tags, tag)), now, pushOk);
      }
    }

    /**
     * `handleDeleteNote`: remove the active note from the store and the
     * list and clear the selection; the cloud soft delete is requested only
     * when online, and its failure is ignored.
     */
    method HandleDeleteNote() returns (requested: bool)
      requires Valid() && activeNoteId.Some?
      modifies this, store
      ensures Valid()
      ensures store.notes == old(store.notes) - {old(activeNoteId).value}
      ensures var id := old(activeNoteId).value; notes == Seqs.Filter(old(notes), (n: Note) => n.id != id)
      ensures activeNoteId.None? && requested == old(online)
      ensures unchanged(this`syncStatus, this`online, this`saving, this`saveSuccess, this`showRenameModal, this`showTagModal)
    {
      var id := activeNoteId.value;
      store.DeleteNote(id);
      notes := Seqs.Filter(notes, (n: Note) => n.id != id);
      requested := online;
      activeNoteId := None;
    }

    /**
     * `handleMenuAction`: the dropdown dispatch, ignored without an active
     * id. Pinning with an active id whose note is missing throws on
     * `activeNote.pinned`, so nothing changes; an unknown action does nothing.
     */
    method HandleMenuAction(action: string, now: int, pushOk: bool)
      requires Valid()
      modifies this, store
      ensures Valid()
      ensures old(activeNoteId).None? ==> unchanged(this) && store.notes == old(store.notes)
      ensures old(activeNoteId).Some? && action == "rename" ==>
        && showRenameModal && store.notes == old(store.notes)
        && unchanged(this`notes, this`activeNoteId, this`syncStatus, this`online, this`saving, this`saveSuccess, this`showTagModal)
      ensures old(activeNoteId).Some? && action == "addTag" ==>
        && showTagModal && store.notes == old(store.notes)
        && unchanged(this`notes, this`activeNoteId, this`syncStatus, this`online, this`saving, this`saveSuccess, this`showRenameModal)
      ensures old(activeNoteId).Some? && action == "delete" ==>
        var id := old(activeNoteId).value;
        && activeNoteId.None? && store.notes == old(store.notes) - {id}
        && notes == Seqs.Filter(old(notes), (n: Note) => n.id != id)
        && unchanged(this`syncStatus, this`online, this`saving, this`saveSuccess, this`showRenameModal, this`showTagModal)
      ensures old(activeNoteId).Some? && action == "pin" && NoteList.FindNote(old(notes), old(activeNoteId)).Some? ==>
        var a := NoteList.FindNote(old(notes), old(activeNoteId)).value;
        && EditedActive(a, SetPinned(!a.pinned), now, pushOk, old(online))
        && unchanged(this`saving, this`saveSuccess, this`showRenameModal, this`showTagModal)
      ensures old(activeNoteId).Some? && action == "pin" && NoteList.FindNote(old(notes), old(activeNoteId)).None? ==>
        unchanged(this) && store.notes == old(store.notes)
      ensures action != "rename" && action != "addTag" && action != "delete" && action != "pin" ==>
        unchanged(this) && store.notes == old(store.notes)
    {
      if activeNoteId.None? {
        return;
      }
      if action == "rename" {
        showRenameModal := true;
      }
      if action == "delete" {
        var _ := HandleDeleteNote();
      }
      if action == "pin" {
        var active := NoteList.FindNote(notes, activeNoteId);
        if active.Some? {
          var _ := UpdateNoteProperty(SetPinned(!active.value.pinned), now, pushOk);
        }
      }
      if action == "addTag" {
        showTagModal := true;
      }
    }

    /** The sidebar list for a search term. */
    function FilteredNotes(term: string): (r: seq<Note>)
      reads this
      ensures NoteList.Sorted(r)
      ensures forall n :: n in r <==> n in notes && NoteList.TitleMatches(n, term)
    {
      NoteList.FilteredNotesSpec(notes, term);
      NoteList.FilteredNotes(notes, term)
    }

    /** The note shown in the editor. */
    function ActiveNote(): (r: Option<Note>)
      reads this
      ensures r.Some? ==> r.value in notes && activeNoteId == Some(r.value.id)
    {
      NoteList.FindNote(notes, activeNoteId)
    }
  }
}
