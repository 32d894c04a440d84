/**
 * The second restore lambda: it validates the id's characters, reads the
 * record first to tell "missing" (404) from "not deleted" (400), and only
 * then issues the same conditional update as the first restore lambda.
 * Another writer may change the record between the read and the update;
 * the condition then decides.
 */
module RestoreNotes {
  import opened Wrappers
  import opened NoteTable

  const InvalidId: Response := Response(400, Error("Valid Note ID is required"))
  const NotFound: Response := Response(404, Error("Note not found"))
  const NotDeleted: Response := Response(400, Error("Note is not marked for deletion"))
  const NotRestorable: Response := Response(404, Error("Note not found or not marked for deletion"))

  /** A character of the id pattern: ASCII letters, digits, `-` and `_`. */
  predicate IdChar(c: char) {
    ('a' <= c <= 'z') || ('A' <= c <= 'Z') || ('0' <= c <= '9') || c == '-' || c == '_'
  }

  /** The id pattern: one or more id characters and nothing else. */
  predicate ValidNoteId(s: string) {
    |s| >= 1 && forall i :: 0 <= i < |s| ==> IdChar(s[i])
  }

  /**
   * Another writer's effect on key `k` between the read and the update:
   * nothing, a removal, or a replacement (stored under `k`).
   */
  function Interleave(items: map<Key, Item>, k: Key, racer: Option<Option<Item>>): (m: map<Key, Item>)
    ensures m.Keys <= items.Keys + {k}
    ensures forall k' :: k' in items && k' != k ==> k' in m && m[k'] == items[k']
    ensures racer.None? ==> m == items
  {
    match racer
    case None => items
    case Some(None) => items - {k}
    case Some(Some(it)) => items[k := it.(userId := k.0, noteId := k.1)]
  }

  /**
   * The handler. `getOk` and `updateOk` are whether the read and the write
   * succeed (other than by the write's condition); `racer` is the
   * interleaved change.
   */
  method Handler(t: RemoteTable, httpMethod: string, pathId: Option<string>,
                 getOk: bool, racer: Option<Option<Item>>, updateOk: bool)
    returns (r: Response)
    requires t.Valid()
    modifies t
    ensures t.Valid()
    ensures httpMethod == "OPTIONS" ==> r == Preflight && t.items == old(t.items)
    ensures httpMethod != "OPTIONS" && httpMethod != "POST" ==> r == MethodNotAllowed && t.items == old(t.items)
    ensures httpMethod == "POST" && !(pathId.Some? && ValidNoteId(pathId.value)) ==>
      r == InvalidId && t.items == old(t.items)
    ensures httpMethod == "POST" && pathId.Some? && ValidNoteId(pathId.value) ==>
      var k := (Anonymous, pathId.value);
      && (!getOk ==> r == InternalError && t.items == old(t.items))
      && (getOk && k !in old(t.items) ==> r == NotFound && t.items == old(t.items))
      && (getOk && k in old(t.items) && old(t.items)[k].deletedAt.None? ==> r == NotDeleted && t.items == old(t.items))
      && (getOk && k in old(t.items) && old(t.items)[k].deletedAt.Some? ==>
            var mid := Interleave(old(t.items), k, racer);
            && (!updateOk ==> r == InternalError && t.items == mid)
            && (updateOk && !(k in mid && mid[k].deletedAt.Some?) ==> r == NotRestorable && t.items == mid)
            && (updateOk && k in mid && mid[k].deletedAt.Some? ==>
                  r == Response(200, RestoredNote(RestoredMessage, Restored(mid[k])))
                  && t.items == mid[k := Restored(mid[k])]))
  {
    if httpMethod == "OPTIONS" {
      return Preflight;
    }
    if httpMethod != "POST" {
      return MethodNotAllowed;
    }
    if !Truthy(pathId) || !ValidNoteId(pathId.value) {
      return InvalidId;
    }
    var k := (Anonymous, pathId.value);
    if !getOk {
      return InternalError;
    }
    if k !in t.items {
      return NotFound;
    }
    if t.items[k].deletedAt.None? {
      return NotDeleted;
    }
    t.items := Interleave(t.items, k, racer);
    if !updateOk {
      return InternalError;
    }
    if !(k in t.items && t.items[k].deletedAt.Some?) {
      return NotRestorable;
    }
    var updated := Restored(t.items[k]);
    t.items := t.items[k := updated];
    return Response(200, RestoredNote(RestoredMessage, updated));
  }
}
