/**
 * The first restore lambda: a POST removes `deletedAt` from a soft-deleted
 * note, in one update conditional on the record existing and carrying a
 * `deletedAt`.
 */
module RestoreNote {
  import opened Wrappers
  import opened NoteTable

  const IdRequired: Response := Response(400, Error("Note ID is required"))
  const NotRestorable: Response := Response(404, Error("Note not found or not marked for deletion"))

  /** The condition of the update: the record exists and is soft-deleted. */
  predicate Restorable(items: map<Key, Item>, k: Key) {
    k in items && items[k].deletedAt.Some?
  }

  method Handler(t: RemoteTable, httpMethod: string, pathId: Option<string>, updateOk: bool)
    returns (r: Response)
    requires t.Valid()
    modifies t
    ensures t.Valid()
    ensures httpMethod == "OPTIONS" ==> r == Preflight && t.items == old(t.items)
    ensures httpMethod != "OPTIONS" && httpMethod != "POST" ==> r == MethodNotAllowed && t.items == old(t.items)
    ensures httpMethod == "POST" && !Truthy(pathId) ==> r == IdRequired && t.items == old(t.items)
    ensures httpMethod == "POST" && Truthy(pathId) && !updateOk ==> r == InternalError && t.items == old(t.items)
    ensures httpMethod == "POST" && Truthy(pathId) && updateOk && !Restorable(old(t.items), (Anonymous, pathId.value)) ==>
      r == NotRestorable && t.items == old(t.items)
    ensures httpMethod == "POST" && Truthy(pathId) && updateOk && Restorable(old(t.items), (Anonymous, pathId.value)) ==>
      var k := (Anonymous, pathId.value);
      && r == Response(200, RestoredNote(RestoredMessage, Restored(old(t.items)[k])))
      && t.items == old(t.items)[k := Restored(old(t.items)[k])]
  {
    if httpMethod == "OPTIONS" {
      return Preflight;
    }
    if httpMethod != "POST" {
      return MethodNotAllowed;
    }
    if !Truthy(pathId) {
      return IdRequired;
    }
    var k := (Anonymous, pathId.value);
    if !updateOk {
      return InternalError;
    }
    if !Restorable(t.items, k) {
      return NotRestorable;
    }
    var updated := Restored(t.items[k]);
    t.items := t.items[k := updated];
    return Response(200, RestoredNote(RestoredMessage, updated));
  }
}
