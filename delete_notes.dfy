/**
 * The delete lambda: a DELETE does not remove the note but stamps it with
 * `deletedAt = now + 7 days`, the moment after which the cleanup job may
 * purge it. The update is conditional on the record existing.
 */
module DeleteNotes {
  import opened Wrappers
  import opened NoteTable

  const IdRequired: Response := Response(400, Error("Note ID is required"))
  const NotFound: Response := Response(404, Error("Note not found"))
  const MarkedMessage: string := "Note marked for deletion. It will be permanently deleted in 7 days."

  /**
   * The handler. `pathId` is the `id` path parameter; `updateOk` is false
   * when the table write fails for a reason other than its condition.
   */
  method Handler(t: RemoteTable, httpMethod: string, pathId: Option<string>, now: int, updateOk: bool)
    returns (r: Response)
    requires t.Valid()
    modifies t
    ensures t.Valid()
    ensures httpMethod == "OPTIONS" ==> r == Preflight && t.items == old(t.items)
    ensures httpMethod != "OPTIONS" && httpMethod != "DELETE" ==> r == MethodNotAllowed && t.items == old(t.items)
    ensures httpMethod == "DELETE" && !Truthy(pathId) ==> r == IdRequired && t.items == old(t.items)
    ensures httpMethod == "DELETE" && Truthy(pathId) && !updateOk ==> r == InternalError && t.items == old(t.items)
    ensures httpMethod == "DELETE" && Truthy(pathId) && updateOk && (Anonymous, pathId.value) !in old(t.items) ==>
      r == NotFound && t.items == old(t.items)
    ensures httpMethod == "DELETE" && Truthy(pathId) && updateOk && (Anonymous, pathId.value) in old(t.items) ==>
      var k := (Anonymous, pathId.value);
      && r == Response(200, MarkedForDeletion(MarkedMessage, now + GracePeriodMs))
      && t.items == old(t.items)[k := SoftDeleted(old(t.items)[k], now)]
  {
    if httpMethod == "OPTIONS" {
      return Preflight;
    }
    if httpMethod != "DELETE" {
      return MethodNotAllowed;
    }
    if !Truthy(pathId) {
      return IdRequired;
    }
    var k := (Anonymous, pathId.value);
    if !updateOk {
      return InternalError;
    }
    if k !in t.items {
      return NotFound;
    }
    var updated := SoftDeleted(t.items[k], now);
    t.items := t.items[k := updated];
    return Response(200, MarkedForDeletion(MarkedMessage, updated.deletedAt.value));
  }
}
