/**
 * The sync lambda: a POST stores one client note, normalised, in the server
 * table, replacing whatever was stored under that key (including a
 * soft-deleted record, which the put revives).
 */
module SyncNotes {
  import opened Wrappers
  import opened NoteTable

  /** A parsed request body; every field may be missing. */
  datatype NoteBody = NoteBody(
    id: Option<string>,
    title: Option<string>,
    content: Option<string>,
    tags: Option<seq<string>>,
    pinned: Option<bool>,
    favorite: Option<bool>,
    createdAt: Option<int>,
    updatedAt: Option<int>)

  /** The handler accepts a body only when both `id` and `title` are truthy. */
  predicate Acceptable(b: NoteBody) {
    Truthy(b.id) && Truthy(b.title)
  }

  const MissingFields: Response := Response(400, Error("Missing required fields: id and title"))

  /** The record the handler writes for an accepted body, at time `now`. */
  function Normalise(b: NoteBody, now: int): (it: Item)
    requires Acceptable(b)
    ensures KeyOf(it) == (Anonymous, b.id.value) && it.title == b.title.value
    ensures it.deletedAt.None? && it.lastSynced == now
    ensures it.content == (if b.content.Some? then b.content.value else "")
    ensures it.tags == (if b.tags.Some? then b.tags.value else [])
    ensures it.pinned <==> b.pinned == Some(true)
    ensures it.favorite <==> b.favorite == Some(true)
    ensures b.createdAt.None? ==> it.createdAt == now
    ensures b.createdAt.Some? ==> it.createdAt == b.createdAt.value
    ensures b.updatedAt.None? ==> it.updatedAt == now
    ensures b.updatedAt.Some? ==> it.updatedAt == b.updatedAt.value
  {
    Item(Anonymous, b.id.value, b.title.value, b.content.GetOr(""), b.tags.GetOr([]),
         b.pinned.GetOr(false), b.favorite.GetOr(false),
         b.createdAt.GetOr(now), b.updatedAt.GetOr(now), now, None)
  }

  /**
   * The handler. `body` is None when reading the note throws: the request
   * body does not parse, or parses to `null`. A body that parses to a
   * number, string or array is Some with every field None, and takes the
   * 400 path. `putOk` is whether the table write succeeds.
   */
  method Handler(t: RemoteTable, httpMethod: string, body: Option<NoteBody>, now: int, putOk: bool)
    returns (r: Response)
    requires t.Valid()
    modifies t
    ensures t.Valid()
    ensures httpMethod == "OPTIONS" ==> r == Preflight && t.items == old(t.items)
    ensures httpMethod != "OPTIONS" && httpMethod != "POST" ==> r == MethodNotAllowed && t.items == old(t.items)
    ensures httpMethod == "POST" && body.None? ==> r == InternalError && t.items == old(t.items)
    ensures httpMethod == "POST" && body.Some? && !Acceptable(body.value) ==>
      r == MissingFields && t.items == old(t.items)
    ensures httpMethod == "POST" && body.Some? && Acceptable(body.value) && !putOk ==>
      r == InternalError && t.items == old(t.items)
    ensures httpMethod == "POST" && body.Some? && Acceptable(body.value) && putOk ==>
      r == Response(200, Synced(now))
      && t.items == old(t.items)[(Anonymous, body.value.id.value) := Normalise(body.value, now)]
  {
    if httpMethod == "OPTIONS" {
      return Preflight;
    }
    if httpMethod != "POST" {
      return MethodNotAllowed;
    }
    if body.None? {
      return InternalError;
    }
    var note := body.value;
    if !Acceptable(note) {
      return MissingFields;
    }
    var dbNote := Normalise(note, now);
    if !putOk {
      return InternalError;
    }
    t.items := t.items[KeyOf(dbNote) := dbNote];
    return Response(200, Synced(now));
  }
}
