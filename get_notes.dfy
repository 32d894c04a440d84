/**
 * The listing lambda: a GET returns the live notes of the anonymous
 * partition, narrowed by the optional `tag`, `pinned` and `favorite` query
 * parameters. The filter is built as a list of conditions joined by AND.
 */
module GetNotes {
  import opened Wrappers
  import opened NoteTable

  /** The query-string parameters; each may be missing. */
  datatype Query = Query(tag: Option<string>, pinned: Option<string>, favorite: Option<string>)

  /** A request without query-string parameters. */
  const NoQuery: Query := Query(None, None, None)

  /** One clause of the filter expression. */
  datatype Condition = NotDeleted | HasTag(tag: string) | PinnedIs(pinned: bool) | FavoriteIs(favorite: bool)

  predicate Holds(c: Condition, it: Item) {
    match c
    case NotDeleted => it.deletedAt.None?
    case HasTag(tag) => tag in it.tags
    case PinnedIs(b) => it.pinned == b
    case FavoriteIs(b) => it.favorite == b
  }

  predicate HoldsAll(cs: seq<Condition>, it: Item) {
    forall i :: 0 <= i < |cs| ==> Holds(cs[i], it)
  }

  lemma HoldsAllAppend(cs: seq<Condition>, c: Condition, it: Item)
    ensures HoldsAll(cs + [c], it) <==> HoldsAll(cs, it) && Holds(c, it)
  {
    var all := cs + [c];
    assert all[|cs|] == c;
    if HoldsAll(cs, it) && Holds(c, it) {
      forall i | 0 <= i < |all| ensures Holds(all[i], it) {
        if i < |cs| { assert all[i] == cs[i]; }
      }
    }
    if HoldsAll(all, it) {
      forall i | 0 <= i < |cs| ensures Holds(cs[i], it) {
        assert all[i] == cs[i];
      }
    }
  }

  /**
   * What a listing means: live, tagged when a non-empty tag is asked for, and
   * pinned / favourite equal to "the parameter is the string true" when the
   * parameter is present at all.
   */
  predicate Matches(q: Query, it: Item) {
    && it.deletedAt.None?
    && (Truthy(q.tag) ==> q.tag.value in it.tags)
    && (q.pinned.Some? ==> (it.pinned <==> q.pinned.value == "true"))
    && (q.favorite.Some? ==> (it.favorite <==> q.favorite.value == "true"))
  }

  /** The keys a query answers with. */
  function Listed(items: map<Key, Item>, q: Query): set<Key> {
    set k | k in items && k.0 == Anonymous && Matches(q, items[k])
  }

  /** The filter expression the handler builds; its conjunction is `Matches`. */
  method BuildFilter(q: Query) returns (cs: seq<Condition>)
    ensures 1 <= |cs| <= 4 && cs[0] == NotDeleted
    ensures forall it :: HoldsAll(cs, it) <==> Matches(q, it)
  {
    cs := [NotDeleted];
    ghost var start := cs;
    if Truthy(q.tag) {
      cs := cs + [HasTag(q.tag.value)];
    }
    ghost var afterTag := cs;
    if q.pinned.Some? {
      cs := cs + [PinnedIs(q.pinned.value == "true")];
    }
    ghost var afterPinned := cs;
    if q.favorite.Some? {
      cs := cs + [FavoriteIs(q.favorite.value == "true")];
    }
    forall it: Item
      ensures HoldsAll(cs, it) <==> Matches(q, it)
    {
      assert HoldsAll(start, it) <==> it.deletedAt.None? by {
        assert start[0] == NotDeleted;
      }
      if Truthy(q.tag) { HoldsAllAppend(start, HasTag(q.tag.value), it); }
      if q.pinned.Some? { HoldsAllAppend(afterTag, PinnedIs(q.pinned.value == "true"), it); }
      if q.favorite.Some? { HoldsAllAppend(afterPinned, FavoriteIs(q.favorite.value == "true"), it); }
    }
  }

  /** Without parameters the listing is every live note of the partition. */
  lemma NoQueryListsLive(items: map<Key, Item>)
    ensures Listed(items, NoQuery) == set k | k in items && k.0 == Anonymous && items[k].deletedAt.None?
  {
  }

  /** A soft-deleted record is never listed, whatever the query. */
  lemma DeletedNeverListed(items: map<Key, Item>, q: Query, k: Key)
    requires k in items && items[k].deletedAt.Some?
    ensures k !in Listed(items, q)
  {
  }

  /**
   * The handler. `query` is None when the request has no query string;
   * `queryOk` is whether the table query succeeds. The listing holds each
   * matching record once, as stored.
   */
  method Handler(t: RemoteTable, httpMethod: string, query: Option<Query>, queryOk: bool)
    returns (r: Response)
    requires t.Valid()
    ensures httpMethod == "OPTIONS" ==> r == Preflight
    ensures httpMethod != "OPTIONS" && httpMethod != "GET" ==> r == MethodNotAllowed
    ensures httpMethod == "GET" && !queryOk ==> r == InternalError
    ensures httpMethod == "GET" && queryOk ==>
      && r.status == 200 && r.body.Notes?
      && UniqueKeys(r.body.items)
      && Keys(r.body.items) == Listed(t.items, query.GetOr(NoQuery))
      && forall i :: 0 <= i < |r.body.items| ==> KeyOf(r.body.items[i]) in t.items && t.items[KeyOf(r.body.items[i])] == r.body.items[i]
  {
    if httpMethod == "OPTIONS" {
      return Preflight;
    }
    if httpMethod != "GET" {
      return MethodNotAllowed;
    }
    var q := query.GetOr(NoQuery);
    var cs := BuildFilter(q);
    if !queryOk {
      return InternalError;
    }
    var result: seq<Item> := [];
    var rest := t.items.Keys;
    while rest != {}
      invariant rest <= t.items.Keys
      invariant UniqueKeys(result)
      invariant Keys(result) == Listed(t.items, q) - rest
      invariant forall i :: 0 <= i < |result| ==> KeyOf(result[i]) in t.items && t.items[KeyOf(result[i])] == result[i]
      decreases rest
    {
      var k :| k in rest;
      var it := t.items[k];
      if k.0 == Anonymous && HoldsAll(cs, it) {
        KeysAppend(result, it);
        result := result + [it];
      }
      rest := rest - {k};
    }
    return Response(200, Notes(result));
  }
}
