/** The lists screen: its subscription reconciler (`updateQuery` of the
    `Lists` subscription) and the optimistic append of a newly added list to
    the cached GET_LISTS result. */
module AvailableLists {
  import opened Collections
  import opened QueryCache

  /** One entry of GET_LISTS: `id name owner ListItems_aggregate.count`.
      Optimistic entries carry a temporary id that is not positive. */
  datatype ListRow = ListRow(id: int, name: string, owner: string, itemCount: int)

  /** A GET_LISTS query result: the `Lists` field and any other fields of the
      result object, which the reconciler carries over with `...prev`. */
  datatype ListsData = ListsData(lists: seq<ListRow>, otherFields: map<string, string>)

  function ListId(l: ListRow): int { l.id }

  /** The subscription's `updateQuery`. `prev` is None when there is no
      previous result; `pushed` is None when the message carries no data,
      otherwise the snapshot's `Lists`. */
  function UpdateQuery(prev: Option<ListsData>, pushed: Option<seq<ListRow>>, userId: string): (next: ListsData)
    ensures prev.None? ==> next.lists == [] && next.otherFields == map[]
    ensures prev.Some? && pushed.None? ==> next == prev.value
    ensures prev.Some? ==> next.otherFields == prev.value.otherFields
    ensures prev.Some? && pushed.Some? ==> next.lists == Merge(prev.value.lists, pushed.value, userId)
  {
    if prev.None? then ListsData([], map[])
    else if pushed.None? then prev.value
    else prev.value.(lists := Merge(prev.value.lists, pushed.value, userId))
  }

  /** The new `Lists` computed from the cached entries and a full snapshot.
      When the snapshot is at least as long as the cache ("growth"), the
      cached entries with a positive id are kept and the snapshot entries
      owned by someone else whose id is not cached are adopted, after them;
      otherwise ("shrink") the cached entries whose id is still in the
      snapshot are kept. */
  function Merge(existing: seq<ListRow>, live: seq<ListRow>, userId: string): (r: seq<ListRow>)
    ensures |existing| <= |live| ==>
      forall x :: x in r <==>
        (x in existing && x.id > 0) ||
        (x in live && x.owner != userId && x.id !in Ids(existing, ListId))
    ensures |existing| <= |live| ==>
      forall x :: x in existing && x.id <= 0 ==> x !in r
    ensures |existing| > |live| ==>
      (forall x :: x in r <==> x in existing && x.id in Ids(live, ListId)) &&
      IsSubsequence(r, existing) && |r| <= |existing|
  {
    var existingIds := Ids(existing, ListId);
    var liveIds := Ids(live, ListId);
    if |existing| <= |live| then
      Filter(existing, (x: ListRow) => x.id > 0) +
      Filter(live, (x: ListRow) => x.owner != userId && x.id !in existingIds)
    else
      Filter(existing, (x: ListRow) => x.id in liveIds)
  }

  /** In a growth step the cached entries kept are exactly the confirmed
      ones, still in cache order, and they come first; after them come
      exactly the snapshot entries of other owners whose id is not cached,
      in snapshot order. */
  lemma {:induction false} MergeGrowthKeepsConfirmedFirst(existing: seq<ListRow>, live: seq<ListRow>, userId: string)
    requires |existing| <= |live|
    ensures var r := Merge(existing, live, userId);
      var k := |Filter(existing, (x: ListRow) => x.id > 0)|;
      k <= |r| &&
      IsSubsequence(r[..k], existing) &&
      (forall x :: x in r[..k] <==> x in existing && x.id > 0) &&
      IsSubsequence(r[k..], live) &&
      (forall x :: x in r[k..] <==> x in live && x.owner != userId && x.id !in Ids(existing, ListId))
  {
    var kept := Filter(existing, (x: ListRow) => x.id > 0);
    var existingIds := Ids(existing, ListId);
    var adopted := Filter(live, (x: ListRow) => x.owner != userId && x.id !in existingIds);
    var r := Merge(existing, live, userId);
    assert r == kept + adopted;
    assert r[..|kept|] == kept;
    assert r[|kept|..] == adopted;
  }

  /** Reconciling keeps ids unique: if neither the cache nor the snapshot
      repeats an id, neither does the result. */
  lemma MergeKeepsIdsUnique(existing: seq<ListRow>, live: seq<ListRow>, userId: string)
    requires UniqueIds(existing, ListId) && UniqueIds(live, ListId)
    ensures UniqueIds(Merge(existing, live, userId), ListId)
  {
    var existingIds := Ids(existing, ListId);
    var liveIds := Ids(live, ListId);
    if |existing| <= |live| {
      var kept := Filter(existing, (x: ListRow) => x.id > 0);
      var adopted := Filter(live, (x: ListRow) => x.owner != userId && x.id !in existingIds);
      FilterKeepsUniqueIds(existing, (x: ListRow) => x.id > 0, ListId);
      FilterKeepsUniqueIds(live, (x: ListRow) => x.owner != userId && x.id !in existingIds, ListId);
      UniqueIdsAppend(kept, adopted, ListId);
    } else {
      FilterKeepsUniqueIds(existing, (x: ListRow) => x.id in liveIds, ListId);
    }
  }

  /** Delivering a snapshot that holds exactly the ids already cached, all of
      them confirmed, leaves `Lists` unchanged, whichever branch the length
      comparison takes. */
  lemma MergeRedeliveryUnchanged(existing: seq<ListRow>, live: seq<ListRow>, userId: string)
    requires forall i :: 0 <= i < |existing| ==> existing[i].id > 0
    requires forall i :: 0 <= i < |live| ==> live[i].id in Ids(existing, ListId)
    requires forall i :: 0 <= i < |existing| ==> existing[i].id in Ids(live, ListId)
    ensures Merge(existing, live, userId) == existing
  {
    var existingIds := Ids(existing, ListId);
    var liveIds := Ids(live, ListId);
    if |existing| <= |live| {
      FilterKeepsAll(existing, (x: ListRow) => x.id > 0);
      FilterKeepsNone(live, (x: ListRow) => x.owner != userId && x.id !in existingIds);
      assert existing + [] == existing;
    } else {
      FilterKeepsAll(existing, (x: ListRow) => x.id in liveIds);
    }
  }

  /** The optimistic entry built for a new list: owned by the current user,
      no items, and a temporary id that is not positive. */
  function OptimisticList(tempId: int, name: string, userId: string): (l: ListRow)
    requires tempId <= 0
    ensures l.id <= 0 && l.owner == userId && l.name == name && l.itemCount == 0
  {
    ListRow(tempId, name, userId, 0)
  }

  /** The `update` callback of `addList`: GET_LISTS is read and written back
      with the returned lists appended. */
  method AddListUpdate(cache: Store<ListRow>, returning: seq<ListRow>)
    modifies cache
    ensures cache.rows == old(cache.rows) + returning
    ensures old(cache.rows) <= cache.rows
    ensures |cache.rows| == |old(cache.rows)| + |returning|
  {
    AppendReturned(cache, returning);
  }

  /** The optimistic entry appended by `addList` is dropped again by the next
      growth snapshot: the confirmed list, if any, arrives as a server row. */
  lemma OptimisticListDroppedOnGrowth(
    cached: seq<ListRow>, tempId: int, name: string, userId: string, live: seq<ListRow>)
    requires tempId <= 0
    requires |cached| + 1 <= |live|
    ensures OptimisticList(tempId, name, userId) !in Merge(cached + [OptimisticList(tempId, name, userId)], live, userId)
  {
    var o := OptimisticList(tempId, name, userId);
    assert o in cached + [o];
  }

  /** The length heuristic as written: when another user adds a list while a
      cached list is deleted, the snapshot has the same length, the step is
      read as growth, and the deleted list stays cached. */
  lemma ConcurrentAddAndDeleteKeepsStaleList()
    ensures var a := ListRow(1, "a", "me", 0);
      var b := ListRow(2, "b", "me", 0);
      var c := ListRow(3, "c", "other", 0);
      Merge([a, b], [a, c], "me") == [a, b, c]
  {
    var a := ListRow(1, "a", "me", 0);
    var b := ListRow(2, "b", "me", 0);
    var c := ListRow(3, "c", "other", 0);
    var existingIds := Ids([a, b], ListId);
    assert existingIds == [1, 2];
    FilterKeepsAll([a, b], (x: ListRow) => x.id > 0);
    assert [a, c] == [a] + [c];
    FilterConcat([a], [c], (x: ListRow) => x.owner != "me" && x.id !in existingIds);
    FilterSingleton(a, (x: ListRow) => x.owner != "me" && x.id !in existingIds);
    FilterSingleton(c, (x: ListRow) => x.owner != "me" && x.id !in existingIds);
  }
}
