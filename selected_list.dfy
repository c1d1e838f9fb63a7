/** The list-items screen: its subscription reconciler (`updateQuery` of the
    `ListItems` subscription) and the `update` callbacks of adding and
    deleting an item, which rewrite the cached GET_LIST_ITEMS result. */
module SelectedList {
  import opened Collections
  import opened QueryCache

  /** One entry of GET_LIST_ITEMS: `id description creator`. Optimistic
      entries carry a temporary id that is not positive. */
  datatype ItemRow = ItemRow(id: int, description: string, creator: string)

  /** A GET_LIST_ITEMS query result: `ListItems` and any other fields. */
  datatype ItemsData = ItemsData(listItems: seq<ItemRow>, otherFields: map<string, string>)

  function ItemId(item: ItemRow): int { item.id }

  /** The subscription's `updateQuery`. `prev` is None when there is no
      previous result; `pushed` is None when the message carries no data,
      otherwise the snapshot's `ListItems`. */
  function UpdateQuery(prev: Option<ItemsData>, pushed: Option<seq<ItemRow>>, userId: string): (next: ItemsData)
    ensures prev.None? ==> next.listItems == [] && next.otherFields == map[]
    ensures prev.Some? && pushed.None? ==> next == prev.value
    ensures prev.Some? ==> next.otherFields == prev.value.otherFields
    ensures prev.Some? && pushed.Some? ==> next.listItems == Merge(prev.value.listItems, pushed.value, userId)
  {
    if prev.None? then ItemsData([], map[])
    else if pushed.None? then prev.value
    else prev.value.(listItems := Merge(prev.value.listItems, pushed.value, userId))
  }

  /** The new `ListItems` computed from the cached items and a full snapshot.
      Growth (the snapshot is at least as long): every cached item is kept,
      optimistic ones included, and the snapshot items created by someone
      else whose id is not cached are appended in snapshot order. Shrink:
      the cached items whose id is still in the snapshot are kept. */
  function Merge(existing: seq<ItemRow>, live: seq<ItemRow>, userId: string): (r: seq<ItemRow>)
    ensures |existing| <= |live| ==>
      existing <= r &&
      IsSubsequence(r[|existing|..], live) &&
      (forall x :: x in r[|existing|..] <==>
         x in live && x.creator != userId && x.id !in Ids(existing, ItemId))
    ensures |existing| > |live| ==>
      (forall x :: x in r <==> x in existing && x.id in Ids(live, ItemId)) &&
      IsSubsequence(r, existing) && |r| <= |existing|
  {
    var existingIds := Ids(existing, ItemId);
    var liveIds := Ids(live, ItemId);
    if |existing| <= |live| then
      var adopted := Filter(live, (x: ItemRow) => x.creator != userId && x.id !in existingIds);
      assert (existing + adopted)[|existing|..] == adopted;
      existing + adopted
    else
      Filter(existing, (x: ItemRow) => x.id in liveIds)
  }

  /** An item the current user created is never adopted from a snapshot, so
      the user's own items are counted only by what the cache already holds. */
  lemma MergeNeverAdoptsOwnItems(existing: seq<ItemRow>, live: seq<ItemRow>, userId: string, x: ItemRow)
    requires x.creator == userId
    ensures x in Merge(existing, live, userId) ==> x in existing
  {
    var r := Merge(existing, live, userId);
    if |existing| <= |live| && x in r {
      assert r == existing + r[|existing|..];
    }
  }

  /** Reconciling keeps ids unique. */
  lemma MergeKeepsIdsUnique(existing: seq<ItemRow>, live: seq<ItemRow>, userId: string)
    requires UniqueIds(existing, ItemId) && UniqueIds(live, ItemId)
    ensures UniqueIds(Merge(existing, live, userId), ItemId)
  {
    var existingIds := Ids(existing, ItemId);
    var liveIds := Ids(live, ItemId);
    if |existing| <= |live| {
      var adopted := Filter(live, (x: ItemRow) => x.creator != userId && x.id !in existingIds);
      FilterKeepsUniqueIds(live, (x: ItemRow) => x.creator != userId && x.id !in existingIds, ItemId);
      UniqueIdsAppend(existing, adopted, ItemId);
    } else {
      FilterKeepsUniqueIds(existing, (x: ItemRow) => x.id in liveIds, ItemId);
    }
  }

  /** Delivering a snapshot that holds exactly the ids already cached leaves
      `ListItems` unchanged, whichever branch the length comparison takes
      (unlike the lists reconciler, optimistic items need not be excluded). */
  lemma MergeRedeliveryUnchanged(existing: seq<ItemRow>, live: seq<ItemRow>, userId: string)
    requires forall i :: 0 <= i < |live| ==> live[i].id in Ids(existing, ItemId)
    requires forall i :: 0 <= i < |existing| ==> existing[i].id in Ids(live, ItemId)
    ensures Merge(existing, live, userId) == existing
  {
    var existingIds := Ids(existing, ItemId);
    var liveIds := Ids(live, ItemId);
    if |existing| <= |live| {
      FilterKeepsNone(live, (x: ItemRow) => x.creator != userId && x.id !in existingIds);
      assert existing + [] == existing;
    } else {
      FilterKeepsAll(existing, (x: ItemRow) => x.id in liveIds);
    }
  }

  /** The optimistic item built by `onAddListItem`. */
  function OptimisticItem(tempId: int, description: string, userId: string): (item: ItemRow)
    requires tempId <= 0
    ensures item.id <= 0 && item.creator == userId && item.description == description
  {
    ItemRow(tempId, description, userId)
  }

  /** The `update` callback of `addListItem`: the returned items are appended
      after the cached ones. */
  method AddListItemUpdate(cache: Store<ItemRow>, returning: seq<ItemRow>)
    modifies cache
    ensures cache.rows == old(cache.rows) + returning
  {
    AppendReturned(cache, returning);
  }

  /** The optimistic `returning` of `deleteListItem`: one record carrying
      exactly the deleted item's id. */
  function OptimisticDeleteReturning(itemId: int): (returning: seq<Deleted>)
    ensures DeletedIds(returning) == [itemId]
  {
    [Deleted(itemId)]
  }

  /** The `update` callback of `deleteListItem` (there is no length guard on
      this path): every item whose id was returned is removed, the others
      stay in order. */
  method DeleteListItemUpdate(cache: Store<ItemRow>, returning: seq<Deleted>)
    modifies cache
    ensures cache.rows == WithoutDeleted(old(cache.rows), ItemId, returning)
  {
    var listItems := cache.Read();
    cache.Write(WithoutDeleted(listItems, ItemId, returning));
  }

  /** The optimistic pass of a delete removes exactly the items with the
      deleted id and keeps every other item, in order. */
  lemma OptimisticDeleteRemovesExactlyItem(items: seq<ItemRow>, itemId: int)
    ensures var r := WithoutDeleted(items, ItemId, OptimisticDeleteReturning(itemId));
      (forall x :: x in r <==> x in items && x.id != itemId) &&
      IsSubsequence(r, items)
  {
    assert DeletedIds(OptimisticDeleteReturning(itemId)) == [itemId];
  }

  /** An item added optimistically stays at the end of the cache across a
      growth snapshot, and its server copy (created by the same user) is not
      adopted next to it. */
  lemma OptimisticItemSurvivesGrowth(
    cached: seq<ItemRow>, tempId: int, description: string, userId: string, live: seq<ItemRow>)
    requires tempId <= 0
    requires |cached| + 1 <= |live|
    ensures var o := OptimisticItem(tempId, description, userId);
      var r := Merge(cached + [o], live, userId);
      cached + [o] <= r &&
      forall x :: x in r[|cached| + 1..] ==> x.creator != userId
  {
  }
}
