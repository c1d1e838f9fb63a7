/** The client-side query cache as the components' `update` callbacks use it:
    one cached query result is a sequence of records that a callback reads
    (`readQuery`), transforms and writes back (`writeQuery`). Also the shapes
    of a mutation's `returning` payload and the delete transform the
    callbacks share. */
module QueryCache {
  import opened Collections

  /** One cached query result entry (for example `Lists` of GET_LISTS). */
  class Store<T> {
    var rows: seq<T>

    constructor (rows: seq<T>)
      ensures this.rows == rows
    {
      this.rows := rows;
    }

    /** `readQuery`: the cached rows, unchanged. */
    method Read() returns (r: seq<T>)
      ensures r == rows
    {
      r := rows;
    }

    /** `writeQuery`: the cached rows are replaced by `r`. */
    method Write(r: seq<T>)
      modifies this
      ensures rows == r
    {
      rows := r;
    }
  }

  /** The `returning { id }` record of a delete mutation. */
  datatype Deleted = Deleted(id: int)

  /** A mutation's `returning` field as the `update` callback receives it:
      the server always sends an array, but an optimistic response may carry
      a single object, which has no `length`. */
  datatype Returning<T> = Array(rows: seq<T>) | Object(row: T)

  /** The truthiness of `returning.length`: false for an object (its
      `length` is undefined) and for an empty array. */
  predicate HasLength<T>(returning: Returning<T>)
  {
    returning.Array? && |returning.rows| > 0
  }

  /** The optimistic `returning` that a delete passes as a single object
      `{ id }` rather than an array: it has no `length`. */
  function SingleDeleted(id: int): (returning: Returning<Deleted>)
    ensures !HasLength(returning)
    ensures returning.Object? && returning.row.id == id
  {
    Object(Deleted(id))
  }

  /** `returning.map(returned => returned.id)`. */
  function DeletedIds(deleted: seq<Deleted>): (ids: seq<int>)
    ensures |ids| == |deleted|
    ensures forall i :: 0 <= i < |deleted| ==> ids[i] == deleted[i].id
  {
    Ids(deleted, (d: Deleted) => d.id)
  }

  /** `rows.filter(x => !returnedIds.includes(x.id))`: exactly the rows
      whose id was not returned, in their original order. */
  function WithoutDeleted<T(!new)>(rows: seq<T>, key: T -> int, deleted: seq<Deleted>): (r: seq<T>)
    ensures forall x :: x in r <==> x in rows && key(x) !in DeletedIds(deleted)
    ensures IsSubsequence(r, rows)
    ensures forall i :: 0 <= i < |deleted| ==> deleted[i].id !in Ids(r, key)
  {
    var returnedIds := DeletedIds(deleted);
    Filter(rows, x => key(x) !in returnedIds)
  }

  /** The update of a delete callback guarded by `if (!returning.length)
      return;`: the cache is left as it was unless `returning` is a
      non-empty array. */
  function AfterGuardedDelete<T(!new)>(rows: seq<T>, key: T -> int, returning: Returning<Deleted>): (r: seq<T>)
    ensures !HasLength(returning) ==> r == rows
    ensures HasLength(returning) ==>
      forall x :: x in r <==> x in rows && key(x) !in DeletedIds(returning.rows)
    ensures IsSubsequence(r, rows)
  {
    if !HasLength(returning) then
      assert IsSubsequence(rows, rows) by { SubsequenceRefl(rows); }
      rows
    else
      WithoutDeleted(rows, key, returning.rows)
  }

  /** Deleting is idempotent: when the server's response repeats the ids the
      optimistic pass already removed, the second pass removes nothing more. */
  lemma WithoutDeletedIdempotent<T(!new)>(rows: seq<T>, key: T -> int, deleted: seq<Deleted>)
    ensures WithoutDeleted(WithoutDeleted(rows, key, deleted), key, deleted) == WithoutDeleted(rows, key, deleted)
  {
    var once := WithoutDeleted(rows, key, deleted);
    var returnedIds := DeletedIds(deleted);
    assert forall i :: 0 <= i < |once| ==> key(once[i]) !in returnedIds by {
      forall i | 0 <= i < |once|
        ensures key(once[i]) !in returnedIds
      {
        assert once[i] in once;
      }
    }
    FilterKeepsAll(once, x => key(x) !in returnedIds);
  }

  /** The `update` callback of an insert: the cached rows are read and
      written back as `[...rows, ...returning]`. */
  method AppendReturned<T>(cache: Store<T>, returning: seq<T>)
    modifies cache
    ensures cache.rows == old(cache.rows) + returning
  {
    var rows := cache.Read();
    cache.Write(rows + returning);
  }

  /** The `update` callback of a delete guarded by `if (!returning.length)
      return;`: otherwise the cached rows are read and written back without
      the returned ids. */
  method GuardedDeleteUpdate<T(!new)>(cache: Store<T>, key: T -> int, returning: Returning<Deleted>)
    modifies cache
    ensures cache.rows == AfterGuardedDelete(old(cache.rows), key, returning)
  {
    if !HasLength(returning) {
      return;
    }
    var rows := cache.Read();
    cache.Write(WithoutDeleted(rows, key, returning.rows));
  }
}
