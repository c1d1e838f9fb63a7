/** The mock list service: a module-level `listData`, initially a copy of
    the bundled `data`, read by `fetchList` and replaced by `addItem` and
    `deleteItem`. Both writers start again from `data`, not from the current
    `listData`. The promise delays are left out: each call returns at once. */
module Api {
  import opened Collections

  /** `data` with every element equal to `x` removed, order kept:
      `data.filter(item => item !== x)`. */
  function Without(data: seq<int>, x: int): (r: seq<int>)
    ensures x !in r
    ensures forall y :: y != x ==> (y in r <==> y in data)
    ensures IsSubsequence(r, data)
    ensures multiset(r)[x] == 0 && forall y :: y != x ==> multiset(r)[y] == multiset(data)[y]
  {
    WithoutCounts(data, x);
    Filter(data, (y: int) => y != x)
  }

  /** How `Filter` with `y != x` affects the multiplicities. */
  lemma {:induction false} WithoutCounts(data: seq<int>, x: int)
    ensures var r := Filter(data, (y: int) => y != x);
      multiset(r)[x] == 0 && forall y :: y != x ==> multiset(r)[y] == multiset(data)[y]
    decreases |data|
  {
    if data != [] {
      WithoutCounts(data[1..], x);
      assert data == [data[0]] + data[1..];
      FilterConcat([data[0]], data[1..], (y: int) => y != x);
      FilterSingleton(data[0], (y: int) => y != x);
    }
  }

  class MockListStore {
    const data: seq<int>
    var listData: seq<int>

    constructor (data: seq<int>)
      ensures this.data == data && listData == data
    {
      this.data := data;
      listData := data;
    }

    /** `fetchList`: resolves to the current `listData`. */
    method FetchList() returns (r: seq<int>)
      ensures r == listData
    {
      r := listData;
    }

    /** `addItem`: `listData` becomes `data` followed by `item`, whatever it
        was before; resolves to `item`. */
    method AddItem(item: int) returns (r: int)
      modifies this
      ensures listData == data + [item]
      ensures r == item
    {
      listData := data + [item];
      r := item;
    }

    /** `deleteItem`: `listData` becomes `data` without `itemToRemove`,
        whatever it was before; resolves to `itemToRemove`. */
    method DeleteItem(itemToRemove: int) returns (r: int)
      modifies this
      ensures listData == Without(data, itemToRemove)
      ensures r == itemToRemove
    {
      listData := Without(data, itemToRemove);
      r := itemToRemove;
    }
  }

  /** Additions are not cumulative: after two `addItem` calls only the second
      item follows `data`. */
  method AddTwiceKeepsOnlyLast(data: seq<int>, a: int, b: int) returns (fetched: seq<int>)
    ensures fetched == data + [b]
  {
    var store := new MockListStore(data);
    var _ := store.AddItem(a);
    var _ := store.AddItem(b);
    fetched := store.FetchList();
  }

  /** A `deleteItem` discards an earlier `addItem`: the store is `data`
      without the removed element, and the added item is gone. */
  method AddThenDeleteDropsAddition(data: seq<int>, a: int, x: int) returns (fetched: seq<int>)
    requires a !in data
    ensures fetched == Without(data, x)
    ensures a !in fetched
  {
    var store := new MockListStore(data);
    var _ := store.AddItem(a);
    var _ := store.DeleteItem(x);
    fetched := store.FetchList();
  }
}
