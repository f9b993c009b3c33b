/**
 * The catalog's data: the `Book` record and the dictionary from book id to
 * book that holds the catalog. A Python `dict` remembers the order in which
 * its keys were first inserted, and `values()` follows that order, so the
 * dictionary is modelled as its key order together with the key-to-book map.
 */
module Catalog {
  import opened Wrappers

  /**
   * One catalog item. Prices are exact decimals (`real`); the source stores
   * them as floats but only ever compares them.
   */
  datatype Book = Book(id: int, title: string, author: string, price: real, stock: int)

  /** `dict[int, Book]`: `order` lists the keys by first insertion, `entries` maps them. */
  datatype BookDict = BookDict(order: seq<int>, entries: map<int, Book>)

  /** The representation invariant every Python dict satisfies: each key listed once, and exactly the mapped keys. */
  ghost predicate WellFormed(d: BookDict) {
    && (forall i, j :: 0 <= i < j < |d.order| ==> d.order[i] != d.order[j])
    && (forall k :: k in d.entries <==> k in d.order)
  }

  /** The catalog invariant: every key is the id of the book stored under it. */
  ghost predicate KeysMatchIds(d: BookDict) {
    forall k :: k in d.entries ==> d.entries[k].id == k
  }

  /** The error `d[k]` raises for a key that is not in the dictionary. */
  datatype LookupError = KeyError(key: int)

  /** `list(d.values())`: the stored books in key-insertion order. */
  function Values(d: BookDict): (r: seq<Book>)
    requires WellFormed(d)
    ensures |r| == |d.order|
    ensures forall i :: 0 <= i < |r| ==> d.order[i] in d.entries && r[i] == d.entries[d.order[i]]
    ensures forall b :: b in r <==> b in d.entries.Values
  {
    assert forall i :: 0 <= i < |d.order| ==> d.order[i] in d.order;
    var r := seq(|d.order|, i requires 0 <= i < |d.order| && d.order[i] in d.entries => d.entries[d.order[i]]);
    assert forall b :: b in d.entries.Values ==> b in r by {
      forall b | b in d.entries.Values
        ensures b in r
      {
        assert exists k :: k in d.entries && d.entries[k] == b;
        var k :| k in d.entries && d.entries[k] == b;
        var i :| 0 <= i < |d.order| && d.order[i] == k;
        assert r[i] == b;
      }
    }
    r
  }

  /** `d[k]`: the book stored under `k`, or the `KeyError` the subscript raises. */
  function Lookup(d: BookDict, k: int): (r: Result<Book, LookupError>)
    ensures r.Ok? <==> k in d.entries
    ensures r.Ok? ==> r.value == d.entries[k]
    ensures r.Ok? && KeysMatchIds(d) ==> r.value.id == k
    ensures r.Err? ==> r.error == KeyError(k)
  {
    if k in d.entries then Ok(d.entries[k]) else Err(KeyError(k))
  }
}
