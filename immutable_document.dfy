/**
 * `ImmutableDocument`: a read-only node of the configuration document tree.
 * Its data map is wrapped in a read-only view, every write fails, and the
 * child documents under a key are built on first request and then kept in a
 * per-key cache, so that later requests get the very same children without
 * calling any instantiator again.
 */
module Documents {
  import opened Wrappers

  /** A scalar entry of a document: a string, a number or a flag. */
  datatype Literal = Text(text: string) | Number(number: int) | Flag(flag: bool)

  /** A value stored under a key: a scalar, a nested map, or a list of child maps. */
  datatype Value =
    | Scalar(literal: Literal)
    | MapV(entries: map<string, Value>)
    | ListOfMaps(items: seq<map<string, Value>>)

  /** `Collections.unmodifiableMap`: a view of a map that can be read and never written. */
  datatype ReadOnlyMap = ReadOnly(entries: map<string, Value>) {
    /** The value under `key`, or `None` when there is none (`Document.get`). */
    function Get(key: string): (r: Option<Value>)
      ensures r.Some? <==> key in entries
      ensures r.Some? ==> r.value == entries[key]
    {
      if key in entries then Some(entries[key]) else None
    }
  }

  /** The error kind of a write to an immutable document. */
  datatype DocumentError = UnsupportedOperation

  /**
   * `key` can be asked for children: it is absent or holds a list of maps.
   * Any other value under it makes the unchecked cast to a list fail.
   */
  predicate HoldsChildList(data: ReadOnlyMap, key: string) {
    key in data.entries ==> data.entries[key].ListOfMaps?
  }

  /** Wraps each map of `items` read-only and hands it to `instantiator`, keeping list order. */
  function Instantiate<C>(items: seq<map<string, Value>>, instantiator: ReadOnlyMap -> C): (r: seq<C>)
    ensures |r| == |items|
    ensures forall i :: 0 <= i < |items| ==> r[i] == instantiator(ReadOnly(items[i]))
  {
    if items == [] then []
    else [instantiator(ReadOnly(items[0]))] + Instantiate(items[1..], instantiator)
  }

  /**
   * The children a first request for `key` builds: none when `key` is absent,
   * otherwise one per list element, in list order, child `i` being the
   * instantiator applied to the read-only view of element `i`.
   */
  function Materialize<C>(data: ReadOnlyMap, key: string, instantiator: ReadOnlyMap -> C): (r: seq<C>)
    requires HoldsChildList(data, key)
    ensures key !in data.entries ==> r == []
    ensures key in data.entries ==>
      && |r| == |data.entries[key].items|
      && forall i :: 0 <= i < |r| ==> r[i] == instantiator(ReadOnly(data.entries[key].items[i]))
  {
    match data.Get(key)
    case None => []
    case Some(list) => Instantiate(list.items, instantiator)
  }

  /**
   * A read-only document with children of type `C`. `cache` is the per-key
   * store of built children; the ghost fields record how many times an
   * instantiator was called and which instantiator built each cache entry.
   */
  class ImmutableDocument<C> {
    const parent: ImmutableDocument?<C>
    const data: ReadOnlyMap
    var cache: map<string, seq<C>>
    ghost var instantiations: nat
    ghost var builders: map<string, ReadOnlyMap -> C>

    /** Every cache entry holds what its first request materialised from `data`. */
    ghost predicate Valid()
      reads this
    {
      && cache.Keys == builders.Keys
      && forall k :: k in cache ==> HoldsChildList(data, k) && cache[k] == Materialize(data, k, builders[k])
    }

    /** A document without a parent over a read-only view of `source`. */
    constructor (source: map<string, Value>)
      ensures Valid()
      ensures parent == null && GetData() == ReadOnly(source)
      ensures cache == map[] && instantiations == 0
    {
      parent := null;
      data := ReadOnly(source);
      cache := map[];
      instantiations := 0;
      builders := map[];
    }

    /** A document under `parent` over a read-only view of `source`. */
    constructor WithParent(parent: ImmutableDocument?<C>, source: map<string, Value>)
      ensures Valid()
      ensures this.parent == parent && GetData() == ReadOnly(source)
      ensures cache == map[] && instantiations == 0
    {
      this.parent := parent;
      data := ReadOnly(source);
      cache := map[];
      instantiations := 0;
      builders := map[];
    }

    /** The read-only data map (`getData`). */
    function GetData(): ReadOnlyMap {
      data
    }

    /** Every write fails; the method may modify nothing, so data and cache stay as they are. */
    method Put(key: string, value: Value) returns (r: Outcome<DocumentError>)
      ensures r == Fail(UnsupportedOperation)
    {
      r := Fail(UnsupportedOperation);
    }

    /**
     * The children under `key`. The first request materialises them with
     * `instantiator`, one call per list element, and caches them; every later
     * request returns the cached sequence and ignores the instantiator it is
     * given. No other cache entry changes.
     */
    method Children(key: string, instantiator: ReadOnlyMap -> C) returns (r: seq<C>)
      requires Valid() && HoldsChildList(data, key)
      modifies this
      ensures Valid()
      ensures key in old(cache) ==> r == old(cache)[key] && instantiations == old(instantiations)
      ensures key !in old(cache) ==>
        r == Materialize(data, key, instantiator) && instantiations == old(instantiations) + |r|
      ensures cache == old(cache)[key := r]
    {
      if key in cache {
        r := cache[key];
        return;
      }
      var found := data.Get(key);
      if found.None? {
        r := [];
      } else {
        var list := found.value.items;
        r := [];
        var i := 0;
        while i < |list|
          invariant 0 <= i <= |list|
          invariant |r| == i
          invariant forall j :: 0 <= j < i ==> r[j] == instantiator(ReadOnly(list[j]))
          invariant instantiations == old(instantiations) + i
          invariant cache == old(cache) && builders == old(builders)
        {
          r := r + [instantiator(ReadOnly(list[i]))];
          instantiations := instantiations + 1;
          i := i + 1;
        }
      }
      cache := cache[key := r];
      builders := builders[key := instantiator];
    }

    /** A document without a parent over the data map `document.getData()` of any document. */
    static method From(documentData: map<string, Value>) returns (d: ImmutableDocument<C>)
      ensures fresh(d) && d.Valid()
      ensures d.parent == null && d.GetData() == ReadOnly(documentData)
      ensures d.cache == map[] && d.instantiations == 0
    {
      d := new ImmutableDocument(documentData);
    }
  }

  /**
   * Two requests for the same key on a fresh document, the second with a
   * different instantiator: both return the children the first instantiator
   * built, and only the first request calls an instantiator.
   */
  method ChildrenTwice<C>(source: map<string, Value>, key: string, first: ReadOnlyMap -> C, second: ReadOnlyMap -> C)
    returns (r1: seq<C>, r2: seq<C>, ghost calls: nat)
    requires HoldsChildList(ReadOnly(source), key)
    ensures r1 == Materialize(ReadOnly(source), key, first)
    ensures r2 == r1
    ensures calls == |r1|
  {
    var d := ImmutableDocument<C>.From(source);
    r1 := d.Children(key, first);
    r2 := d.Children(key, second);
    calls := d.instantiations;
  }

  /** A typed child document over a column's read-only data. */
  datatype Column = Column(data: ReadOnlyMap)

  /**
   * A table document named "orders" with the columns `{name: id}` and
   * `{name: total}`: frozen with `From`, its children under "columns" are
   * exactly two, one per column map and in list order, named "id" and "total".
   */
  method ColumnsInOrder() returns (columns: seq<Column>, names: seq<Option<Value>>)
    ensures columns == [Column(ReadOnly(map["name" := Scalar(Text("id"))])),
                        Column(ReadOnly(map["name" := Scalar(Text("total"))]))]
    ensures names == [Some(Scalar(Text("id"))), Some(Scalar(Text("total")))]
  {
    var id := map["name" := Scalar(Text("id"))];
    var total := map["name" := Scalar(Text("total"))];
    var table := map["name" := Scalar(Text("orders")), "columns" := ListOfMaps([id, total])];
    var d := ImmutableDocument<Column>.From(table);
    columns := d.Children("columns", (m: ReadOnlyMap) => Column(m));
    names := [columns[0].data.Get("name"), columns[1].data.Get("name")];
  }
}
