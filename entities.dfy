/** Records that carry an integer `id`, and the array searches the stores run over them
    (`some`, `find`, `findIndex` and `splice(index, 1)` on a list of records). */
module Entities {
  import opened Wrappers

  /** A record: its `id` plus the rest of its fields, which the stores never look into. */
  datatype Entity<P> = Entity(id: int, fields: P)

  /** The state a generic store keeps in memory and persists as one document. */
  datatype StorageData<P> = StorageData(nextId: int, items: seq<Entity<P>>)

  /** Some record of `items` carries `id` (`items.some(item => item.id === id)`). */
  predicate HasId<P>(items: seq<Entity<P>>, id: int) {
    exists i | 0 <= i < |items| :: items[i].id == id
  }

  /** Position `k` holds the first record of `items` whose id is `id`. */
  ghost predicate FirstWithId<P>(items: seq<Entity<P>>, id: int, k: int) {
    && 0 <= k < |items|
    && items[k].id == id
    && forall j :: 0 <= j < k ==> items[j].id != id
  }

  /** No two records of `items` share an id. */
  ghost predicate DistinctIds<P>(items: seq<Entity<P>>) {
    forall i, j :: 0 <= i < j < |items| ==> items[i].id != items[j].id
  }

  /** Every record of `items` has an id below `bound` (the next id the counter hands out). */
  ghost predicate AllIdsBelow<P>(items: seq<Entity<P>>, bound: int) {
    forall i :: 0 <= i < |items| ==> items[i].id < bound
  }

  /** `items.findIndex(item => item.id === id)`: the first position holding `id`, or -1. */
  function FindIndex<P>(items: seq<Entity<P>>, id: int): (k: int)
    ensures -1 <= k < |items|
    ensures k == -1 <==> !HasId(items, id)
    ensures k != -1 ==> FirstWithId(items, id, k)
  {
    if |items| == 0 then -1
    else if items[0].id == id then 0
    else
      var k := FindIndex(items[1..], id);
      assert forall i :: 1 <= i < |items| ==> items[i] == items[1..][i - 1];
      if k == -1 then -1 else k + 1
  }

  /** `items.find(item => item.id === id)`: the first record carrying `id`, if any. */
  function Find<P>(items: seq<Entity<P>>, id: int): (r: Option<Entity<P>>)
    ensures r.Some? <==> HasId(items, id)
    ensures r.Some? ==> r.value.id == id && exists k :: FirstWithId(items, id, k) && r.value == items[k]
  {
    var k := FindIndex(items, id);
    if k == -1 then None else Some(items[k])
  }

  /** `items.splice(items.findIndex(...), 1)` when the index is not -1: drops the first
      record carrying `id` and keeps the others in their order. */
  function RemoveFirst<P>(items: seq<Entity<P>>, id: int): (r: seq<Entity<P>>)
    ensures !HasId(items, id) ==> r == items
    ensures HasId(items, id) ==>
      && |r| == |items| - 1
      && exists k :: FirstWithId(items, id, k) && r == items[..k] + items[k + 1..]
  {
    var k := FindIndex(items, id);
    if k == -1 then items else items[..k] + items[k + 1..]
  }

  /** Removing the first record with `id` takes exactly that record out of the collection. */
  lemma RemoveFirstMultiset<P>(items: seq<Entity<P>>, id: int)
    requires HasId(items, id)
    ensures exists k :: FirstWithId(items, id, k) &&
      multiset(RemoveFirst(items, id)) + multiset{items[k]} == multiset(items)
  {
    var k := FindIndex(items, id);
    assert items == items[..k] + [items[k]] + items[k + 1..];
    assert FirstWithId(items, id, k);
  }

  /** With distinct ids, removal keeps them distinct and leaves no record carrying `id`. */
  lemma RemoveFirstKeepsDistinct<P>(items: seq<Entity<P>>, id: int)
    requires DistinctIds(items)
    ensures DistinctIds(RemoveFirst(items, id))
    ensures !HasId(RemoveFirst(items, id), id)
  {
    var k := FindIndex(items, id);
    if k != -1 {
      var r := items[..k] + items[k + 1..];
      forall i, j | 0 <= i < j < |r|
        ensures r[i].id != r[j].id
      {
        RemovedAt(items, k, i);
        RemovedAt(items, k, j);
      }
      forall i | 0 <= i < |r|
        ensures r[i].id != id
      {
        RemovedAt(items, k, i);
      }
    }
  }

  /** Position `i` after dropping the record at `k` holds the record from position `i`
      before `k`, and from position `i + 1` from `k` on. */
  lemma RemovedAt<P>(items: seq<Entity<P>>, k: int, i: int)
    requires 0 <= k < |items| && 0 <= i < |items| - 1
    ensures (items[..k] + items[k + 1..])[i] == if i < k then items[i] else items[i + 1]
  {
  }

  /** Appending a record whose id is not yet present keeps the ids distinct. */
  lemma AppendFreshKeepsDistinct<P>(items: seq<Entity<P>>, e: Entity<P>)
    requires DistinctIds(items)
    requires !HasId(items, e.id)
    ensures DistinctIds(items + [e])
  {
    var r := items + [e];
    forall i, j | 0 <= i < j < |r|
      ensures r[i].id != r[j].id
    {
      if j == |items| {
        assert r[i] == items[i];
      }
    }
  }

  /** A record appended under an id nobody had is the one `find` returns for that id. */
  lemma FindAppended<P>(items: seq<Entity<P>>, e: Entity<P>)
    requires !HasId(items, e.id)
    ensures Find(items + [e], e.id) == Some(e)
  {
    var r := items + [e];
    assert r[|items|].id == e.id;
    assert forall i :: 0 <= i < |items| ==> r[i] == items[i];
  }

  /** When every id is below the counter, the counter value is not taken yet. */
  lemma CounterIsFresh<P>(items: seq<Entity<P>>, nextId: int)
    requires AllIdsBelow(items, nextId)
    ensures !HasId(items, nextId)
  {
  }

  /** Appending a record under the counter value and bumping the counter keeps ids distinct
      and all below the new counter. */
  lemma AppendAtCounter<P>(items: seq<Entity<P>>, nextId: int, fields: P)
    requires DistinctIds(items) && AllIdsBelow(items, nextId)
    ensures DistinctIds(items + [Entity(nextId, fields)])
    ensures AllIdsBelow(items + [Entity(nextId, fields)], nextId + 1)
  {
    CounterIsFresh(items, nextId);
    AppendFreshKeepsDistinct(items, Entity(nextId, fields));
  }

  /** Appending a record does not change what `find` returns for an id already present. */
  lemma FindAppendedElsewhere<P>(items: seq<Entity<P>>, e: Entity<P>, id: int)
    requires HasId(items, id)
    ensures Find(items + [e], id) == Find(items, id)
  {
    var r := items + [e];
    var k := FindIndex(items, id);
    assert forall i :: 0 <= i < |items| ==> r[i] == items[i];
    assert r[k].id == id;
  }
}
