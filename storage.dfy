/** The generic `Storage<T>` class: a counter and an ordered list of records, loaded from
    one `localStorage` key and written back to it as one document. */
module EntityStorage {
  import opened Wrappers
  import opened Entities
  import opened KeyValue

  const DUPLICATE_ID_MESSAGE := "Item with the same ID already exists"

  /** `JSON.parse` of a truthy stored text yields a `StorageData` document. */
  predicate Loadable<P>(stored: Option<Document<P>>) {
    !Truthy(stored) || stored.value.StateDoc?
  }

  /** `loadData`: the parsed document, or a fresh state when the key holds null or "". */
  function LoadData<P>(stored: Option<Document<P>>): (d: StorageData<P>)
    requires Loadable(stored)
    ensures !Truthy(stored) ==> d.nextId == 1 && d.items == []
    ensures Truthy(stored) ==> stored.value == StateDoc(d)
  {
    if Truthy(stored) then stored.value.data else StorageData(1, [])
  }

  /** Whatever the store held before, loading the key just written gives back the state written. */
  lemma LoadAfterSave<P>(entries: map<string, Document<P>>, key: string, d: StorageData<P>)
    ensures Loadable(Some(entries[key := StateDoc(d)][key]))
    ensures LoadData(Some(entries[key := StateDoc(d)][key])) == d
  {
  }

  class Storage<P> {
    const storageKey: string
    const backing: LocalStorage<P>
    var data: StorageData<P>

    /** The store's own invariant, kept by every method: ids distinct and below the counter. */
    ghost predicate Valid()
      reads this
    {
      DistinctIds(data.items) && AllIdsBelow(data.items, data.nextId)
    }

    constructor (storageKey: string, backing: LocalStorage<P>)
      requires Loadable(backing.GetItem(storageKey))
      ensures this.storageKey == storageKey && this.backing == backing
      ensures data == LoadData(backing.GetItem(storageKey))
      ensures !Truthy(backing.GetItem(storageKey)) ==> data == StorageData(1, []) && Valid()
    {
      this.storageKey := storageKey;
      this.backing := backing;
      data := LoadData(backing.GetItem(storageKey));
    }

    /** `get(id)`: the first record carrying `id`, or nothing. */
    function Get(id: int): (r: Option<Entity<P>>)
      reads this
      ensures r.Some? <==> HasId(data.items, id)
      ensures r.Some? ==> exists k :: FirstWithId(data.items, id, k) && r.value == data.items[k]
    {
      Find(data.items, id)
    }

    /** `getAll()`: the current records in insertion order. */
    function GetAll(): (r: seq<Entity<P>>)
      reads this
      ensures r == data.items
    {
      data.items
    }

    /** `add(item)`: throws on a duplicate id, appends otherwise; never writes to the backing store. */
    method Add(item: Entity<P>) returns (r: Outcome)
      modifies this
      ensures r.Fail? <==> HasId(old(data.items), item.id)
      ensures r.Fail? ==> r.message == DUPLICATE_ID_MESSAGE && data == old(data)
      ensures r.Pass? ==> data.items == old(data.items) + [item] && data.nextId == old(data.nextId)
      ensures DistinctIds(old(data.items)) ==> DistinctIds(data.items)
      ensures old(Valid()) && item.id < data.nextId ==> Valid()
      ensures backing.entries == old(backing.entries)
    {
      if HasId(data.items, item.id) {
        return Fail(DUPLICATE_ID_MESSAGE);
      }
      if DistinctIds(data.items) {
        AppendFreshKeepsDistinct(data.items, item);
      }
      data := data.(items := data.items + [item]);
      r := Pass;
    }

    /** `saveChanges()` / `saveData()`: writes the whole state under the store's key. */
    method SaveChanges()
      modifies backing
      ensures backing.entries == old(backing.entries)[storageKey := StateDoc(data)]
      ensures Loadable(backing.GetItem(storageKey)) && LoadData(backing.GetItem(storageKey)) == data
    {
      backing.SetItem(storageKey, StateDoc(data));
    }

    /** `getNextId()`: hands out the counter and bumps it; the records and the backing store stay. */
    method GetNextId() returns (id: int)
      modifies this
      ensures id == old(data.nextId)
      ensures data.nextId == id + 1 && data.items == old(data.items)
      ensures old(Valid()) ==> Valid()
      ensures backing.entries == old(backing.entries)
    {
      id := data.nextId;
      data := data.(nextId := data.nextId + 1);
    }

    /** `remove(id)`: drops the first record carrying `id` and persists; an absent id changes nothing. */
    method Remove(id: int)
      modifies this, backing
      ensures data.nextId == old(data.nextId)
      ensures !HasId(old(data.items), id) ==>
        data == old(data) && backing.entries == old(backing.entries)
      ensures HasId(old(data.items), id) ==>
        && data.items == RemoveFirst(old(data.items), id)
        && backing.entries == old(backing.entries)[storageKey := StateDoc(data)]
      ensures old(Valid()) ==> Valid() && !HasId(data.items, id)
    {
      var index := FindIndex(data.items, id);
      if index != -1 {
        ghost var before := data.items;
        if DistinctIds(before) {
          RemoveFirstKeepsDistinct(before, id);
        }
        data := data.(items := data.items[..index] + data.items[index + 1..]);
        assert forall i :: 0 <= i < |data.items| ==> data.items[i] in before;
        SaveChanges();
      }
    }
  }
}
