/** The user service: `getUser`, `getUsers` and `addUser` composed over one generic
    `Storage` instance kept under the key "user-storage". A rejected promise is an `Err`
    carrying the message of the Error it rejects with. */
module UserService {
  import opened Wrappers
  import opened Entities
  import opened KeyValue
  import opened EntityStorage

  const USER_STORAGE_KEY := "user-storage"
  const USER_NOT_FOUND_MESSAGE := "User not found"

  class Service<P> {
    const storage: Storage<P>

    /** The module's `new Storage<User>(storageKey)`. */
    constructor (backing: LocalStorage<P>)
      requires Loadable(backing.GetItem(USER_STORAGE_KEY))
      ensures fresh(storage)
      ensures storage.storageKey == USER_STORAGE_KEY && storage.backing == backing
      ensures storage.data == LoadData(backing.GetItem(USER_STORAGE_KEY))
    {
      storage := new Storage(USER_STORAGE_KEY, backing);
    }

    /** `getUser(id)`: resolves with the first stored user carrying `id`, rejects with
        "User not found" when there is none. */
    method GetUser(id: int) returns (r: Result<Entity<P>>)
      ensures r.Err? <==> !HasId(storage.data.items, id)
      ensures r.Err? ==> r.message == USER_NOT_FOUND_MESSAGE
      ensures r.Ok? ==> exists k :: FirstWithId(storage.data.items, id, k) && r.value == storage.data.items[k]
    {
      var maybeUser := storage.Get(id);
      r := if maybeUser.Some? then Ok(maybeUser.value) else Err(USER_NOT_FOUND_MESSAGE);
    }

    /** `getUsers()`: resolves with the store's current list. */
    method GetUsers() returns (r: seq<Entity<P>>)
      ensures r == storage.data.items
    {
      r := storage.GetAll();
    }

    /** `addUser(dto)`: draws an id, adds the user under it, then saves. The counter moves
        before `add` can throw; when it throws, `saveChanges` is never reached, so the
        backing store keeps what it held. While the store's invariant holds the drawn id is
        fresh and the call succeeds. */
    method AddUser(dto: P) returns (r: Result<int>)
      modifies storage, storage.backing
      ensures storage.data.nextId == old(storage.data.nextId) + 1
      ensures r.Err? <==> HasId(old(storage.data.items), old(storage.data.nextId))
      ensures r.Err? ==>
        && r.message == DUPLICATE_ID_MESSAGE
        && storage.data.items == old(storage.data.items)
        && storage.backing.entries == old(storage.backing.entries)
      ensures r.Ok? ==>
        && r.value == old(storage.data.nextId)
        && storage.data.items == old(storage.data.items) + [Entity(r.value, dto)]
        && storage.backing.entries == old(storage.backing.entries)[storage.storageKey := StateDoc(storage.data)]
      ensures old(storage.Valid()) ==> r.Ok? && storage.Valid()
    {
      var id := storage.GetNextId();
      var user := Entity(id, dto);
      var added := storage.Add(user);
      if added.Fail? {
        return Err(added.message);
      }
      storage.SaveChanges();
      r := Ok(id);
    }
  }

  /** A successful `addUser` is found by `getUser` under the id it resolved with; when
      `addUser` rejects, the drawn id was taken, so `getUser` on it finds that user. */
  method AddThenGet<P>(service: Service<P>, dto: P) returns (added: Result<int>, found: Result<Entity<P>>)
    modifies service.storage, service.storage.backing
    ensures added.Ok? ==> found == Ok(Entity(added.value, dto))
    ensures added.Err? ==> found.Ok? && found.value.id == old(service.storage.data.nextId)
  {
    ghost var before := service.storage.data.items;
    var drawn := service.storage.data.nextId;
    added := service.AddUser(dto);
    if added.Ok? {
      FindAppended(before, Entity(added.value, dto));
      assert FirstWithId(service.storage.data.items, added.value, |before|);
    }
    found := service.GetUser(drawn);
  }
}
