/** The ad hoc user store: a counter and a user list held as module state, loaded from two
    `localStorage` keys at start-up and written back to both after every `addUser`. */
module LocalStorageManager {
  import opened Wrappers
  import opened Entities
  import opened KeyValue

  const NEXT_USER_ID_KEY := "NEXT_USER_ID_KEY"
  const USERS_KEY := "USERS_KEY"
  const USER_NOT_FOUND_MESSAGE := "User not found"

  /** `Number.parseInt` of a truthy stored counter text yields an integer. */
  predicate CounterLoadable<P>(stored: Option<Document<P>>) {
    !Truthy(stored) || stored.value.NumberText?
  }

  /** `JSON.parse` of a truthy stored user list text yields a list. */
  predicate UsersLoadable<P>(stored: Option<Document<P>>) {
    !Truthy(stored) || stored.value.ListDoc?
  }

  /** The start-up counter: the stored number, or 1 when the key holds null or "". */
  function LoadNextUserId<P>(stored: Option<Document<P>>): (n: int)
    requires CounterLoadable(stored)
    ensures !Truthy(stored) ==> n == 1
    ensures Truthy(stored) ==> stored.value == NumberText(n)
  {
    if Truthy(stored) then stored.value.n else 1
  }

  /** The start-up user list: the stored list, or empty when the key holds null or "". */
  function LoadUsers<P>(stored: Option<Document<P>>): (users: seq<Entity<P>>)
    requires UsersLoadable(stored)
    ensures !Truthy(stored) ==> users == []
    ensures Truthy(stored) ==> stored.value == ListDoc(users)
  {
    if Truthy(stored) then stored.value.items else []
  }

  class UserStore<P> {
    const backing: LocalStorage<P>
    var nextUserId: int
    var users: seq<Entity<P>>

    /** Ids distinct and below the counter: what `addUser` alone keeps, with no duplicate check. */
    ghost predicate Valid()
      reads this
    {
      DistinctIds(users) && AllIdsBelow(users, nextUserId)
    }

    /** The module's top-level initialisation of `nextUserId` and `users`. */
    constructor (backing: LocalStorage<P>)
      requires CounterLoadable(backing.GetItem(NEXT_USER_ID_KEY))
      requires UsersLoadable(backing.GetItem(USERS_KEY))
      ensures this.backing == backing
      ensures nextUserId == LoadNextUserId(backing.GetItem(NEXT_USER_ID_KEY))
      ensures users == LoadUsers(backing.GetItem(USERS_KEY))
    {
      this.backing := backing;
      nextUserId := LoadNextUserId(backing.GetItem(NEXT_USER_ID_KEY));
      users := LoadUsers(backing.GetItem(USERS_KEY));
    }

    /** `getUsers()`: a copy of the list, in insertion order. */
    method GetUsers() returns (r: seq<Entity<P>>)
      ensures r == users
    {
      r := users;
    }

    /** `getUserById(id)`: the first user carrying `id`; throws "User not found" when none does. */
    method GetUserById(id: int) returns (r: Result<Entity<P>>)
      ensures r.Err? <==> !HasId(users, id)
      ensures r.Err? ==> r.message == USER_NOT_FOUND_MESSAGE
      ensures r.Ok? ==> exists k :: FirstWithId(users, id, k) && r.value == users[k]
    {
      var user := Find(users, id);
      if user.None? {
        return Err(USER_NOT_FOUND_MESSAGE);
      }
      r := Ok(user.value);
    }

    /** `addUser(dto)`: the new user takes the old counter as id, the counter goes up by one,
        the user goes to the end of the list, both keys are written, and the id is returned.
        It never fails and does not look for a duplicate id. */
    method AddUser(dto: P) returns (id: int)
      modifies this, backing
      ensures id == old(nextUserId) && nextUserId == id + 1
      ensures users == old(users) + [Entity(id, dto)]
      ensures backing.entries ==
        old(backing.entries)[NEXT_USER_ID_KEY := NumberText(nextUserId)][USERS_KEY := ListDoc(users)]
      ensures old(Valid()) ==> Valid()
    {
      var user := Entity(nextUserId, dto);
      if Valid() {
        AppendAtCounter(users, nextUserId, dto);
      }
      nextUserId := nextUserId + 1;
      users := users + [user];
      SaveChanges();
      id := user.id;
    }

    /** `saveChanges()`: writes the counter and the list under their two keys, so that a
        fresh start-up reads back exactly the current state. */
    method SaveChanges()
      modifies backing
      ensures backing.entries ==
        old(backing.entries)[NEXT_USER_ID_KEY := NumberText(nextUserId)][USERS_KEY := ListDoc(users)]
      ensures CounterLoadable(backing.GetItem(NEXT_USER_ID_KEY))
      ensures UsersLoadable(backing.GetItem(USERS_KEY))
      ensures LoadNextUserId(backing.GetItem(NEXT_USER_ID_KEY)) == nextUserId
      ensures LoadUsers(backing.GetItem(USERS_KEY)) == users
    {
      backing.SetItem(NEXT_USER_ID_KEY, NumberText(nextUserId));
      backing.SetItem(USERS_KEY, ListDoc(users));
    }
  }

  /** Two `addUser` calls in a row hand out increasing ids, and each is then found by
      `getUserById`. */
  method ConsecutiveAddUsers<P>(store: UserStore<P>, first: P, second: P) returns (a: int, b: int)
    modifies store, store.backing
    ensures a < b && b == a + 1
    ensures store.users == old(store.users) + [Entity(a, first), Entity(b, second)]
    ensures old(store.Valid()) ==> Find(store.users, a) == Some(Entity(a, first))
    ensures old(store.Valid()) ==> Find(store.users, b) == Some(Entity(b, second))
  {
    ghost var start := store.users;
    a := store.AddUser(first);
    ghost var mid := store.users;
    b := store.AddUser(second);
    if old(store.Valid()) {
      CounterIsFresh(start, a);
      FindAppended(start, Entity(a, first));
      FindAppendedElsewhere(mid, Entity(b, second), a);
      assert store.users == mid + [Entity(b, second)];
      CounterIsFresh(mid, b);
      FindAppended(mid, Entity(b, second));
    }
  }
}
