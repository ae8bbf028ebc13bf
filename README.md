# User store and field validation, modelled in Dafny

This project models the client-side persistence and validation layer of a small
user-registration front end:

- a generic keyed record store (`Storage<T>`): a counter `nextId` and an ordered list of
  records with integer ids, loaded from one browser `localStorage` key and written back to it;
- an older, user-only store kept in module state, persisted under two keys
  (`NEXT_USER_ID_KEY` for the counter, `USERS_KEY` for the list);
- the user service, which composes `getNextId`, `add` and `saveChanges` on one `Storage`
  instance kept under `"user-storage"`;
- the field validator: a fixed rule chain (required, then pattern, then callback) and the
  name, date-of-birth, email and phone-number validators built on it.

Modules and files:

| file | module | models |
|---|---|---|
| wrappers.dfy | `Wrappers` | `Option`; `Result`/`Outcome` for calls that may throw an `Error` |
| entities.dfy | `Entities` | records with an `id`, and `some`/`find`/`findIndex`/`splice` over them |
| key_value.dfy | `KeyValue` | `localStorage` as a class holding a `map` from keys to stored documents |
| storage.dfy | `EntityStorage` | `src/services/storage.ts`, class `Storage` |
| local_storage_manager.dfy | `LocalStorageManager` | `src/local-storage-manager.ts`, its module state as class `UserStore` |
| user_service.dfy | `UserService` | `src/services/user-service.ts`, its module state as class `Service` |
| validation.dfy | `Validation` | `src/validation.ts` |

The backing store is a class whose one field is a `map<string, Document<P>>`. A document is
the JSON value a key's text encodes: the empty string, a `{nextId, items}` state, a number
written with `toString`, or a list of records. What `JSON.stringify` writes is therefore what
`JSON.parse` reads back. A key holding `null` (absent) or `""` is falsy, so both start the
store afresh. A stored counter text `"0"` is truthy and loads as 0, as `parseInt` does.

Throwing operations return `Outcome`/`Result` values that carry the thrown `Error`'s message.
In the user service a rejected promise is an `Err`. The store's methods state their whole new
state, including the backing map. Two invariants are carried as predicates: ids pairwise
distinct, and all ids below the counter (`Valid()`). `add` checks the first. `addUser` in both
stores relies on the second. The source does not enforce either at load time.

Facts about the code that shape the model:

- `Storage.add` does not write to `localStorage`; only `remove` and `saveChanges` do.
- `getAll` returns the live array. Values make the difference invisible here.
- Loading does not check the shape of what it reads (see Left out).
- `Storage.get` returns `undefined` for a missing id. Only the service and the ad hoc store
  turn that into "User not found".
- The email pattern is not anchored: `test` succeeds on any matching substring.

## Model

| member | source | states |
|---|---|---|
| `Entities.FindIndex` | src/services/storage.ts:43 | the result is -1 exactly when no record has the id, and otherwise the position of the first record carrying it |
| `Entities.Find` | src/services/storage.ts:18 | returns a record exactly when some record has the id, and then it is the first such record |
| `Entities.RemoveFirst` | src/services/storage.ts:43-45 | an absent id leaves the list as it is; a present one removes exactly the first match, keeping the records before and after it in order, one shorter |
| `Entities.RemoveFirstMultiset` | src/services/storage.ts:43-45 | the removal takes exactly the first matching record out of the collection, as a multiset |
| `Entities.RemoveFirstKeepsDistinct` | src/services/storage.ts:42-48 | with distinct ids, removal keeps them distinct and no record with the removed id is left |
| `Entities.AppendFreshKeepsDistinct` | src/services/storage.ts:25-31 | appending a record whose id is absent keeps all ids distinct |
| `Entities.FindAppended` | src/services/storage.ts:17-31 | after appending a record under a fresh id, `find` for that id returns that record |
| `Entities.FindAppendedElsewhere` | src/local-storage-manager.ts:16-29 | appending a record does not change what `find` returns for an id already present |
| `Entities.CounterIsFresh` | src/services/user-service.ts:21-24 | when every id is below the counter, the drawn id collides with nothing |
| `Entities.AppendAtCounter` | src/local-storage-manager.ts:25-29 | appending under the counter value and bumping it keeps ids distinct and below the new counter |
| `KeyValue.LocalStorage.GetItem` | src/services/storage.ts:51 | `getItem` returns the stored text exactly when the key is present, else null |
| `KeyValue.LocalStorage.SetItem` | src/services/storage.ts:56 | `setItem` replaces the value of one key and leaves every other key alone |
| `EntityStorage.LoadData` | src/services/storage.ts:50-53 | a key holding null or "" loads as nextId 1 with no items; otherwise the stored state is loaded as it is |
| `EntityStorage.LoadAfterSave` | src/services/storage.ts:50-57 | loading a key just written with a state gives back that state, whatever the map held before |
| `EntityStorage.Storage.constructor` | src/services/storage.ts:12-15 | the store keeps its key and the loaded state; a fresh store satisfies the id invariant |
| `EntityStorage.Storage.Get` | src/services/storage.ts:17-19 | returns a record exactly when one has the id, and then the first one |
| `EntityStorage.Storage.GetAll` | src/services/storage.ts:21-23 | returns the current list in insertion order |
| `EntityStorage.Storage.Add` | src/services/storage.ts:25-32 | fails with "Item with the same ID already exists" exactly on a duplicate id, and then changes nothing; otherwise appends at the end; the counter and the backing store never change; distinct ids stay distinct, and the invariant survives an id below the counter |
| `EntityStorage.Storage.SaveChanges` | src/services/storage.ts:34-36 | writes the whole state under the store's key (through `saveData`, lines 55-57), so a fresh load reproduces it |
| `EntityStorage.Storage.GetNextId` | src/services/storage.ts:38-40 | returns the old counter, raises it by exactly one, leaves the items and the backing store alone, and keeps the invariant |
| `EntityStorage.Storage.Remove` | src/services/storage.ts:42-48 | an absent id changes neither memory nor the backing store; a present one removes the first match and persists; the counter never changes; the invariant is kept and the id is gone |
| `LocalStorageManager.LoadNextUserId` | src/local-storage-manager.ts:6-7 | the start-up counter is the stored number, or 1 when the key holds null or "" |
| `LocalStorageManager.LoadUsers` | src/local-storage-manager.ts:9-10 | the start-up list is the stored list, or empty when the key holds null or "" |
| `LocalStorageManager.UserStore.constructor` | src/local-storage-manager.ts:6-10 | the counter and the list are initialised from their two keys |
| `LocalStorageManager.UserStore.GetUsers` | src/local-storage-manager.ts:12-14 | returns the current list in insertion order |
| `LocalStorageManager.UserStore.GetUserById` | src/local-storage-manager.ts:16-23 | fails with "User not found" exactly when no user has the id; otherwise returns the first user carrying it |
| `LocalStorageManager.UserStore.AddUser` | src/local-storage-manager.ts:25-33 | never fails: the new user gets the old counter as id, the counter rises by one, the user is appended, both keys are written, the id is returned; the invariant is kept |
| `LocalStorageManager.UserStore.SaveChanges` | src/local-storage-manager.ts:35-38 | writes the counter and the list under their keys, and a fresh start-up reads both back unchanged |
| `LocalStorageManager.ConsecutiveAddUsers` | src/local-storage-manager.ts:25-33 | two `addUser` calls in a row return increasing ids, and, when the ids are distinct and below the counter beforehand, each user is then found under its id |
| `UserService.Service.constructor` | src/services/user-service.ts:4-5 | the service holds a fresh store under "user-storage", loaded from the backing store |
| `UserService.Service.GetUser` | src/services/user-service.ts:7-13 | rejects with "User not found" exactly when no stored user has the id; otherwise resolves with the first one |
| `UserService.Service.GetUsers` | src/services/user-service.ts:15-17 | resolves with exactly the store's current list |
| `UserService.Service.AddUser` | src/services/user-service.ts:19-29 | the counter always rises by one; it rejects exactly when the drawn id is taken, and then the list and the backing store are unchanged; otherwise it resolves with the drawn id, the user is appended and the state is persisted; under the invariant it always succeeds |
| `UserService.AddThenGet` | src/services/user-service.ts:7-29 | a user added successfully is then returned by `getUser` under the resolved id; when the add rejects, `getUser` on the drawn id finds the user already holding it |
| `Validation.Label` | src/validation.ts:53 | the label is the configured name, or "field" when none is configured |
| `Validation.Validate` | src/validation.ts:52-65 | required and empty gives "The {name} is required" before anything else; a failing pattern next gives "Invalid {name} format"; otherwise "" without a callback, else the callback's result |
| `Validation.ValidIffAllRulesPass` | src/validation.ts:52-65 | the result is "" exactly when the required check, the pattern and the callback all accept the input |
| `Validation.FullMatchPointwise` | src/validation.ts:10 | an anchored pattern of single-character atoms matches exactly the inputs of its length that agree with it position by position |
| `Validation.PhonePatternExact` | src/validation.ts:10 | the phone pattern accepts exactly the strings "(ddd) ddd-dddd" with ASCII digits |
| `Validation.ValidateName` | src/validation.ts:12-17 | "The name is required" for "", and "" for every other input |
| `Validation.ValidatePhoneNumber` | src/validation.ts:44-50 | "The phone number is required" for ""; "" exactly for "(ddd) ddd-dddd"; "Invalid phone number format" for anything else |
| `Validation.ValidateEmail` | src/validation.ts:36-42 | "The email is required" for ""; otherwise "" when the email pattern accepts the input and "Invalid email format" when it does not |
| `Validation.EmailWithoutAt` | src/validation.ts:9 | since every match of the email pattern contains '@', a non-empty input without '@' gives "Invalid email format" |
| `Validation.DateOfBirthCheck` | src/validation.ts:22-27 | gives "The date of birth should be from past" exactly when the input parses to a time after now, and "" otherwise, including for an unparseable date |
| `Validation.ValidateDateOfBirth` | src/validation.ts:19-34 | "The date of birth is required" for ""; otherwise only "" or the future-date message, the latter exactly for a parsed time after now |

## Left out

- `JSON.parse`, `JSON.stringify` and `Number.parseInt` are not modelled as text operations. A
  key holds the JSON value itself, so the encode/decode round trip holds by construction.
- Malformed stored text is out of scope. That means text that does not parse, or parses to the
  wrong shape. The constructors require each key to hold nothing, "", or a value of the shape
  they read. The source does not check the shape and would fail later or load garbage.
- `Validation.ValidateEmail`: the email regex at src/validation.ts:9 is a parameter
  `emailTest`. It is constrained only by `MatchesNeedAt` (every match contains '@'). The
  full grammar and its unanchored search are not modelled.
- `Validation.ValidateDateOfBirth`: `new Date(input)` and the wall clock become parameters.
  `parseDate` returns the time value, or None for an Invalid Date, and `now` is the current
  time. JavaScript's date-string grammar is not modelled.
- `Validation.PhonePatternExact`: regular expressions are not modelled in general. Only the
  phone pattern is, with its counted repetitions written out as single-character atoms.
- JavaScript numbers are doubles. The counters here are unbounded integers, so precision loss
  above 2^53 is not modelled.
- Aliasing is not modelled. `getAll` hands out the live array, which a caller could mutate.
- Promises and their asynchronous settling are not modelled. Each service call runs to
  completion and returns its resolution or rejection as a `Result`.
- `LocalStorageManager.UserStore.AddUser`, `UserService.Service.AddUser`, `UserService.AddThenGet`:
  the payload is assumed to carry no `id`. In the source the new record is `{ id, ...dto }`,
  so an `id` inside `dto` would replace the drawn one. The ad hoc store would then store and
  return that id unchecked. The service would run `add`'s duplicate check on it but resolve
  with the drawn id, which no record carries. A payload is opaque here, so this is not modelled.
- The `User` type from `./types` is not part of this model. A record is its `id` plus an
  opaque payload.
