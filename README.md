# City directory: a Dafny model

The repository is a handful of Firebase HTTP functions over one Firestore
collection, `cities`. Each document is keyed by a city id chosen by the
client and holds a `friends` list of city ids and an optional `neighbour`
city id. The handlers list the collection (`getFriends`), upsert a city
(`addCity`), look up a neighbour (`getNeighbourDetail`), append to or filter
a city's friends (`addFriend`, `removeFriend`) and delete a city
(`deleteCity`).

The model replaces Firestore with a map from document id to record and each
handler with one atomic method call that returns what the handler sends:

- `wrappers.dfy` — module `Wrappers`: `Option`.
- `cities.dfy` — module `Cities` (pure): the record `City` (the `ICity`
  shape), the listing `Entry`, and the per-record computations:
  - `Appended`: the spread-append of addFriend.
  - `Without` / `Removed`: the filter of removeFriend.
  - `Listing`: the id-plus-fields projection of getFriends.

  Each comes with lemmas. The filter lemmas say that it drops every
  occurrence of the name and keeps the counts of all other names. They also
  say that it keeps the original order, that these two facts determine it
  uniquely, and that it is idempotent. The listing lemma says it has exactly
  one entry per record.
- `directory.dfy` — module `Directory`: the response type `Outcome` (one
  `Reply(status, body)` or `NoResponse` when the handler swallows an
  exception) and the class `Store` with field `docs: map<string, City>`. It
  also holds `AddFriendEffect` and `RemoveFriendEffect`, which specify the
  two read-modify-write handlers, with lemmas relating several calls.
- `scenarios.dfy` — module `Scenarios`: a client that chains the handlers
  and asserts what their contracts let a caller conclude.

Modelling decisions:

- **Missing parameters.** `!cityName` is JavaScript falsiness, so a query
  parameter counts as missing when it is absent *or* the empty string
  (`IsMissing`).
- **Store failures.** A backend failure, or a document id the client
  rejects, is a `storeFails` parameter of each handler that has a `try`. A
  failure never changes `docs`.
  - `addCity` still replies 200.
  - `getNeighbourDetail` replies 500.
  - `deleteCity` replies 404.
  - `addFriend` and `removeFriend` send nothing.
- **No record for the id.** `addFriend` and `removeFriend` cast missing data
  to `ICity` and then dereference `detail.friends`. The resulting `TypeError`
  is caught and only logged. So no `set` happens and no response is sent.
- **Missing `city` parameter in `addFriend`/`removeFriend`.** The handler
  sends 404 but does not return. `doc` with a missing id either throws or
  names a document with no data; in both cases the code that follows throws
  before any `set`. The model therefore gives the 404 as the only response
  and leaves `docs` unchanged, however `doc` behaves.
- **`neighbour: undefined` on write.** `addFriend` and `removeFriend` write
  back `neighbour: detail.neighbour`, which is `undefined` for a record that
  `addCity` created. Firestore rejects such a write unless the client has
  `ignoreUndefinedProperties` set, in which case the field is dropped. The
  program never changes the client's settings: index.ts:14 calls
  `admin.initializeApp()` with no arguments and no Firestore settings are
  set anywhere, so the program as written runs with
  `ignoreUndefinedProperties == false`. The model keeps the setting as the
  constant `Store.ignoreUndefinedProperties`; the `true` case is only the
  client option left open. `WriteGoesThrough` says when a read-modify-write
  reaches the store. With the program's setting, a friend can never be added
  to or removed from a city that `addCity` created.
- **`deleteCity`.** index.ts:153-154 replies 404 "City to be deleted is not
  found" for whatever the delete throws, and a delete of an id with no
  record does not throw. So deleting an unknown id replies 200, and the 404
  comes only from a failure.
- **`getNeighbourDetail` on a record without a neighbour.** index.ts:79
  sends `neighbour.neighbour`, which is undefined when the record has none:
  the reply is 200 with an undefined body (`Text(None)`). The "has no data"
  branch (lines 70-73) cannot be taken: a document that exists always has a data object.

## Model

| member | source | states |
|---|---|---|
| `Cities.Appended` | functions/src/index.ts:100-107 | the record written back has one more friend, the old friends as a prefix, `newFriend` last, and the same neighbour |
| `Cities.Without` | functions/src/index.ts:130 | the filtered list does not contain the removed name and is no longer than the original |
| `Cities.Removed` | functions/src/index.ts:129-136 | the record written back lacks the removed name, keeps the count of every other friend, has no more friends than before, and keeps its neighbour |
| `Cities.WithoutCounts` | functions/src/index.ts:130 | the filter drops every occurrence of the name and keeps the count of every other name (multiset of the result = multiset of the input with the name's count set to 0) |
| `Cities.WithoutIsSubsequence` | functions/src/index.ts:130 | the remaining names keep their relative order |
| `Cities.WithoutUnique` | functions/src/index.ts:130 | any order-preserving selection of the list that has exactly those counts is the filter's result, so order and counts together characterise it |
| `Cities.WithoutAbsent` | functions/src/index.ts:130 | removing a name not in the list returns the list unchanged |
| `Cities.WithoutIdempotent` | functions/src/index.ts:130 | filtering twice gives the same list as filtering once |
| `Cities.WithoutConcat` | functions/src/index.ts:130 | the filter distributes over concatenation |
| `Cities.WithoutAppended` | functions/src/index.ts:100-136 | removing a name after appending it gives the same record as removing it from the original |
| `Cities.AppendThenRemove` | functions/src/index.ts:100-136 | appending a name that was not a friend and then removing it restores the record exactly |
| `Cities.Listing` | functions/src/index.ts:26-29 | an entry is listed exactly when its id holds a record with those friends and that neighbour |
| `Cities.ListingSize` | functions/src/index.ts:26-29 | the listing has exactly one entry per stored record |
| `Cities.ListingAfterWrite` | functions/src/index.ts:26-41 | after a write at an id the listing shows the new record for it and the same entries as before for every other id |
| `Cities.ListingAfterDelete` | functions/src/index.ts:26-151 | after a delete the listing is the old one without that id's entry |
| `Directory.CityNotFound` | functions/src/index.ts:65 | the 404 message is "City '", then the requested name, then "' not found", so the name can be read back from it |
| `Directory.IsMissing` | functions/src/index.ts:56 | `!cityName` for a query parameter (also lines 90 and 119): it holds exactly when the parameter is absent or has no characters, the empty string being the only falsy string |
| `Directory.WriteGoesThrough` | functions/src/index.ts:97-108 | the `set` of addFriend and removeFriend is reached only when the store answers and a record exists; with undefined properties rejected, exactly when in addition the record has a neighbour |
| `Directory.AddFriendEffect` | functions/src/index.ts:95-112 | success (200 "New friend successfully added!") exactly when the store answers, a record exists and its neighbour can be written back; then the friends grow by the new name at the end, the neighbour is kept and no other record changes; otherwise no response and the collection is unchanged |
| `Directory.RemoveFriendEffect` | functions/src/index.ts:124-141 | success (200 "Friend successfully removed!") under the same condition; then the friends are the filtered list, without the name and no longer, the neighbour is kept and no other record changes; otherwise no response and the collection is unchanged |
| `Directory.RemoveFriendIdempotent` | functions/src/index.ts:126-137 | once a removal has gone through, repeating it (successfully or not) leaves the collection unchanged |
| `Directory.RemoveAbsentFriend` | functions/src/index.ts:129-137 | removing a name that is not a friend leaves the collection unchanged |
| `Directory.AddThenRemoveFriend` | functions/src/index.ts:97-137 | adding a new friend and then removing it restores the collection |
| `Directory.Store.constructor` | functions/src/index.ts:14 | the store starts with the given collection and client setting |
| `Directory.Store.GetFriends` | functions/src/index.ts:24-32 | replies 200 with one entry per record, each the id with that record's fields and nothing else, and does not modify the store |
| `Directory.Store.AddCity` | functions/src/index.ts:34-47 | on success the record at the id becomes exactly the given friends with no neighbour, discarding any earlier neighbour, and every other record stays; on failure nothing changes; the reply is 200 "City successfully added!" either way |
| `Directory.Store.GetNeighbourDetail` | functions/src/index.ts:54-84 | 400 for a missing or empty `city`, 500 on a store failure, 404 "City '…' not found" for an id without a record, otherwise 200 with the record's neighbour; no branch modifies the store |
| `Directory.Store.AddFriend` | functions/src/index.ts:86-113 | a missing or empty `city` gives 404 "City is not defined" and an unchanged store; otherwise the reply and the new store are those of `AddFriendEffect` |
| `Directory.Store.RemoveFriend` | functions/src/index.ts:115-142 | a missing or empty `city` gives 404 "City is not defined" and an unchanged store; otherwise the reply and the new store are those of `RemoveFriendEffect` |
| `Directory.Store.DeleteCity` | functions/src/index.ts:144-156 | on success the id is absent afterwards, every other record stays, and the reply is 200; a failed delete replies 404 "City to be deleted is not found" and changes nothing |

## Left out

- The Firebase runtime (`onRequest`, `admin.initializeApp`, the Firestore client), HTTP transport and JSON encoding: the collection is a map and the response an `Outcome` value.
- Logging (`logger.info`, `console.error`) and the `helloWorld` handler (lines 19-22): they do not touch the collection.
- Concurrency: each handler is one atomic call, so the lost update between two concurrent read-modify-writes on the same city cannot be expressed.
- Directory.Store.GetFriends: returns a set of entries, not the sequence in the store's enumeration order, because the store promises no order; a store failure during the listing (which has no `try`) is not modelled.
- Records without a `friends` field, and request values that are not strings (an undefined `newFriend`, `friends` or `cityName`, or a query parameter given several times): every id, name and friends list is a string or a list of strings here.
- Document ids are single path segments with no "/": `collection('cities').doc(id)` reads an id such as `"a/b/c"` as a path to a nested document, which getNeighbourDetail would find but getFriends (line 25) would never list; the model keeps every id, nested or not, as a flat key of `docs`, and its failure flag covers only ids the client rejects.
- An invalid `chosenCity` in `deleteCity`: the document reference is built outside the `try` (line 147), so a throw there is not caught by the handler; the model takes `chosenCity` to be a valid id.
- A store failure is one flag per call: the model does not distinguish a failed read from a failed write, since both leave the collection unchanged and lead to the same response.
