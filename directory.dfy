/** The HTTP handlers of the city directory, with Firestore's `cities`
    collection held as a map from document id to record. Each handler is one
    atomic call on a `Store`; what it sends back is an `Outcome`. */
module Directory {
  import opened Wrappers
  import opened Cities

  const OK: nat := 200
  const BadRequest: nat := 400
  const NotFound: nat := 404
  const InternalServerError: nat := 500

  const CityAdded := "City successfully added!"
  const FriendAdded := "New friend successfully added!"
  const FriendRemoved := "Friend successfully removed!"
  const CityDeleted := "City successfully deleted"
  const CityToDeleteNotFound := "City to be deleted is not found"
  const MissingCityParameter := "Missing 'city' query parameter"
  const CityNotDefined := "City is not defined"
  const InternalError := "Internal Server Error"

  /** The 404 message of getNeighbourDetail, with the requested name inside. */
  function CityNotFound(name: string): (r: string)
    ensures |r| == |name| + 17
    ensures r[..6] == "City '" && r[6..|r| - 11] == name && r[|r| - 11..] == "' not found"
  {
    "City '" + name + "' not found"
  }

  /** A response body: `{message}`, `{error}`, a bare (possibly undefined)
      string, or the listing of the collection. */
  datatype Payload =
    | Message(text: string)
    | Failure(error: string)
    | Text(value: Option<string>)
    | Listed(entries: set<Entry>)

  /** What a handler sends: one response, or none at all when it swallows an
      exception after logging it. */
  datatype Outcome = Reply(status: nat, body: Payload) | NoResponse

  /** The response of a read-modify-write handler together with the collection
      it leaves behind. */
  datatype Effect = Effect(out: Outcome, docs: map<string, City>)

  /** `!cityName` for a query parameter: absent, or the empty string. */
  predicate IsMissing(q: Option<string>)
    ensures IsMissing(q) <==> !(q.Some? && |q.value| > 0)
  {
    q.None? || q.value == ""
  }

  /** Whether the `set` of a read-modify-write on `id` goes through: the store
      answers, the read found a record (otherwise `detail.friends` throws on
      undefined data), and the written `neighbour` is not `undefined` unless the
      client is told to ignore undefined properties. */
  predicate WriteGoesThrough(docs: map<string, City>, id: string, storeFails: bool, ignoreUndefined: bool)
    ensures WriteGoesThrough(docs, id, storeFails, ignoreUndefined) ==> !storeFails && id in docs
    ensures !ignoreUndefined ==>
              (WriteGoesThrough(docs, id, storeFails, ignoreUndefined) <==>
                 !storeFails && id in docs && docs[id].neighbour.Some?)
  {
    !storeFails && id in docs && (docs[id].neighbour.Some? || ignoreUndefined)
  }

  /** addFriend for a given city id: on success the record's friends grow by
      `newFriend` at the end and nothing else in the collection changes; on any
      thrown error (no record, store failure, rejected write) the collection is
      untouched and no response is sent. */
  function AddFriendEffect(docs: map<string, City>, id: string, newFriend: string,
                           storeFails: bool, ignoreUndefined: bool): (e: Effect)
    ensures e.out == NoResponse || e.out == Reply(OK, Message(FriendAdded))
    ensures e.out.Reply? <==> WriteGoesThrough(docs, id, storeFails, ignoreUndefined)
    ensures e.out.NoResponse? ==> e.docs == docs
    ensures e.out.Reply? ==>
      && e.docs.Keys == docs.Keys
      && (forall k :: k in docs && k != id ==> e.docs[k] == docs[k])
      && |e.docs[id].friends| == |docs[id].friends| + 1
      && e.docs[id].friends[..|docs[id].friends|] == docs[id].friends
      && e.docs[id].friends[|docs[id].friends|] == newFriend
      && e.docs[id].neighbour == docs[id].neighbour
  {
    if WriteGoesThrough(docs, id, storeFails, ignoreUndefined) then
      Effect(Reply(OK, Message(FriendAdded)), docs[id := Appended(docs[id], newFriend)])
    else
      Effect(NoResponse, docs)
  }

  /** removeFriend for a given city id: on success every occurrence of `target`
      leaves the record's friends, the others keep their order, and nothing else
      in the collection changes; on any thrown error the collection is untouched
      and no response is sent. */
  function RemoveFriendEffect(docs: map<string, City>, id: string, target: string,
                              storeFails: bool, ignoreUndefined: bool): (e: Effect)
    ensures e.out == NoResponse || e.out == Reply(OK, Message(FriendRemoved))
    ensures e.out.Reply? <==> WriteGoesThrough(docs, id, storeFails, ignoreUndefined)
    ensures e.out.NoResponse? ==> e.docs == docs
    ensures e.out.Reply? ==>
      && e.docs.Keys == docs.Keys
      && (forall k :: k in docs && k != id ==> e.docs[k] == docs[k])
      && e.docs[id].friends == Without(docs[id].friends, target)
      && target !in e.docs[id].friends
      && |e.docs[id].friends| <= |docs[id].friends|
      && e.docs[id].neighbour == docs[id].neighbour
  {
    if WriteGoesThrough(docs, id, storeFails, ignoreUndefined) then
      Effect(Reply(OK, Message(FriendRemoved)), docs[id := Removed(docs[id], target)])
    else
      Effect(NoResponse, docs)
  }

  /** Once a removal has gone through, repeating it leaves the collection as
      it is, whatever happens to the repeated call. */
  lemma RemoveFriendIdempotent(docs: map<string, City>, id: string, target: string,
                               storeFails: bool, ignoreUndefined: bool)
    ensures var once := RemoveFriendEffect(docs, id, target, false, ignoreUndefined).docs;
            RemoveFriendEffect(once, id, target, storeFails, ignoreUndefined).docs == once
  {
    var once := RemoveFriendEffect(docs, id, target, false, ignoreUndefined).docs;
    if WriteGoesThrough(docs, id, false, ignoreUndefined) {
      WithoutIdempotent(docs[id].friends, target);
      assert once[id] == Removed(once[id], target);
    }
  }

  /** Removing a name that is not a friend rewrites the record unchanged. */
  lemma RemoveAbsentFriend(docs: map<string, City>, id: string, target: string,
                           storeFails: bool, ignoreUndefined: bool)
    requires id in docs && target !in docs[id].friends
    ensures RemoveFriendEffect(docs, id, target, storeFails, ignoreUndefined).docs == docs
  {
    WithoutAbsent(docs[id].friends, target);
    assert Removed(docs[id], target) == docs[id];
  }

  /** Adding a name that was not a friend and then removing it restores the
      collection. */
  lemma AddThenRemoveFriend(docs: map<string, City>, id: string, newFriend: string, ignoreUndefined: bool)
    requires id in docs && newFriend !in docs[id].friends
    ensures var added := AddFriendEffect(docs, id, newFriend, false, ignoreUndefined).docs;
            RemoveFriendEffect(added, id, newFriend, false, ignoreUndefined).docs == docs
  {
    if WriteGoesThrough(docs, id, false, ignoreUndefined) {
      AppendThenRemove(docs[id], newFriend);
      assert docs[id := docs[id]] == docs;
    }
  }

  /** The `cities` collection. `ignoreUndefinedProperties` is the Firestore
      client setting that decides whether a write of `neighbour: undefined` is
      rejected (false, the default) or drops the field (true). The program
      calls `admin.initializeApp()` without arguments and sets no Firestore
      settings, so as written it runs with false; true is the client option
      left open. */
  class Store {
    var docs: map<string, City>
    const ignoreUndefinedProperties: bool

    constructor (initial: map<string, City>, ignoreUndefined: bool)
      ensures docs == initial && ignoreUndefinedProperties == ignoreUndefined
    {
      docs := initial;
      ignoreUndefinedProperties := ignoreUndefined;
    }

    /** getFriends: every document, as its id with its fields, one entry per
        id; the collection is only read. */
    method GetFriends() returns (out: Outcome)
      ensures out.Reply? && out.status == OK && out.body.Listed?
      ensures forall e :: e in out.body.entries <==>
                e.id in docs && docs[e.id] == City(e.friends, e.neighbour)
      ensures |out.body.entries| == |docs|
    {
      var cities := Listing(docs);
      ListingSize(docs);
      out := Reply(OK, Listed(cities));
    }

    /** addCity: the record at `cityName` becomes exactly the given friends
        with no neighbour, whatever was there before; every other record stays.
        A failure of the store (or a rejected id) is logged and leaves the
        collection untouched; the reply is 200 either way. */
    method AddCity(cityName: string, friends: seq<string>, storeFails: bool) returns (out: Outcome)
      modifies this
      ensures out == Reply(OK, Message(CityAdded))
      ensures storeFails ==> docs == old(docs)
      ensures !storeFails ==> docs == old(docs)[cityName := City(friends, None)]
    {
      var detail := City(friends, None);
      if !storeFails {
        docs := docs[cityName := detail];
      }
      out := Reply(OK, Message(CityAdded));
    }

    /** getNeighbourDetail: 400 for a missing parameter, 500 when the store
        fails, 404 for an id without a record, and otherwise 200 with the
        record's neighbour (undefined for a record that has none). The
        collection is only read. */
    method GetNeighbourDetail(city: Option<string>, storeFails: bool) returns (out: Outcome)
      ensures IsMissing(city) ==> out == Reply(BadRequest, Failure(MissingCityParameter))
      ensures !IsMissing(city) && storeFails ==> out == Reply(InternalServerError, Failure(InternalError))
      ensures !IsMissing(city) && !storeFails && city.value !in docs ==>
                out == Reply(NotFound, Failure(CityNotFound(city.value)))
      ensures !IsMissing(city) && !storeFails && city.value in docs ==>
                out == Reply(OK, Text(docs[city.value].neighbour))
    {
      if IsMissing(city) {
        return Reply(BadRequest, Failure(MissingCityParameter));
      }
      var cityName := city.value;
      if storeFails {
        return Reply(InternalServerError, Failure(InternalError));
      }
      if cityName !in docs {
        return Reply(NotFound, Failure(CityNotFound(cityName)));
      }
      var data := docs[cityName];
      out := Reply(OK, Text(data.neighbour));
    }

    /** addFriend: a missing parameter gets 404 and nothing is written (the
        handler goes on, but whatever `doc` does with the missing id, no record
        is read, so the append throws and is swallowed). Otherwise the effect is
        `AddFriendEffect`. */
    method AddFriend(city: Option<string>, newFriend: string, storeFails: bool) returns (out: Outcome)
      modifies this
      ensures IsMissing(city) ==> out == Reply(NotFound, Failure(CityNotDefined)) && docs == old(docs)
      ensures !IsMissing(city) ==>
                Effect(out, docs) == AddFriendEffect(old(docs), city.value, newFriend, storeFails, ignoreUndefinedProperties)
    {
      if IsMissing(city) {
        return Reply(NotFound, Failure(CityNotDefined));
      }
      var cityName := city.value;
      out := NoResponse;
      if storeFails || cityName !in docs {
        return;
      }
      var detail := docs[cityName];
      var friends := detail.friends + [newFriend];
      var final := City(friends, detail.neighbour);
      if final.neighbour.None? && !ignoreUndefinedProperties {
        return;
      }
      docs := docs[cityName := final];
      out := Reply(OK, Message(FriendAdded));
    }

    /** removeFriend: like addFriend, with every occurrence of `newFriend`
        filtered out of the record's friends instead of one appended. */
    method RemoveFriend(city: Option<string>, newFriend: string, storeFails: bool) returns (out: Outcome)
      modifies this
      ensures IsMissing(city) ==> out == Reply(NotFound, Failure(CityNotDefined)) && docs == old(docs)
      ensures !IsMissing(city) ==>
                Effect(out, docs) == RemoveFriendEffect(old(docs), city.value, newFriend, storeFails, ignoreUndefinedProperties)
    {
      if IsMissing(city) {
        return Reply(NotFound, Failure(CityNotDefined));
      }
      var cityName := city.value;
      out := NoResponse;
      if storeFails || cityName !in docs {
        return;
      }
      var detail := docs[cityName];
      var friends := Without(detail.friends, newFriend);
      var final := City(friends, detail.neighbour);
      if final.neighbour.None? && !ignoreUndefinedProperties {
        return;
      }
      docs := docs[cityName := final];
      out := Reply(OK, Message(FriendRemoved));
    }

    /** deleteCity: `chosenCity` is absent afterwards and every other record
        stays; deleting an id without a record succeeds too. A failed delete
        leaves the collection untouched and replies 404. */
    method DeleteCity(chosenCity: string, storeFails: bool) returns (out: Outcome)
      modifies this
      ensures storeFails ==> out == Reply(NotFound, Message(CityToDeleteNotFound)) && docs == old(docs)
      ensures !storeFails ==> out == Reply(OK, Message(CityDeleted)) && docs == old(docs) - {chosenCity}
    {
      if storeFails {
        return Reply(NotFound, Message(CityToDeleteNotFound));
      }
      docs := docs - {chosenCity};
      out := Reply(OK, Message(CityDeleted));
    }
  }
}
