/** A client of `Directory.Store` that strings several handlers together and
    shows what their contracts alone let a caller conclude. */
module Scenarios {
  import opened Wrappers
  import opened Cities
  import opened Directory

  /** A city that was never created, then created, edited, listed and deleted.
      Which edits go through depends on the client's handling of undefined
      properties, since addCity writes no neighbour. */
  method Walkthrough(ignoreUndefined: bool)
  {
    var store := new Store(map[], ignoreUndefined);

    // Never created: the lookup is 404, the append throws and sends nothing.
    var out := store.GetNeighbourDetail(Some("Oslo"), false);
    assert out.Reply? && out.status == NotFound;
    out := store.AddFriend(Some("Oslo"), "Bergen", false);
    assert out == NoResponse && store.docs == map[];

    // Created with a repeated friend: the listing shows exactly that record.
    out := store.AddCity("Oslo", ["Bergen", "Turku", "Bergen"], false);
    var listing := store.GetFriends();
    assert Entry("Oslo", ["Bergen", "Turku", "Bergen"], None) in listing.body.entries;
    assert |listing.body.entries| == 1;

    // Every occurrence goes, but only if the neighbour-less record can be written.
    out := store.RemoveFriend(Some("Oslo"), "Bergen", false);
    assert store.docs["Oslo"].friends == if ignoreUndefined then ["Turku"] else ["Bergen", "Turku", "Bergen"];

    // A parameter that is the empty string counts as missing.
    out := store.GetNeighbourDetail(Some(""), false);
    assert out.Reply? && out.status == BadRequest;

    // Deleted: the lookup is 404 again.
    out := store.DeleteCity("Oslo", false);
    out := store.GetNeighbourDetail(Some("Oslo"), false);
    assert out.Reply? && out.status == NotFound;
  }
}
