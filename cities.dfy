/** The documents of the `cities` collection and the pure computations the
    handlers perform on them: the spread-append of addFriend, the filter of
    removeFriend and the id-plus-fields projection of getFriends. */
module Cities {
  import opened Wrappers

  /** One document: the `ICity` shape. A record written by addCity carries no
      `neighbour` field, hence the option. */
  datatype City = City(friends: seq<string>, neighbour: Option<string>)

  /** One element of the getFriends listing: the document id spread together
      with the document's fields. */
  datatype Entry = Entry(id: string, friends: seq<string>, neighbour: Option<string>)

  // ---------------------------------------------------------------------------
  // addFriend: `[...detail.friends, newFriend]`
  // ---------------------------------------------------------------------------

  /** The record addFriend writes back: the old friends with `newFriend` at the
      end, the neighbour carried over. */
  function Appended(c: City, newFriend: string): (r: City)
    ensures |r.friends| == |c.friends| + 1
    ensures r.friends[..|c.friends|] == c.friends
    ensures r.friends[|c.friends|] == newFriend
    ensures r.neighbour == c.neighbour
  {
    City(c.friends + [newFriend], c.neighbour)
  }

  // ---------------------------------------------------------------------------
  // removeFriend: `detail.friends.filter((friend) => friend !== newFriend)`
  // ---------------------------------------------------------------------------

  /** The friends that are not `t`, in their original order. */
  function Without(s: seq<string>, t: string): (r: seq<string>)
    ensures t !in r
    ensures |r| <= |s|
  {
    if s == [] then []
    else if s[0] == t then Without(s[1..], t)
    else [s[0]] + Without(s[1..], t)
  }

  /** The record removeFriend writes back. */
  function Removed(c: City, target: string): (r: City)
    ensures target !in r.friends
    ensures multiset(r.friends) == multiset(c.friends)[target := 0]
    ensures |r.friends| <= |c.friends|
    ensures r.neighbour == c.neighbour
  {
    WithoutCounts(c.friends, target);
    City(Without(c.friends, target), c.neighbour)
  }

  /** `r` is `s` with some elements dropped and the rest kept in order. */
  ghost predicate IsSubsequence(r: seq<string>, s: seq<string>)
    decreases |s|
  {
    if r == [] then true
    else if s == [] then false
    else (r[0] == s[0] && IsSubsequence(r[1..], s[1..])) || IsSubsequence(r, s[1..])
  }

  /** Every occurrence of `t` is dropped and every other name keeps its count. */
  lemma {:induction false} WithoutCounts(s: seq<string>, t: string)
    ensures multiset(Without(s, t)) == multiset(s)[t := 0]
  {
    if s != [] {
      WithoutCounts(s[1..], t);
      assert s == [s[0]] + s[1..];
      assert multiset(s) == multiset{s[0]} + multiset(s[1..]);
      if s[0] != t {
        assert multiset(Without(s, t)) == multiset{s[0]} + multiset(Without(s[1..], t));
      }
    }
  }

  /** The names that remain keep their relative order. */
  lemma {:induction false} WithoutIsSubsequence(s: seq<string>, t: string)
    ensures IsSubsequence(Without(s, t), s)
  {
    if s != [] {
      WithoutIsSubsequence(s[1..], t);
      var r := Without(s, t);
      if s[0] != t {
        assert r[0] == s[0] && r[1..] == Without(s[1..], t);
      }
    }
  }

  /** A subsequence holds no name more often than the whole. */
  lemma {:induction false} SubsequenceCounts(r: seq<string>, s: seq<string>)
    requires IsSubsequence(r, s)
    ensures multiset(r) <= multiset(s)
    decreases |s|
  {
    if r != [] {
      assert s == [s[0]] + s[1..];
      assert multiset(s) == multiset{s[0]} + multiset(s[1..]);
      if r[0] == s[0] && IsSubsequence(r[1..], s[1..]) {
        SubsequenceCounts(r[1..], s[1..]);
        assert r == [r[0]] + r[1..];
        assert multiset(r) == multiset{r[0]} + multiset(r[1..]);
      } else {
        SubsequenceCounts(r, s[1..]);
      }
    }
  }

  /** Order preservation and the counts together pin the filter down: any
      order-preserving selection of `s` that drops exactly the occurrences of
      `t` is `Without(s, t)`. */
  lemma {:induction false} WithoutUnique(r: seq<string>, s: seq<string>, t: string)
    requires IsSubsequence(r, s)
    requires multiset(r) == multiset(s)[t := 0]
    ensures r == Without(s, t)
    decreases |s|
  {
    if s == [] {
      assert r == [];
    } else {
      var a := s[0];
      assert s == [a] + s[1..];
      assert multiset(s) == multiset{a} + multiset(s[1..]);
      if a == t {
        assert multiset(s)[t := 0] == multiset(s[1..])[t := 0];
        assert r != [] ==> r[0] in multiset(r);
        WithoutUnique(r, s[1..], t);
      } else if r != [] && r[0] == a && IsSubsequence(r[1..], s[1..]) {
        assert r == [a] + r[1..];
        assert multiset(r) == multiset{a} + multiset(r[1..]);
        forall x ensures multiset(r[1..])[x] == multiset(s[1..])[t := 0][x] {
          assert multiset(r)[x] == multiset{a}[x] + multiset(r[1..])[x];
          assert multiset(s)[x] == multiset{a}[x] + multiset(s[1..])[x];
        }
        assert multiset(r[1..]) == multiset(s[1..])[t := 0];
        WithoutUnique(r[1..], s[1..], t);
      } else {
        assert IsSubsequence(r, s[1..]);
        assert multiset(r)[a] == multiset(s[1..])[a] + 1;
        SubsequenceCounts(r, s[1..]);
        assert false;
      }
    }
  }

  /** Removing a name that is not there changes nothing. */
  lemma {:induction false} WithoutAbsent(s: seq<string>, t: string)
    requires t !in s
    ensures Without(s, t) == s
  {
    if s != [] {
      WithoutAbsent(s[1..], t);
    }
  }

  /** removeFriend's list transformation is idempotent. */
  lemma {:induction false} WithoutIdempotent(s: seq<string>, t: string)
    ensures Without(Without(s, t), t) == Without(s, t)
  {
    WithoutAbsent(Without(s, t), t);
  }

  /** The filter distributes over concatenation. */
  lemma {:induction false} WithoutConcat(a: seq<string>, b: seq<string>, t: string)
    ensures Without(a + b, t) == Without(a, t) + Without(b, t)
  {
    if a != [] {
      assert (a + b)[1..] == a[1..] + b;
      WithoutConcat(a[1..], b, t);
    } else {
      assert a + b == b;
    }
  }

  /** Removing a name just added undoes the addition, and more: it also drops
      the earlier occurrences of that name. */
  lemma WithoutAppended(c: City, newFriend: string)
    ensures Removed(Appended(c, newFriend), newFriend) == Removed(c, newFriend)
  {
    WithoutConcat(c.friends, [newFriend], newFriend);
    assert Without([newFriend], newFriend) == [];
  }

  /** When the name was not a friend yet, removing it after adding it restores
      the record exactly. */
  lemma AppendThenRemove(c: City, newFriend: string)
    requires newFriend !in c.friends
    ensures Removed(Appended(c, newFriend), newFriend) == c
  {
    WithoutAppended(c, newFriend);
    WithoutAbsent(c.friends, newFriend);
  }

  // ---------------------------------------------------------------------------
  // getFriends: `snapshots.docs.map((city) => ({ id: city.id, ...city.data() }))`
  // ---------------------------------------------------------------------------

  function EntryOf(id: string, c: City): Entry
  {
    Entry(id, c.friends, c.neighbour)
  }

  /** The listing of a collection, without an order: an entry is listed exactly
      when its id holds a record with its fields. */
  function Listing(docs: map<string, City>): (r: set<Entry>)
    ensures forall e :: e in r <==> e.id in docs && docs[e.id] == City(e.friends, e.neighbour)
  {
    set id | id in docs :: EntryOf(id, docs[id])
  }

  /** Exactly one entry per stored record. */
  lemma {:induction false} ListingSize(docs: map<string, City>)
    ensures |Listing(docs)| == |docs|
    decreases |docs|
  {
    if docs != map[] {
      var k :| k in docs;
      var rest := docs - {k};
      assert rest.Keys == docs.Keys - {k};
      ListingSize(rest);
      assert Listing(docs) == Listing(rest) + {EntryOf(k, docs[k])};
      assert EntryOf(k, docs[k]) !in Listing(rest);
    }
  }

  /** After a write at `id` the listing shows the new record there and the
      same entries as before everywhere else. */
  lemma ListingAfterWrite(docs: map<string, City>, id: string, c: City)
    ensures Listing(docs[id := c]) == (set e | e in Listing(docs) && e.id != id) + {EntryOf(id, c)}
  {
  }

  /** After a delete at `id` the listing is the old one without `id`'s entry. */
  lemma ListingAfterDelete(docs: map<string, City>, id: string)
    ensures Listing(docs - {id}) == set e | e in Listing(docs) && e.id != id
  {
  }
}
