/**
 The total order (createdAt, id) that history, cursors and the merged view share. Timestamps are
 milliseconds; an id is a number ordered as the uuid column and its text are.
 */
module Keyset {
  import opened Wrappers

  type Id = nat

  datatype Key = Key(at: int, id: Id)

  predicate Less(a: Key, b: Key) {
    a.at < b.at || (a.at == b.at && a.id < b.id)
  }

  /** What a cursor leaves to fetch: everything, when there is none. */
  predicate Below(cursor: Option<Key>, key: Key) {
    cursor.Some? ==> Less(key, cursor.value)
  }

  /** What the page that ends in a cursor has reached: everything, when it is the last. */
  predicate Reached(cursor: Option<Key>, key: Key) {
    cursor.Some? ==> !Less(key, cursor.value)
  }

  ghost predicate Ascending(keys: seq<Key>) {
    forall i, j | 0 <= i < j < |keys| :: Less(keys[i], keys[j])
  }

  ghost predicate Descending(keys: seq<Key>) {
    forall i, j | 0 <= i < j < |keys| :: Less(keys[j], keys[i])
  }

  ghost predicate IsLeast(least: Key, keys: set<Key>) {
    least in keys && forall k | k in keys && k != least :: Less(least, k)
  }

  lemma LeastExists(keys: set<Key>)
    requires keys != {}
    ensures exists least :: IsLeast(least, keys)
    decreases |keys|
  {
    var k :| k in keys;
    if keys == {k} {
      assert IsLeast(k, keys);
    } else {
      LeastExists(keys - {k});
      var least :| IsLeast(least, keys - {k});
      var l := if Less(k, least) then k else least;
      forall x | x in keys && x != l ensures Less(l, x) {
        assert x == k || x in keys - {k};
      }
      assert IsLeast(l, keys);
    }
  }

  /** The rows of an `ORDER BY createdAt DESC, id DESC`, by key. */
  ghost function NewestFirst(keys: set<Key>): (sorted: seq<Key>)
    ensures Descending(sorted) && |sorted| == |keys|
    ensures forall k :: k in sorted <==> k in keys
    decreases |keys|
  {
    if keys == {} then []
    else
      LeastExists(keys);
      var least :| IsLeast(least, keys);
      NewestFirst(keys - {least}) + [least]
  }
}
