/**
 The browser's copy of one group's messages: the loaded history pages and the socket-fed live
 buffer, the handlers that keep them current, and their merge into the list on screen.
 */
module MessageCache {
  import opened Wrappers
  import opened Keyset
  import opened MessageTable
  import opened MessagesService

  datatype Cache = Cache(live: seq<Row>, pages: seq<Page>)

  const EMPTY_CACHE := Cache([], [])

  function GroupOf(e: Event): Group {
    match e
    case Created(m) => m.group
    case Updated(m) => m.group
    case Reacted(group, _, _) => group
  }

  predicate HasId(rows: seq<Row>, id: Id) {
    exists i :: 0 <= i < |rows| && rows[i].id == id
  }

  function PatchRows(rows: seq<Row>, e: Event): seq<Row> {
    seq(|rows|, i requires 0 <= i < |rows| => Patch(rows[i], e))
  }

  function PatchPages(pages: seq<Page>, e: Event): seq<Page> {
    seq(|pages|, i requires 0 <= i < |pages| => pages[i].(data := PatchRows(pages[i].data, e)))
  }

  /** What an event of this group does to its cache. */
  function OnEvent(cache: Cache, e: Event): Cache {
    match e
    case Created(m) => if HasId(cache.live, m.id) then cache else cache.(live := cache.live + [m])
    case _ => Cache(PatchRows(cache.live, e), PatchPages(cache.pages, e))
  }

  predicate NoIdTwice(rows: seq<Row>) {
    forall i, j | 0 <= i < j < |rows| :: rows[i].id != rows[j].id
  }

  lemma PatchedTwice(rows: seq<Row>, e: Event)
    ensures PatchRows(PatchRows(rows, e), e) == PatchRows(rows, e)
  {}

  /** An event heard twice is an event heard once, and no message enters the live buffer twice. */
  lemma HeardTwiceIsHeardOnce(cache: Cache, e: Event)
    ensures OnEvent(OnEvent(cache, e), e) == OnEvent(cache, e)
    ensures NoIdTwice(cache.live) ==> NoIdTwice(OnEvent(cache, e).live)
  {
    var after := OnEvent(cache, e);
    if e.Created? {
      if !HasId(cache.live, e.message.id) {
        assert after.live[|cache.live|].id == e.message.id;
      }
    } else {
      PatchedTwice(cache.live, e);
      forall p | 0 <= p < |cache.pages| ensures OnEvent(after, e).pages[p] == after.pages[p] {
        PatchedTwice(cache.pages[p].data, e);
      }
      assert OnEvent(after, e).pages == after.pages;
    }
  }

  /** The socket's message handlers over the query cache, keyed by group. */
  class SocketProvider {
    var live: map<Group, seq<Row>>
    var history: map<Group, seq<Page>>

    ghost function View(group: Group): Cache
      reads this
    {
      Cache(if group in live then live[group] else [], if group in history then history[group] else [])
    }

    constructor ()
      ensures forall g: Group :: View(g) == EMPTY_CACHE
    {
      live, history := map[], map[];
    }

    method OnNewMessage(message: Row)
      modifies this`live
      ensures forall g: Group ::
        View(g) == if g == message.group then OnEvent(old(View(g)), Created(message)) else old(View(g))
    {
      var buffer := if message.group in live then live[message.group] else [];
      if !HasId(buffer, message.id) {
        live := live[message.group := buffer + [message]];
      }
    }

    method OnMessageUpdated(message: Row)
      modifies this
      ensures forall g: Group ::
        View(g) == if g == message.group then OnEvent(old(View(g)), Updated(message)) else old(View(g))
    {
      Apply(message.group, Updated(message));
    }

    method OnReactionUpdated(group: Group, id: Id, reactions: set<Reaction>)
      modifies this
      ensures forall g: Group ::
        View(g) == if g == group then OnEvent(old(View(g)), Reacted(group, id, reactions)) else old(View(g))
    {
      Apply(group, Reacted(group, id, reactions));
    }

    /** The two `setQueryData` calls the update handlers share. */
    method Apply(group: Group, e: Event)
      requires !e.Created?
      modifies this
      ensures forall g: Group :: View(g) == if g == group then OnEvent(old(View(g)), e) else old(View(g))
    {
      var buffer := if group in live then live[group] else [];
      live := live[group := PatchRows(buffer, e)];
      if group in history {
        history := history[group := PatchPages(history[group], e)];
      }
    }

    /** A fetched page joins the history. */
    method OnPageFetched(group: Group, page: Page)
      modifies this`history
      ensures forall g: Group ::
        View(g) == if g == group then old(View(g)).(pages := old(View(g)).pages + [page]) else old(View(g))
    {
      var loaded := if group in history then history[group] else [];
      history := history[group := loaded + [page]];
    }
  }

  // ---------- The merge ----------

  /** The last copy of `id` in a list, as a Map filled from it would hold. */
  function Last(rows: seq<Row>, id: Id): Option<Row> {
    if rows == [] then None
    else if rows[|rows| - 1].id == id then Some(rows[|rows| - 1])
    else Last(rows[..|rows| - 1], id)
  }

  function Loaded(pages: seq<Page>): seq<Row> {
    if pages == [] then [] else Loaded(pages[..|pages| - 1]) + pages[|pages| - 1].data
  }

  /** The copy the view shows: live wins over history. */
  function Shown(cache: Cache, id: Id): Option<Row> {
    Last(Loaded(cache.pages) + cache.live, id)
  }

  /** Strictly ascending, and exactly the shown copies. */
  ghost predicate IsView(messages: seq<Row>, cache: Cache) {
    && Ascending(Keys(messages))
    && (forall m | m in messages :: Shown(cache, m.id) == Some(m))
    && (forall id: Id | Shown(cache, id).Some? :: Shown(cache, id).value in messages)
  }

  /** `byId` as a Map keeps it: one entry per id, in the order ids first appeared. */
  ghost predicate IsMapOf(byId: seq<Row>, rows: seq<Row>) {
    && (forall i, j | 0 <= i < j < |byId| :: byId[i].id != byId[j].id)
    && (forall m | m in byId :: Last(rows, m.id) == Some(m))
    && (forall id: Id | Last(rows, id).Some? :: Last(rows, id).value in byId)
  }

  method Put(byId: seq<Row>, m: Row, ghost rows: seq<Row>) returns (after: seq<Row>)
    requires IsMapOf(byId, rows)
    ensures IsMapOf(after, rows + [m])
  {
    assert (rows + [m])[..|rows|] == rows;
    for i := 0 to |byId|
      invariant forall j | 0 <= j < i :: byId[j].id != m.id
    {
      if byId[i].id == m.id {
        after := byId[i := m];
        assert forall k | k in after && k.id != m.id :: k in byId;
        assert after[i] == m;
        forall id: Id | Last(rows + [m], id).Some? ensures Last(rows + [m], id).value in after {
          if id != m.id {
            assert Last(rows, id).value in byId;
            var j :| 0 <= j < |byId| && byId[j] == Last(rows, id).value;
            LastHasId(rows, id);
            assert after[j] == byId[j];
          }
        }
        return;
      }
    }
    after := byId + [m];
    assert after[|byId|] == m;
    forall id: Id | Last(rows + [m], id).Some? ensures Last(rows + [m], id).value in after {
      if id != m.id {
        assert Last(rows, id).value in byId;
      }
    }
  }

  lemma {:induction false} LastHasId(rows: seq<Row>, id: Id)
    ensures Last(rows, id).Some? ==> Last(rows, id).value.id == id && Last(rows, id).value in rows
    ensures Last(rows, id).None? ==> !HasId(rows, id)
  {
    if rows != [] && rows[|rows| - 1].id != id {
      LastHasId(rows[..|rows| - 1], id);
    }
  }

  /** The comparator sort; with all keys different its result is the only ascending order. */
  method SortByTime(rows: seq<Row>) returns (sorted: seq<Row>)
    requires forall i, j | 0 <= i < j < |rows| :: rows[i].id != rows[j].id
    ensures Ascending(Keys(sorted))
    ensures forall m :: m in sorted <==> m in rows
  {
    sorted := [];
    for i := 0 to |rows|
      invariant Ascending(Keys(sorted))
      invariant forall m :: m in sorted <==> m in rows[..i]
    {
      var k := |sorted|;
      while 0 < k && Less(KeyOf(rows[i]), KeyOf(sorted[k - 1]))
        invariant 0 <= k <= |sorted|
        invariant forall j | k <= j < |sorted| :: Less(KeyOf(rows[i]), KeyOf(sorted[j]))
      {
        k := k - 1;
      }
      assert forall j | 0 <= j < |sorted| :: sorted[j].id != rows[i].id by {
        assert forall j | 0 <= j < |sorted| :: sorted[j] in sorted;
      }
      InsertKeepsAscending(sorted, k, rows[i]);
      sorted := sorted[..k] + [rows[i]] + sorted[k..];
      assert rows[..i + 1] == rows[..i] + [rows[i]];
    }
    assert rows[..|rows|] == rows;
  }

  lemma InsertKeepsAscending(sorted: seq<Row>, k: nat, row: Row)
    requires Ascending(Keys(sorted)) && k <= |sorted|
    requires forall j | k <= j < |sorted| :: Less(KeyOf(row), KeyOf(sorted[j]))
    requires 0 < k ==> !Less(KeyOf(row), KeyOf(sorted[k - 1])) && sorted[k - 1].id != row.id
    ensures Ascending(Keys(sorted[..k] + [row] + sorted[k..]))
    ensures forall m :: m in sorted[..k] + [row] + sorted[k..] <==> m == row || m in sorted
  {
    var after := sorted[..k] + [row] + sorted[k..];
    var keys := Keys(sorted);
    if 0 < k {
      assert Less(KeyOf(sorted[k - 1]), KeyOf(row));
    }
    forall i, j | 0 <= i < j < |after| ensures Less(Keys(after)[i], Keys(after)[j]) {
      assert forall x | 0 <= x < |after| :: x < k ==> Keys(after)[x] == keys[x];
      assert forall x | 0 <= x < |after| :: x > k ==> Keys(after)[x] == keys[x - 1];
      if i < k - 1 {
        assert Less(keys[i], keys[k - 1]);
      }
    }
    assert sorted == sorted[..k] + sorted[k..];
  }

  /** `useGroupMessages`: fill a Map from the pages, then from the live buffer, then sort. */
  method MergeMessages(cache: Cache) returns (messages: seq<Row>)
    ensures IsView(messages, cache)
  {
    var byId: seq<Row> := [];
    ghost var seen: seq<Row> := [];
    for p := 0 to |cache.pages|
      invariant seen == Loaded(cache.pages[..p]) && IsMapOf(byId, seen)
    {
      var data := cache.pages[p].data;
      assert cache.pages[..p + 1][..p] == cache.pages[..p];
      for i := 0 to |data|
        invariant seen == Loaded(cache.pages[..p]) + data[..i] && IsMapOf(byId, seen)
      {
        byId := Put(byId, data[i], seen);
        seen := seen + [data[i]];
        assert data[..i + 1] == data[..i] + [data[i]];
      }
      assert data[..|data|] == data;
    }
    assert cache.pages[..|cache.pages|] == cache.pages;
    for i := 0 to |cache.live|
      invariant seen == Loaded(cache.pages) + cache.live[..i] && IsMapOf(byId, seen)
    {
      byId := Put(byId, cache.live[i], seen);
      seen := seen + [cache.live[i]];
      assert cache.live[..i + 1] == cache.live[..i] + [cache.live[i]];
    }
    assert cache.live[..|cache.live|] == cache.live;
    messages := SortByTime(byId);
  }
}
