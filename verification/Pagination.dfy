/**
 A client walks `findPage` by `nextCursor` to the end of the history while other requests insert,
 edit and delete between its fetches, and may delete the group.
 */
module Pagination {
  import opened Wrappers
  import opened Keyset
  import opened MessageTable
  import opened MessagesService

  /** The pages of one walk; `between[i]` is what others do after fetch `i`. */
  ghost function Walk(s: Server, group: Group, cursor: Option<Key>, limit: nat,
                      between: seq<seq<Op>>): (pages: seq<Page>)
    requires Faithful(s)
    ensures pages != []
    decreases |between|
  {
    var page := FindPage(Table(s), group, cursor, limit);
    if page.nextCursor.None? || between == [] then [page]
    else
      RunKeepsFaithful(s, between[0]);
      [page] + Walk(MessageTable.Run(s, between[0]), group, page.nextCursor, limit, between[1..])
  }

  /** The last fetch of a walk: the server that answers it, and the cursor it presents. */
  ghost function LastFetch(s: Server, group: Group, cursor: Option<Key>, limit: nat,
                           between: seq<seq<Op>>): (Server, Option<Key>)
    requires Faithful(s)
    decreases |between|
  {
    var page := FindPage(Table(s), group, cursor, limit);
    if page.nextCursor.None? || between == [] then (s, cursor)
    else
      RunKeepsFaithful(s, between[0]);
      LastFetch(MessageTable.Run(s, between[0]), group, page.nextCursor, limit, between[1..])
  }

  ghost predicate Finished(pages: seq<Page>)
    requires pages != []
  {
    pages[|pages| - 1].nextCursor.None?
  }

  function Collected(pages: seq<Page>): seq<Row> {
    if pages == [] then [] else pages[0].data + Collected(pages[1..])
  }

  // ---------- What other requests may do to the rows below a cursor ----------

  lemma {:induction false} GoneStaysGone(s: Server, ops: seq<Op>)
    ensures s.gone <= MessageTable.Run(s, ops).gone
    decreases |ops|
  {
    if ops != [] {
      GoneStaysGone(Apply(s, ops[0]), ops[1..]);
    }
  }

  /** While its group stands a row stays in the table, with its key. */
  lemma RunKeepsRows(s: Server, ops: seq<Op>, id: Id)
    requires Faithful(s) && id in Table(s)
    ensures var after := MessageTable.Run(s, ops);
      s.rows[id].group !in after.gone ==>
        && id in Table(after) && KeyOf(after.rows[id]) == KeyOf(s.rows[id]) && after.rows[id].group == s.rows[id].group
  {
    RunKeepsIdentity(s, ops, id);
  }

  /** No creation of `ops` lands among the rows the cursor still selects. */
  predicate Newer(ops: seq<Op>, group: Group, cursor: Option<Key>) {
    forall op | op in ops && op.Create? && op.group == group ::
      cursor.Some? && !Less(Key(op.at, op.id), cursor.value)
  }

  lemma WantedIs(s: Server, group: Group, cursor: Option<Key>, k: Key)
    requires Faithful(s)
    ensures k in WantedKeys(Table(s), group, cursor) <==>
      && group !in s.gone && k.id in s.rows && s.rows[k.id].group == group && KeyOf(s.rows[k.id]) == k
      && Below(cursor, k)
  {
    WantedKeyNamesItsRow(Table(s), group, cursor, k);
  }

  lemma ApplyKeepsKeys(s: Server, op: Op, k: Key)
    requires Faithful(s)
    ensures var after := Apply(s, op);
      k.id in after.rows && !(op.Create? && op.id == k.id) ==>
        k.id in s.rows && KeyOf(after.rows[k.id]) == KeyOf(s.rows[k.id]) && after.rows[k.id].group == s.rows[k.id].group
    ensures k.id in s.rows ==> k.id in Apply(s, op).rows
  {}

  /** Newer creations leave the wanted rows as they are, and the deletion of the group takes them all. */
  lemma ApplyKeepsWanted(s: Server, op: Op, group: Group, cursor: Option<Key>)
    requires Faithful(s)
    requires op.Create? && op.group == group ==> cursor.Some? && !Less(Key(op.at, op.id), cursor.value)
    ensures var after := Apply(s, op);
      WantedKeys(Table(after), group, cursor) == if group in after.gone then {} else WantedKeys(Table(s), group, cursor)
  {
    var after := Apply(s, op);
    ApplyKeepsFaithful(s, op);
    forall k: Key ensures k in WantedKeys(Table(after), group, cursor) <==>
      group !in after.gone && k in WantedKeys(Table(s), group, cursor)
    {
      WantedIs(s, group, cursor, k);
      WantedIs(after, group, cursor, k);
      ApplyKeepsKeys(s, op, k);
    }
  }

  lemma {:induction false} RunKeepsWanted(s: Server, ops: seq<Op>, group: Group, cursor: Option<Key>)
    requires Faithful(s) && Newer(ops, group, cursor)
    ensures var after := MessageTable.Run(s, ops);
      WantedKeys(Table(after), group, cursor) == if group in after.gone then {} else WantedKeys(Table(s), group, cursor)
    decreases |ops|
  {
    if ops != [] {
      ApplyKeepsFaithful(s, ops[0]);
      ApplyKeepsWanted(s, ops[0], group, cursor);
      RunKeepsWanted(Apply(s, ops[0]), ops[1..], group, cursor);
      GoneStaysGone(Apply(s, ops[0]), ops[1..]);
    } else {
      NothingWantedWhenGone(s, group, cursor);
    }
  }

  lemma NothingWantedWhenGone(s: Server, group: Group, cursor: Option<Key>)
    ensures group in s.gone ==> WantedKeys(Table(s), group, cursor) == {}
  {}

  // ---------- Order ----------

  lemma PagesInTurn(page: Page, rest: seq<Page>)
    requires rest != []
    ensures Finished([page] + rest) <==> Finished(rest)
    ensures Collected([page] + rest) == page.data + Collected(rest)
  {
    assert ([page] + rest)[|rest|] == rest[|rest| - 1];
    assert ([page] + rest)[1..] == rest;
  }

  /** The last fetch of a walk. */
  lemma WalkStops(s: Server, group: Group, cursor: Option<Key>, limit: nat, between: seq<seq<Op>>)
    requires Faithful(s) && (FindPage(Table(s), group, cursor, limit).nextCursor.None? || between == [])
    ensures var page := FindPage(Table(s), group, cursor, limit);
      var pages := Walk(s, group, cursor, limit, between);
      pages == [page] && Collected(pages) == page.data && (Finished(pages) <==> page.nextCursor.None?)
  {
    var page := FindPage(Table(s), group, cursor, limit);
    assert Collected([page]) == page.data + Collected([]);
  }

  /** One fetch, then the rest of the walk. */
  lemma WalkGoesOn(s: Server, group: Group, cursor: Option<Key>, limit: nat, between: seq<seq<Op>>)
    requires Faithful(s) && FindPage(Table(s), group, cursor, limit).nextCursor.Some? && between != []
    ensures var page := FindPage(Table(s), group, cursor, limit);
      var next := MessageTable.Run(s, between[0]);
      var pages := Walk(s, group, cursor, limit, between);
      && Faithful(next)
      && var rest := Walk(next, group, page.nextCursor, limit, between[1..]);
         && |pages| == 1 + |rest| && Collected(pages) == page.data + Collected(rest)
         && (Finished(pages) <==> Finished(rest))
  {
    RunKeepsFaithful(s, between[0]);
    var page := FindPage(Table(s), group, cursor, limit);
    PagesInTurn(page, Walk(MessageTable.Run(s, between[0]), group, page.nextCursor, limit, between[1..]));
  }

  lemma PageIsBelow(rows: map<Id, Row>, group: Group, cursor: Key, limit: nat)
    requires 1 <= limit && forall id | id in rows :: rows[id].id == id
    ensures var page := FindPage(rows, group, Some(cursor), limit);
      && (forall r | r in page.data :: Less(KeyOf(r), cursor))
      && (page.nextCursor.Some? ==> Less(page.nextCursor.value, cursor))
  {
    PageIsExact(rows, group, Some(cursor), limit);
    PageIsOrdered(rows, group, Some(cursor), limit);
    var page := FindPage(rows, group, Some(cursor), limit);
    if page.nextCursor.Some? {
      assert page.data[limit - 1] in page.data;
    }
  }

  lemma {:induction false} WalkStaysBelow(s: Server, group: Group, cursor: Key, limit: nat, between: seq<seq<Op>>)
    requires Faithful(s) && 1 <= limit
    ensures forall r | r in Collected(Walk(s, group, Some(cursor), limit, between)) :: Less(KeyOf(r), cursor)
    decreases |between|
  {
    var page := FindPage(Table(s), group, Some(cursor), limit);
    PageIsBelow(Table(s), group, cursor, limit);
    if page.nextCursor.None? || between == [] {
      WalkStops(s, group, Some(cursor), limit, between);
    } else {
      WalkGoesOn(s, group, Some(cursor), limit, between);
      WalkStaysBelow(MessageTable.Run(s, between[0]), group, page.nextCursor.value, limit, between[1..]);
    }
  }

  lemma DescendingConcat(a: seq<Row>, b: seq<Row>, bound: Key)
    requires Descending(Keys(a)) && Descending(Keys(b))
    requires forall r | r in a :: !Less(KeyOf(r), bound)
    requires forall r | r in b :: Less(KeyOf(r), bound)
    ensures Descending(Keys(a + b))
  {
    assert Keys(a + b) == Keys(a) + Keys(b);
    forall i, j | 0 <= i < j < |a + b| ensures Less(Keys(a + b)[j], Keys(a + b)[i]) {
      if i < |a| <= j {
        assert a[i] in a && b[j - |a|] in b;
      } else if j < |a| {
        assert Less(Keys(a)[j], Keys(a)[i]);
      } else {
        assert Less(Keys(b)[j - |a|], Keys(b)[i - |a|]);
      }
    }
  }

  /** Whatever others do between fetches, the rows come back strictly newest first, none twice. */
  lemma {:induction false} WalkIsStrictlyDescending(s: Server, group: Group, cursor: Option<Key>, limit: nat,
                                                    between: seq<seq<Op>>)
    requires Faithful(s) && 1 <= limit
    ensures Descending(Keys(Collected(Walk(s, group, cursor, limit, between))))
    decreases |between|
  {
    var page := FindPage(Table(s), group, cursor, limit);
    PageIsExact(Table(s), group, cursor, limit);
    PageIsOrdered(Table(s), group, cursor, limit);
    if page.nextCursor.None? || between == [] {
      WalkStops(s, group, cursor, limit, between);
    } else {
      WalkGoesOn(s, group, cursor, limit, between);
      var next := MessageTable.Run(s, between[0]);
      WalkIsStrictlyDescending(next, group, page.nextCursor, limit, between[1..]);
      WalkStaysBelow(next, group, page.nextCursor.value, limit, between[1..]);
      DescendingConcat(page.data, Collected(Walk(next, group, page.nextCursor, limit, between[1..])),
        page.nextCursor.value);
    }
  }

  // ---------- Coverage ----------

  ghost predicate Has(rows: seq<Row>, key: Key) {
    exists r :: r in rows && KeyOf(r) == key
  }

  lemma HasEither(a: seq<Row>, b: seq<Row>, key: Key)
    ensures Has(a + b, key) <==> Has(a, key) || Has(b, key)
  {
    if Has(a, key) {
      var r :| r in a && KeyOf(r) == key;
      assert r in a + b;
    } else if Has(b, key) {
      var r :| r in b && KeyOf(r) == key;
      assert r in a + b;
    }
  }

  /** A wanted row is on the page if and only if the page reaches it. */
  lemma PageHasWhatItReaches(rows: map<Id, Row>, group: Group, cursor: Option<Key>, limit: nat, id: Id)
    requires 1 <= limit && forall id | id in rows :: rows[id].id == id
    requires id in rows && Wanted(rows[id], group, cursor)
    ensures var page := FindPage(rows, group, cursor, limit);
      Has(page.data, KeyOf(rows[id])) <==> Reached(page.nextCursor, KeyOf(rows[id]))
  {
    PageIsExact(rows, group, cursor, limit);
    var page := FindPage(rows, group, cursor, limit);
    if Has(page.data, KeyOf(rows[id])) {
      var r :| r in page.data && KeyOf(r) == KeyOf(rows[id]);
    } else {
      assert rows[id] !in page.data;
    }
  }

  /** Once the group is gone, a fetch finds nothing and ends the walk. */
  lemma WalkOfNothing(s: Server, group: Group, cursor: Option<Key>, limit: nat, between: seq<seq<Op>>)
    requires Faithful(s) && 1 <= limit && group in s.gone
    ensures var pages := Walk(s, group, cursor, limit, between);
      |pages| == 1 && Collected(pages) == [] && Finished(pages)
    ensures LastFetch(s, group, cursor, limit, between) == (s, cursor)
  {
    NothingWantedWhenGone(s, group, cursor);
    PageIsAPrefix(Table(s), group, cursor, limit);
    WalkStops(s, group, cursor, limit, between);
  }

  /** The cursors of a walk descend, so that what its last fetch has left to find, every fetch had. */
  lemma {:induction false} LastCursorIsLowest(s: Server, group: Group, cursor: Option<Key>, limit: nat,
                                              between: seq<seq<Op>>, key: Key)
    requires Faithful(s) && 1 <= limit && Below(LastFetch(s, group, cursor, limit, between).1, key)
    ensures Below(cursor, key)
    decreases |between|
  {
    var page := FindPage(Table(s), group, cursor, limit);
    if page.nextCursor.Some? && between != [] {
      WalkGoesOn(s, group, cursor, limit, between);
      LastCursorIsLowest(MessageTable.Run(s, between[0]), group, page.nextCursor, limit, between[1..], key);
      if cursor.Some? {
        PageIsBelow(Table(s), group, cursor.value, limit);
      }
    }
  }

  lemma LastFetchGoesOn(s: Server, group: Group, cursor: Option<Key>, limit: nat, between: seq<seq<Op>>)
    requires Faithful(s) && FindPage(Table(s), group, cursor, limit).nextCursor.Some? && between != []
    ensures Faithful(MessageTable.Run(s, between[0]))
    ensures LastFetch(s, group, cursor, limit, between)
      == LastFetch(MessageTable.Run(s, between[0]), group, FindPage(Table(s), group, cursor, limit).nextCursor, limit,
                   between[1..])
  {
    RunKeepsFaithful(s, between[0]);
  }

  /**
   A finished walk contains a row that was there when it began, whatever happened since, if and only if
   the group stood at its last fetch or the row is at or above the cursor that fetch presented.
   */
  lemma {:induction false} WalkMissesIffDeleted(s: Server, group: Group, cursor: Option<Key>, limit: nat,
                                                between: seq<seq<Op>>, id: Id)
    requires Faithful(s) && 1 <= limit
    requires id in Table(s) && Wanted(s.rows[id], group, cursor)
    requires Finished(Walk(s, group, cursor, limit, between))
    ensures var (last, lowest) := LastFetch(s, group, cursor, limit, between);
      Has(Collected(Walk(s, group, cursor, limit, between)), KeyOf(s.rows[id])) <==>
        group !in last.gone || !Below(lowest, KeyOf(s.rows[id]))
    decreases |between|
  {
    var page, key := FindPage(Table(s), group, cursor, limit), KeyOf(s.rows[id]);
    PageHasWhatItReaches(Table(s), group, cursor, limit, id);
    if page.nextCursor.None? || between == [] {
      WalkStops(s, group, cursor, limit, between);
    } else {
      var next := MessageTable.Run(s, between[0]);
      WalkGoesOn(s, group, cursor, limit, between);
      LastFetchGoesOn(s, group, cursor, limit, between);
      HasEither(page.data, Collected(Walk(next, group, page.nextCursor, limit, between[1..])), key);
      if group in next.gone {
        WalkOfNothing(next, group, page.nextCursor, limit, between[1..]);
      } else {
        RunKeepsRows(s, between[0], id);
        if Below(page.nextCursor, key) {
          WalkMissesIffDeleted(next, group, page.nextCursor, limit, between[1..], id);
        } else if Below(LastFetch(next, group, page.nextCursor, limit, between[1..]).1, key) {
          LastCursorIsLowest(next, group, page.nextCursor, limit, between[1..], key);
        }
      }
    }
  }

  /** While the group stands, a finished walk contains every row that was there when it began. */
  lemma WalkMissesNothing(s: Server, group: Group, cursor: Option<Key>, limit: nat, between: seq<seq<Op>>, id: Id)
    requires Faithful(s) && 1 <= limit
    requires id in Table(s) && Wanted(s.rows[id], group, cursor)
    ensures var pages := Walk(s, group, cursor, limit, between);
      Finished(pages) && group !in LastFetch(s, group, cursor, limit, between).0.gone ==>
        Has(Collected(pages), KeyOf(s.rows[id]))
  {
    if Finished(Walk(s, group, cursor, limit, between)) {
      WalkMissesIffDeleted(s, group, cursor, limit, between, id);
    }
  }

  /** So a walk is cut short: the group is deleted after the first page of a longer history. */
  lemma DeletionCutsTheWalk(s: Server, group: Group, limit: nat, id: Id)
    requires Faithful(s) && 1 <= limit && id in Table(s) && s.rows[id].group == group
    requires var page := FindPage(Table(s), group, None, limit);
      page.nextCursor.Some? && Below(page.nextCursor, KeyOf(s.rows[id]))
    ensures var pages := Walk(s, group, None, limit, [[DeleteGroup(group)]]);
      Finished(pages) && |pages| == 2 && !Has(Collected(pages), KeyOf(s.rows[id]))
  {
    var between := [[DeleteGroup(group)]];
    var next := MessageTable.Run(s, between[0]);
    RunOne(s, DeleteGroup(group));
    var lower := FindPage(Table(s), group, None, limit).nextCursor;
    WalkGoesOn(s, group, None, limit, between);
    LastFetchGoesOn(s, group, None, limit, between);
    WalkOfNothing(next, group, lower, limit, between[1..]);
    WalkMissesIffDeleted(s, group, None, limit, between, id);
  }

  // ---------- Length ----------

  function PageCount(n: nat, limit: nat): nat
    requires 1 <= limit
  {
    if n <= limit then 1 else 1 + PageCount(n - limit, limit)
  }

  /** PageCount is max(1, ceil(n / limit)). */
  lemma {:induction false} PageCountIsCeiling(n: nat, limit: nat)
    requires 1 <= limit
    ensures var p := PageCount(n, limit);
      && 1 <= p && n <= p * limit && (if n == 0 then p == 1 else (p - 1) * limit < n)
  {
    if n > limit {
      PageCountIsCeiling(n - limit, limit);
      var p := PageCount(n - limit, limit);
      assert (p + 1) * limit == p * limit + limit;
    }
  }

  /** Between fetches, every insertion into the group is at or above the cursor just received. */
  ghost predicate InsertsAreNewer(s: Server, group: Group, cursor: Option<Key>, limit: nat, between: seq<seq<Op>>)
    requires Faithful(s)
    decreases |between|
  {
    var page := FindPage(Table(s), group, cursor, limit);
    if page.nextCursor.None? || between == [] then true
    else
      RunKeepsFaithful(s, between[0]);
      && Newer(between[0], group, page.nextCursor)
      && InsertsAreNewer(MessageTable.Run(s, between[0]), group, page.nextCursor, limit, between[1..])
  }

  lemma {:induction false} DescendingCount(keys: seq<Key>)
    requires Descending(keys)
    ensures |set k | k in keys| == |keys|
  {
    if keys != [] {
      var rest := keys[1..];
      DescendingCount(rest);
      assert (set k | k in keys) == {keys[0]} + (set k | k in rest);
    }
  }

  lemma BelowTheCut(keys: seq<Key>, limit: nat, k: Key)
    requires Descending(keys) && 1 <= limit < |keys|
    ensures k in keys[limit..] <==> k in keys && Less(k, keys[limit - 1])
  {
    if k in keys && Less(k, keys[limit - 1]) {
      var i :| 0 <= i < |keys| && keys[i] == k;
      assert i >= limit;
      assert keys[limit..][i - limit] == k;
    }
    if k in keys[limit..] {
      var i :| 0 <= i < |keys| - limit && keys[limit..][i] == k;
      assert Less(keys[limit + i], keys[limit - 1]);
    }
  }

  lemma LowerCursorWantsLess(rows: map<Id, Row>, group: Group, cursor: Option<Key>, lower: Key, k: Key)
    requires forall id | id in rows :: rows[id].id == id
    requires cursor.Some? ==> Less(lower, cursor.value)
    ensures k in WantedKeys(rows, group, Some(lower)) <==> k in WantedKeys(rows, group, cursor) && Less(k, lower)
  {
    WantedKeyNamesItsRow(rows, group, cursor, k);
    WantedKeyNamesItsRow(rows, group, Some(lower), k);
  }

  /** What a full page leaves below its cursor. */
  lemma CursorDropsOnePage(rows: map<Id, Row>, group: Group, cursor: Option<Key>, limit: nat)
    requires 1 <= limit && forall id | id in rows :: rows[id].id == id
    requires FindPage(rows, group, cursor, limit).hasMore
    ensures var page := FindPage(rows, group, cursor, limit);
      |WantedKeys(rows, group, page.nextCursor)| == |WantedKeys(rows, group, cursor)| - limit
  {
    PageIsAPrefix(rows, group, cursor, limit);
    var keys := NewestFirst(WantedKeys(rows, group, cursor));
    var lower := keys[limit - 1];
    assert lower in WantedKeys(rows, group, cursor);
    WantedKeyNamesItsRow(rows, group, cursor, lower);
    var below := keys[limit..];
    DescendingCount(below);
    forall k: Key ensures k in WantedKeys(rows, group, Some(lower)) <==> k in below {
      LowerCursorWantsLess(rows, group, cursor, lower, k);
      BelowTheCut(keys, limit, k);
    }
    assert WantedKeys(rows, group, Some(lower)) == set k | k in below;
  }

  /** A page says whether the walk goes on. */
  lemma MoreIffAbove(s: Server, group: Group, cursor: Option<Key>, limit: nat)
    requires Faithful(s) && 1 <= limit
    ensures var page := FindPage(Table(s), group, cursor, limit);
      && (page.hasMore <==> page.nextCursor.Some?)
      && (page.nextCursor.Some? <==> |WantedKeys(Table(s), group, cursor)| > limit)
  {
    PageIsOrdered(Table(s), group, cursor, limit);
  }

  lemma InsertsGoOn(s: Server, group: Group, cursor: Option<Key>, limit: nat, between: seq<seq<Op>>)
    requires Faithful(s)
    ensures var lower := FindPage(Table(s), group, cursor, limit).nextCursor;
      lower.Some? && between != [] && InsertsAreNewer(s, group, cursor, limit, between) ==>
        && Newer(between[0], group, lower)
        && Faithful(MessageTable.Run(s, between[0]))
        && InsertsAreNewer(MessageTable.Run(s, between[0]), group, lower, limit, between[1..])
  {
    if between != [] {
      RunKeepsFaithful(s, between[0]);
    }
  }

  lemma OnePageLess(n: nat, limit: nat)
    requires 1 <= limit < n
    ensures PageCount(n, limit) == 1 + PageCount(n - limit, limit) && PageCount(n - limit, limit) >= 1
  {}

  /** After a full page and newer inserts, `limit` rows fewer are wanted, or none with the group gone. */
  lemma OnePageFewer(s: Server, ops: seq<Op>, group: Group, cursor: Option<Key>, limit: nat)
    requires Faithful(s) && 1 <= limit && FindPage(Table(s), group, cursor, limit).nextCursor.Some?
    requires Newer(ops, group, FindPage(Table(s), group, cursor, limit).nextCursor)
    ensures var lower := FindPage(Table(s), group, cursor, limit).nextCursor;
      var after := MessageTable.Run(s, ops);
      group !in after.gone ==> |WantedKeys(Table(after), group, lower)| == |WantedKeys(Table(s), group, cursor)| - limit
  {
    MoreIffAbove(s, group, cursor, limit);
    CursorDropsOnePage(Table(s), group, cursor, limit);
    RunKeepsWanted(s, ops, group, FindPage(Table(s), group, cursor, limit).nextCursor);
  }

  /** What one fetch leaves of the walk still to come. */
  lemma RestOfTheWalk(s: Server, group: Group, cursor: Option<Key>, limit: nat, between: seq<seq<Op>>)
    requires Faithful(s) && 1 <= limit && InsertsAreNewer(s, group, cursor, limit, between)
    ensures var lower := FindPage(Table(s), group, cursor, limit).nextCursor;
      lower.Some? && between != [] ==>
        var next := MessageTable.Run(s, between[0]);
        && Faithful(next) && InsertsAreNewer(next, group, lower, limit, between[1..])
        && (group !in next.gone ==>
              |WantedKeys(Table(next), group, lower)| == |WantedKeys(Table(s), group, cursor)| - limit)
  {
    InsertsGoOn(s, group, cursor, limit, between);
    if FindPage(Table(s), group, cursor, limit).nextCursor.Some? && between != [] {
      OnePageFewer(s, between[0], group, cursor, limit);
    }
  }

  /** What a walk takes for n wanted rows. */
  ghost predicate Takes(s: Server, group: Group, cursor: Option<Key>, limit: nat, between: seq<seq<Op>>, n: nat)
    requires Faithful(s) && 1 <= limit
  {
    var pages := Walk(s, group, cursor, limit, between);
    && Finished(pages) && |pages| <= PageCount(n, limit)
    && (group !in LastFetch(s, group, cursor, limit, between).0.gone ==> |pages| == PageCount(n, limit))
  }

  lemma TakesOneMore(s: Server, group: Group, cursor: Option<Key>, limit: nat, between: seq<seq<Op>>, n: nat,
                     next: Server, lower: Option<Key>)
    requires Faithful(s) && 1 <= limit < n && between != []
    requires lower == FindPage(Table(s), group, cursor, limit).nextCursor && lower.Some?
    requires next == MessageTable.Run(s, between[0]) && Faithful(next)
    requires Takes(next, group, lower, limit, between[1..], n - limit)
    ensures Takes(s, group, cursor, limit, between, n)
  {
    OnePageLess(n, limit);
    WalkGoesOn(s, group, cursor, limit, between);
    LastFetchGoesOn(s, group, cursor, limit, between);
  }

  lemma TakesNothing(s: Server, group: Group, cursor: Option<Key>, limit: nat, between: seq<seq<Op>>, n: nat)
    requires Faithful(s) && 1 <= limit && group in s.gone
    ensures Takes(s, group, cursor, limit, between, n)
  {
    WalkOfNothing(s, group, cursor, limit, between);
  }

  /** The induction over the walk, with the number of wanted rows kept as a name. */
  lemma {:induction false} WalkTakes(s: Server, group: Group, cursor: Option<Key>, limit: nat,
                                     between: seq<seq<Op>>, n: nat)
    requires Faithful(s) && 1 <= limit && (group !in s.gone ==> n == |WantedKeys(Table(s), group, cursor)|)
    requires InsertsAreNewer(s, group, cursor, limit, between) && PageCount(n, limit) <= |between| + 1
    ensures Takes(s, group, cursor, limit, between, n)
    decreases |between|
  {
    MoreIffAbove(s, group, cursor, limit);
    var lower := FindPage(Table(s), group, cursor, limit).nextCursor;
    if group in s.gone {
      TakesNothing(s, group, cursor, limit, between, n);
    } else if lower.None? {
      WalkStops(s, group, cursor, limit, between);
    } else {
      OnePageLess(n, limit);
      RestOfTheWalk(s, group, cursor, limit, between);
      var next := MessageTable.Run(s, between[0]);
      WalkTakes(next, group, lower, limit, between[1..], n - limit);
      TakesOneMore(s, group, cursor, limit, between, n, next, lower);
    }
  }

  /**
   When inserts are newer than the cursor the walk ends within max(1, ceil(n / limit)) fetches for the n
   rows it began with, edits and deletions notwithstanding, and takes exactly as many while the group stands.
   */
  lemma WalkLength(s: Server, group: Group, cursor: Option<Key>, limit: nat, between: seq<seq<Op>>)
    requires Faithful(s) && 1 <= limit
    requires InsertsAreNewer(s, group, cursor, limit, between)
    requires PageCount(|WantedKeys(Table(s), group, cursor)|, limit) <= |between| + 1
    ensures var pages, n := Walk(s, group, cursor, limit, between), |WantedKeys(Table(s), group, cursor)|;
      && Finished(pages) && |pages| <= PageCount(n, limit)
      && (group !in LastFetch(s, group, cursor, limit, between).0.gone ==> |pages| == PageCount(n, limit))
  {
    WalkTakes(s, group, cursor, limit, between, |WantedKeys(Table(s), group, cursor)|);
  }
}
