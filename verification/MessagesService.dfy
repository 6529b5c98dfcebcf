/**
 `MessagesService`: the writes, each persisted and then emitted, and the keyset query `findPage`.
 */
module MessagesService {
  import opened Wrappers
  import opened Keyset
  import opened MessageTable

  // ---------- Requests, with others served between check and write ----------

  /** An edit whose check is answered at `s`, and which `others` keep waiting before its update. */
  function EditRequest(s: Server, group: Group, id: Id, user: User, content: string, at: int, others: seq<Op>)
    : (Server, Outcome)
  {
    var check := EditCheck(Table(s), group, id, user);
    if check != Done then (s, check) else Written(Run(s, others), Op.Edit(group, id, user, content, at))
  }

  function SoftDeleteRequest(s: Server, group: Group, id: Id, user: User, at: int, others: seq<Op>): (Server, Outcome) {
    var check := OwnUserMessage(Table(s), group, id, user);
    if check != Done then (s, check) else Written(Run(s, others), Op.SoftDelete(group, id, user, at))
  }

  /** An update that finds its row gone is P2025, mapped to not found. */
  function Written(s: Server, op: Op): (Server, Outcome) {
    (Apply(s, op), if Enabled(s, op) then Done else NotFound)
  }

  class Service {
    var rows: map<Id, Row>
    var gone: set<Group>
    var events: seq<Event>

    ghost function View(): Server
      reads this
    {
      Server(rows, gone, events)
    }

    constructor ()
      ensures View() == EMPTY_SERVER
    {
      rows, gone, events := map[], {}, [];
    }

    /** The writes of other requests while this one waits. */
    method Others(ops: seq<Op>)
      modifies this
      ensures View() == Run(old(View()), ops)
    {
      var s := Server(rows, gone, events);
      var i := 0;
      while i < |ops|
        invariant 0 <= i <= |ops|
        invariant Run(s, ops[i..]) == Run(old(View()), ops)
      {
        assert ops[i..][1..] == ops[i + 1..];
        s := Apply(s, ops[i]);
        i := i + 1;
      }
      rows, gone, events := s.rows, s.gone, s.log;
    }

    /** The single write-and-emit point for new messages; a group that is gone fails its foreign key. */
    method PersistAndEmit(id: Id, at: int, group: Group, sender: Option<User>, kind: Kind, content: string,
                          attachment: Option<Attachment>) returns (message: Option<Row>)
      requires id !in rows
      modifies this`rows, this`events
      ensures message ==
        if group in gone then None else Some(Row(id, group, sender, kind, at, content, None, None, attachment, {}))
      ensures message.None? ==> rows == old(rows) && events == old(events)
      ensures message.Some? ==>
        rows == old(rows)[id := message.value] && events == old(events) + [Created(message.value)]
    {
      if group in gone {
        return None;
      }
      var row := Row(id, group, sender, kind, at, content, None, None, attachment, {});
      rows := rows[id := row];
      events := events + [Created(row)];
      return Some(row);
    }

    method Create(id: Id, at: int, group: Group, sender: User, content: string) returns (message: Option<Row>)
      requires id !in rows && Faithful(View())
      modifies this
      ensures Faithful(View())
      ensures View() == Apply(old(View()), Op.Create(id, at, group, sender, content, None))
      ensures message == if id in Table(View()) then Some(Table(View())[id]) else None
    {
      ApplyKeepsFaithful(View(), Op.Create(id, at, group, sender, content, None));
      message := PersistAndEmit(id, at, group, Some(sender), USER, content, None);
    }

    method CreateWithAttachment(id: Id, at: int, group: Group, sender: User, content: string, attachment: Attachment)
      returns (message: Option<Row>)
      requires id !in rows && Faithful(View())
      modifies this
      ensures Faithful(View())
      ensures View() == Apply(old(View()), Op.Create(id, at, group, sender, content, Some(attachment)))
      ensures message == if id in Table(View()) then Some(Table(View())[id]) else None
    {
      ApplyKeepsFaithful(View(), Op.Create(id, at, group, sender, content, Some(attachment)));
      message := PersistAndEmit(id, at, group, Some(sender), USER, content, Some(attachment));
    }

    method AssertOwnUserMessage(group: Group, id: Id, user: User) returns (outcome: Outcome)
      ensures outcome == NotFound <==> id !in Table(View()) || rows[id].group != group
      ensures outcome == Done <==>
        && id in Table(View()) && rows[id].group == group
        && rows[id].sender == Some(user) && rows[id].kind == USER
      ensures outcome == OwnUserMessage(Table(View()), group, id, user)
    {
      if id !in rows || rows[id].group in gone || rows[id].group != group {
        return NotFound;
      }
      if rows[id].sender != Some(user) || rows[id].kind != USER {
        return NotOwn;
      }
      return Done;
    }

    /** `message.update` on one row and the event that announces it; false when the row is gone. */
    method UpdateAndEmit(message: Row) returns (found: bool)
      modifies this`rows, this`events
      ensures found <==> message.id in old(Table(View()))
      ensures !found ==> View() == old(View())
      ensures found ==> rows == old(rows)[message.id := message] && events == old(events) + [Updated(message)]
    {
      found := message.id in rows && rows[message.id].group !in gone;
      if found {
        rows := rows[message.id := message];
        events := events + [Updated(message)];
      }
    }

    /** The check is answered now; `others` are served before the update. */
    method Edit(group: Group, id: Id, user: User, content: string, at: int, others: seq<Op>)
      returns (outcome: Outcome)
      requires Faithful(View())
      modifies this
      ensures Faithful(View())
      ensures (View(), outcome) == EditRequest(old(View()), group, id, user, content, at, others)
      ensures outcome == Done ==>
        var found := Run(old(View()), others);
        && id in Table(found)
        && var message := found.rows[id].(content := content, editedAt := Some(at));
           View() == found.(rows := found.rows[id := message], log := found.log + [Updated(message)])
      ensures outcome != Done ==> View() == old(View()) || (outcome == NotFound && View() == Run(old(View()), others))
    {
      outcome := AssertOwnUserMessage(group, id, user);
      if outcome != Done {
        return;
      }
      if rows[id].deletedAt.Some? {
        return AlreadyDeleted;
      }
      RunKeepsFaithful(View(), others);
      RunKeepsIdentity(View(), others, id);
      Others(others);
      ApplyKeepsFaithful(View(), Op.Edit(group, id, user, content, at));
      var found := UpdateAndEmit(rows[id].(content := content, editedAt := Some(at)));
      outcome := if found then Done else NotFound;
    }

    /** The row survives as a tombstone with its reactions; only the text goes. */
    method SoftDelete(group: Group, id: Id, user: User, at: int, others: seq<Op>) returns (outcome: Outcome)
      requires Faithful(View())
      modifies this
      ensures Faithful(View())
      ensures (View(), outcome) == SoftDeleteRequest(old(View()), group, id, user, at, others)
      ensures outcome == Done ==>
        var found := Run(old(View()), others);
        && id in Table(found)
        && var message := found.rows[id].(deletedAt := Some(at), content := "");
           View() == found.(rows := found.rows[id := message], log := found.log + [Updated(message)])
      ensures outcome != Done ==> View() == old(View()) || (outcome == NotFound && View() == Run(old(View()), others))
    {
      outcome := AssertOwnUserMessage(group, id, user);
      if outcome != Done {
        return;
      }
      RunKeepsFaithful(View(), others);
      RunKeepsIdentity(View(), others, id);
      Others(others);
      ApplyKeepsFaithful(View(), Op.SoftDelete(group, id, user, at));
      var found := UpdateAndEmit(rows[id].(deletedAt := Some(at), content := ""));
      outcome := if found then Done else NotFound;
    }
  }

  /** Who wrote a row, where and what it is never change, and a deleted group never returns. */
  lemma {:induction false} RunKeepsIdentity(s: Server, ops: seq<Op>, id: Id)
    requires Faithful(s) && id in s.rows
    ensures var after := Run(s, ops);
      && id in after.rows && s.gone <= after.gone
      && KeyOf(after.rows[id]) == KeyOf(s.rows[id]) && after.rows[id].group == s.rows[id].group
      && after.rows[id].sender == s.rows[id].sender && after.rows[id].kind == s.rows[id].kind
    decreases |ops|
  {
    if ops != [] {
      ApplyKeepsFaithful(s, ops[0]);
      RunKeepsIdentity(Apply(s, ops[0]), ops[1..], id);
    }
  }

  /**
   A soft delete succeeds if and only if the row was the caller's own at its check and its group still stands
   at its update; it then leaves a blank tombstone with everything else as the others left it.
   */
  lemma SoftDeleteIsExact(s: Server, group: Group, id: Id, user: User, at: int, others: seq<Op>)
    requires Faithful(s)
    ensures var (after, outcome) := SoftDeleteRequest(s, group, id, user, at, others);
      && (outcome == Done <==>
            && id in Table(s) && s.rows[id].group == group && s.rows[id].sender == Some(user) && s.rows[id].kind == USER
            && group !in Run(s, others).gone)
      && (outcome == Done ==>
            && after.rows == Run(s, others).rows[id :=
                 Run(s, others).rows[id].(content := "", deletedAt := Some(at))]
            && after.log == Run(s, others).log + [Updated(after.rows[id])])
      && (outcome != Done ==> after == s || after == Run(s, others))
  {
    if id in s.rows {
      RunKeepsIdentity(s, others, id);
    }
  }

  // ---------- Tombstones ----------

  /** Some soft delete of `ops` takes effect on the row. */
  predicate SoftDeletedIn(s: Server, ops: seq<Op>, id: Id)
    decreases |ops|
  {
    ops != [] &&
    ((ops[0].SoftDelete? && ops[0].id == id && Enabled(s, ops[0])) || SoftDeletedIn(Apply(s, ops[0]), ops[1..], id))
  }

  predicate DeletedIn(s: Server, ops: seq<Op>, group: Group)
    decreases |ops|
  {
    ops != [] && (ops[0] == DeleteGroup(group) || DeletedIn(Apply(s, ops[0]), ops[1..], group))
  }

  lemma {:induction false} TombstoneIffSoftDeleted(s: Server, ops: seq<Op>, id: Id)
    requires Faithful(s) && id in s.rows
    ensures id in Run(s, ops).rows
    ensures Run(s, ops).rows[id].deletedAt.Some? <==> s.rows[id].deletedAt.Some? || SoftDeletedIn(s, ops, id)
    decreases |ops|
  {
    if ops != [] {
      ApplyKeepsFaithful(s, ops[0]);
      TombstoneIffSoftDeleted(Apply(s, ops[0]), ops[1..], id);
    }
  }

  lemma {:induction false} GoneIffDeleted(s: Server, ops: seq<Op>, group: Group)
    ensures group in Run(s, ops).gone <==> group in s.gone || DeletedIn(s, ops, group)
    decreases |ops|
  {
    if ops != [] {
      GoneIffDeleted(Apply(s, ops[0]), ops[1..], group);
    }
  }

  /**
   An edit gives a tombstone its text back if and only if it passed its check and, before its update,
   a soft delete of the message was served and the group was not deleted.
   */
  lemma EditRevivesIff(s: Server, group: Group, id: Id, user: User, content: string, at: int, others: seq<Op>)
    requires Faithful(s)
    ensures var (after, outcome) := EditRequest(s, group, id, user, content, at, others);
      && (outcome == Done && after.rows[id].deletedAt.Some? <==>
            && EditCheck(Table(s), group, id, user) == Done
            && SoftDeletedIn(s, others, id) && !DeletedIn(s, others, group))
      && (outcome == Done ==> after.rows[id].content == content)
  {
    if EditCheck(Table(s), group, id, user) == Done {
      RunKeepsIdentity(s, others, id);
      TombstoneIffSoftDeleted(s, others, id);
      GoneIffDeleted(s, others, group);
    }
  }

  /** Such a run: the author deletes the message while an edit of it is past its check. */
  lemma EditRevivesATombstone(at: int)
    ensures var row := Row(0, 7, Some(1), USER, at, "a", None, None, None, {});
      var s := Server(map[0 := row], {}, [Created(row)]);
      var (after, outcome) := EditRequest(s, 7, 0, 1, "b", at, [Op.SoftDelete(7, 0, 1, at)]);
      Faithful(s) && outcome == Done && after.rows[0].deletedAt == Some(at) && after.rows[0].content == "b"
  {
    var row := Row(0, 7, Some(1), USER, at, "a", None, None, None, {});
    var s := Server(map[0 := row], {}, [Created(row)]);
    ApplyKeepsFaithful(EMPTY_SERVER, Op.Create(0, at, 7, 1, "a", None));
    assert Apply(EMPTY_SERVER, Op.Create(0, at, 7, 1, "a", None)) == s;
    RunOne(s, Op.SoftDelete(7, 0, 1, at));
  }

  // ---------- findPage ----------

  datatype Page = Page(data: seq<Row>, limit: nat, nextCursor: Option<Key>, hasMore: bool)

  /** The where-clause: this group, strictly before the cursor if there is one. */
  predicate Wanted(row: Row, group: Group, cursor: Option<Key>) {
    && row.group == group
    && (cursor.Some? ==>
          row.createdAt < cursor.value.at || (row.createdAt == cursor.value.at && row.id < cursor.value.id))
  }

  ghost function WantedKeys(rows: map<Id, Row>, group: Group, cursor: Option<Key>): set<Key> {
    set id | id in rows && Wanted(rows[id], group, cursor) :: KeyOf(rows[id])
  }

  lemma WantedKeyNamesItsRow(rows: map<Id, Row>, group: Group, cursor: Option<Key>, key: Key)
    requires forall id | id in rows :: rows[id].id == id
    ensures key in WantedKeys(rows, group, cursor) <==>
      key.id in rows && KeyOf(rows[key.id]) == key && Wanted(rows[key.id], group, cursor)
  {}

  ghost predicate Name(rows: map<Id, Row>, keys: seq<Key>) {
    forall i | 0 <= i < |keys| :: keys[i].id in rows && KeyOf(rows[keys[i].id]) == keys[i]
  }

  ghost function RowsOf(rows: map<Id, Row>, keys: seq<Key>): (found: seq<Row>)
    requires Name(rows, keys)
    ensures |found| == |keys| && forall i | 0 <= i < |keys| :: found[i] == rows[keys[i].id]
  {
    seq(|keys|, i requires 0 <= i < |keys| => rows[keys[i].id])
  }

  ghost function Take<T>(s: seq<T>, n: nat): seq<T> {
    if |s| < n then s else s[..n]
  }

  /** `findMany`: the wanted rows, newest first, at most `take` of them. */
  ghost function FindMany(rows: map<Id, Row>, group: Group, cursor: Option<Key>, take: nat): seq<Row>
    requires forall id | id in rows :: rows[id].id == id
  {
    WantedKeysName(rows, group, cursor);
    RowsOf(rows, Take(NewestFirst(WantedKeys(rows, group, cursor)), take))
  }

  lemma WantedKeysName(rows: map<Id, Row>, group: Group, cursor: Option<Key>)
    requires forall id | id in rows :: rows[id].id == id
    ensures Name(rows, NewestFirst(WantedKeys(rows, group, cursor)))
  {
    var keys := NewestFirst(WantedKeys(rows, group, cursor));
    forall i | 0 <= i < |keys| ensures keys[i].id in rows && KeyOf(rows[keys[i].id]) == keys[i] {
      assert keys[i] in keys;
      WantedKeyNamesItsRow(rows, group, cursor, keys[i]);
    }
  }

  /** `findPage` after its query: slice the probe row off and name the next cursor. */
  function PageOf(found: seq<Row>, limit: nat): Page {
    var hasMore := |found| > limit;
    var page := if hasMore then found[..limit] else found;
    var nextCursor := if hasMore && page != [] then Some(KeyOf(page[|page| - 1])) else None;
    Page(page, limit, nextCursor, hasMore)
  }

  ghost function FindPage(rows: map<Id, Row>, group: Group, cursor: Option<Key>, limit: nat): Page
    requires forall id | id in rows :: rows[id].id == id
  {
    PageOf(FindMany(rows, group, cursor, limit + 1), limit)
  }

  function Keys(rows: seq<Row>): seq<Key> {
    seq(|rows|, i requires 0 <= i < |rows| => KeyOf(rows[i]))
  }

  lemma PageOfPrefix(rows: map<Id, Row>, keys: seq<Key>, limit: nat)
    requires 1 <= limit && Name(rows, keys)
    ensures var page := PageOf(RowsOf(rows, Take(keys, limit + 1)), limit);
      && |page.data| == (if page.hasMore then limit else |keys|)
      && (page.hasMore <==> |keys| > limit)
      && page.data == RowsOf(rows, keys)[..|page.data|]
      && Keys(page.data) == keys[..|page.data|]
      && page.nextCursor == if page.hasMore then Some(keys[limit - 1]) else None
  {
    var all := RowsOf(rows, keys);
    if |keys| > limit {
      assert RowsOf(rows, Take(keys, limit + 1)) == all[..limit + 1];
      assert all[..limit + 1][..limit] == all[..limit];
      assert Keys(all[..limit]) == keys[..limit];
    } else {
      assert all[..|keys|] == all && Keys(all) == keys == keys[..|keys|];
    }
  }

  /** The rows of a page are the first `limit` of the whole ordered result. */
  lemma PageIsAPrefix(rows: map<Id, Row>, group: Group, cursor: Option<Key>, limit: nat)
    requires 1 <= limit && forall id | id in rows :: rows[id].id == id
    ensures var page := FindPage(rows, group, cursor, limit);
            var keys := NewestFirst(WantedKeys(rows, group, cursor));
      && Name(rows, keys)
      && |page.data| == (if page.hasMore then limit else |keys|)
      && (page.hasMore <==> |keys| > limit)
      && page.data == RowsOf(rows, keys)[..|page.data|]
      && Keys(page.data) == keys[..|page.data|]
      && page.nextCursor == if page.hasMore then Some(keys[limit - 1]) else None
  {
    WantedKeysName(rows, group, cursor);
    var keys := NewestFirst(WantedKeys(rows, group, cursor));
    PageOfPrefix(rows, keys, limit);
    assert FindPage(rows, group, cursor, limit) == PageOf(RowsOf(rows, Take(keys, limit + 1)), limit);
  }

  /** Strictly descending, bounded, and with a cursor exactly when something is left below. */
  lemma PageIsOrdered(rows: map<Id, Row>, group: Group, cursor: Option<Key>, limit: nat)
    requires 1 <= limit && forall id | id in rows :: rows[id].id == id
    ensures var page := FindPage(rows, group, cursor, limit);
      && |page.data| <= limit && Descending(Keys(page.data))
      && (page.hasMore <==> page.nextCursor.Some?)
      && (page.hasMore <==> |WantedKeys(rows, group, cursor)| > limit)
      && (page.hasMore ==> |page.data| == limit && page.nextCursor == Some(KeyOf(page.data[limit - 1])))
      && page.limit == limit
  {
    PageIsAPrefix(rows, group, cursor, limit);
    var page := FindPage(rows, group, cursor, limit);
    assert page.hasMore ==> Keys(page.data)[limit - 1] == KeyOf(page.data[limit - 1]);
  }

  lemma PrefixIsExact(rows: map<Id, Row>, keys: seq<Key>, limit: nat, r: Row)
    requires 1 <= limit && Name(rows, keys) && Descending(keys)
    requires forall id | id in rows :: rows[id].id == id
    ensures var page := PageOf(RowsOf(rows, Take(keys, limit + 1)), limit);
      r in page.data <==>
        && r.id in rows && rows[r.id] == r && KeyOf(r) in keys
        && (page.nextCursor.Some? ==> !Less(KeyOf(r), page.nextCursor.value))
  {
    PageOfPrefix(rows, keys, limit);
    var page := PageOf(RowsOf(rows, Take(keys, limit + 1)), limit);
    if r in page.data {
      var i :| 0 <= i < |page.data| && page.data[i] == r;
      assert KeyOf(r) == keys[i];
    } else if r.id in rows && rows[r.id] == r && KeyOf(r) in keys {
      var i :| 0 <= i < |keys| && keys[i] == KeyOf(r);
      assert page.hasMore && Less(keys[i], keys[limit - 1]);
    }
  }

  /** A page holds exactly the wanted rows at or above its next cursor: none skipped, none foreign. */
  lemma PageIsExact(rows: map<Id, Row>, group: Group, cursor: Option<Key>, limit: nat)
    requires 1 <= limit && forall id | id in rows :: rows[id].id == id
    ensures var page := FindPage(rows, group, cursor, limit);
      forall r :: r in page.data <==>
        && r.id in rows && rows[r.id] == r && Wanted(r, group, cursor)
        && (page.nextCursor.Some? ==> !Less(KeyOf(r), page.nextCursor.value))
  {
    WantedKeysName(rows, group, cursor);
    forall r ensures r in FindPage(rows, group, cursor, limit).data <==>
      && r.id in rows && rows[r.id] == r && Wanted(r, group, cursor)
      && (FindPage(rows, group, cursor, limit).nextCursor.Some? ==>
            !Less(KeyOf(r), FindPage(rows, group, cursor, limit).nextCursor.value))
    {
      PrefixIsExact(rows, NewestFirst(WantedKeys(rows, group, cursor)), limit, r);
      WantedKeyNamesItsRow(rows, group, cursor, KeyOf(r));
    }
  }
}
