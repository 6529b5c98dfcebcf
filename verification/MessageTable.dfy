/**
 The message table, the operations of the interactive path that change it, and the ordered log of
 the events they emit.
 */
module MessageTable {
  import opened Wrappers
  import opened Keyset
  import G = GroupTable

  type Group = nat
  type User = nat

  datatype Kind = USER | SYSTEM | AI_SUMMARY

  datatype Reaction = Reaction(emoji: string, user: User)

  datatype Attachment = Attachment(url: string, name: string, mime: string)

  /** A row in the shape of MESSAGE_SELECT. */
  datatype Row = Row(
    id: Id,
    group: Group,
    sender: Option<User>,
    kind: Kind,
    createdAt: int,
    content: string,
    editedAt: Option<int>,
    deletedAt: Option<int>,
    attachment: Option<Attachment>,
    reactions: set<Reaction>)

  function KeyOf(row: Row): Key {
    Key(row.createdAt, row.id)
  }

  datatype Event =
    | Created(message: Row)
    | Updated(message: Row)
    | Reacted(group: Group, id: Id, reactions: set<Reaction>)

  /**
   `rows` (a history variable) holds every row ever inserted, and `gone` the groups deleted since. The
   table is the rows of the other groups, and all that a query sees.
   */
  datatype Server = Server(rows: map<Id, Row>, gone: set<Group>, log: seq<Event>)

  const EMPTY_SERVER := Server(map[], {}, [])

  function Table(s: Server): map<Id, Row> {
    map id | id in s.rows && s.rows[id].group !in s.gone :: s.rows[id]
  }

  /**
   The write of one request, past its checks; a creation carries the fresh id and timestamp the database
   gives the row. DeleteGroup is the leave of a group's last member, whose cascade takes the group's
   messages and emits nothing.
   */
  datatype Op =
    | Create(id: Id, at: int, group: Group, sender: User, content: string, attachment: Option<Attachment>)
    | Edit(group: Group, id: Id, user: User, content: string, at: int)
    | SoftDelete(group: Group, id: Id, user: User, at: int)
    | Toggle(group: Group, id: Id, user: User, emoji: string)
    | DeleteGroup(group: Group)

  datatype Outcome = Done | NotFound | NotOwn | AlreadyDeleted

  /** `assertOwnUserMessage`: the row must be in this group, a USER message, and the caller's. */
  function OwnUserMessage(rows: map<Id, Row>, group: Group, id: Id, user: User): Outcome {
    if id !in rows || rows[id].group != group then NotFound
    else if rows[id].sender != Some(user) || rows[id].kind != USER then NotOwn
    else Done
  }

  /** An edit refuses the tombstone its check finds; a deletion does not. */
  function EditCheck(rows: map<Id, Row>, group: Group, id: Id, user: User): Outcome {
    var own := OwnUserMessage(rows, group, id, user);
    if own == Done && rows[id].deletedAt.Some? then AlreadyDeleted else own
  }

  /**
   A write finds what its checks found, because the group, the sender and the kind of a row never change;
   a row deleted with its group is found by neither. The tombstone is not looked for again. A creation
   needs its group and an id never used before, as uuid(7) gives.
   */
  predicate Enabled(s: Server, op: Op) {
    match op
    case Create(id, _, group, _, _, _) => group !in s.gone && id !in s.rows
    case Edit(group, id, user, _, _) => OwnUserMessage(Table(s), group, id, user) == Done
    case SoftDelete(group, id, user, _) => OwnUserMessage(Table(s), group, id, user) == Done
    case Toggle(group, id, _, _) => id in Table(s) && Table(s)[id].group == group
    case DeleteGroup(group) => group !in s.gone
  }

  function Toggled(reactions: set<Reaction>, reaction: Reaction): set<Reaction> {
    if reaction in reactions then reactions - {reaction} else reactions + {reaction}
  }

  /** The row an enabled write leaves behind. */
  function RowAfter(s: Server, op: Op): Row
    requires Enabled(s, op) && !op.DeleteGroup?
  {
    match op
    case Create(id, at, group, sender, content, attachment) =>
      Row(id, group, Some(sender), USER, at, content, None, None, attachment, {})
    case Edit(_, id, _, content, at) => s.rows[id].(content := content, editedAt := Some(at))
    case SoftDelete(_, id, _, at) => s.rows[id].(deletedAt := Some(at), content := "")
    case Toggle(_, id, user, emoji) => s.rows[id].(reactions := Toggled(s.rows[id].reactions, Reaction(emoji, user)))
  }

  function EventOf(op: Op, row: Row): Event {
    match op
    case Create(_, _, _, _, _, _) => Created(row)
    case Toggle(group, id, _, _) => Reacted(group, id, row.reactions)
    case _ => Updated(row)
  }

  function Apply(s: Server, op: Op): Server {
    if !Enabled(s, op) then s
    else if op.DeleteGroup? then s.(gone := s.gone + {op.group})
    else
      var row := RowAfter(s, op);
      s.(rows := s.rows[op.id := row], log := s.log + [EventOf(op, row)])
  }

  function Run(s: Server, ops: seq<Op>): Server
    decreases |ops|
  {
    if ops == [] then s else Run(Apply(s, ops[0]), ops[1..])
  }

  lemma RunOne(s: Server, op: Op)
    ensures Run(s, [op]) == Apply(s, op)
  {
    assert [op][1..] == [];
    assert Run(s, [op]) == Run(Apply(s, op), []);
  }

  // ---------- The log determines the table ----------

  predicate Concerns(e: Event, id: Id) {
    match e
    case Created(m) => m.id == id
    case Updated(m) => m.id == id
    case Reacted(_, i, _) => i == id
  }

  /** What a copy of message `id` becomes when it sees one event, as the handlers treat it. */
  function Patch(row: Row, e: Event): Row {
    match e
    case Updated(m) => if m.id == row.id then m else row
    case Reacted(_, id, reactions) => if id == row.id then row.(reactions := reactions) else row
    case Created(_) => row
  }

  function See(copy: Option<Row>, e: Event, id: Id): Option<Row> {
    match copy
    case Some(row) => Some(Patch(row, e))
    case None => if e.Created? && e.message.id == id then Some(e.message) else None
  }

  function Replay(copy: Option<Row>, events: seq<Event>, id: Id): Option<Row>
    decreases |events|
  {
    if events == [] then copy else Replay(See(copy, events[0], id), events[1..], id)
  }

  /** Message `id` is created once, before any other event about it. */
  ghost predicate InOrder(copy: Option<Row>, events: seq<Event>, id: Id)
    decreases |events|
  {
    events == [] ||
    (&& (Concerns(events[0], id) ==> (copy.None? <==> events[0].Created?))
     && InOrder(See(copy, events[0], id), events[1..], id))
  }

  ghost predicate EventFits(rows: map<Id, Row>, e: Event) {
    match e
    case Created(m) => m.id in rows && KeyOf(rows[m.id]) == KeyOf(m) && rows[m.id].group == m.group
    case Updated(m) => m.id in rows && KeyOf(rows[m.id]) == KeyOf(m) && rows[m.id].group == m.group
    case Reacted(group, id, _) => id in rows && rows[id].group == group
  }

  ghost predicate Faithful(s: Server) {
    && (forall id | id in s.rows :: s.rows[id].id == id)
    && (forall i | 0 <= i < |s.log| :: EventFits(s.rows, s.log[i]))
    && (forall id: Id :: InOrder(None, s.log, id))
    && (forall id: Id :: Replay(None, s.log, id) == if id in s.rows then Some(s.rows[id]) else None)
  }

  lemma {:induction false} ReplayConcat(copy: Option<Row>, a: seq<Event>, b: seq<Event>, id: Id)
    ensures Replay(copy, a + b, id) == Replay(Replay(copy, a, id), b, id)
    ensures InOrder(copy, a + b, id) <==> InOrder(copy, a, id) && InOrder(Replay(copy, a, id), b, id)
    decreases |a|
  {
    if a == [] {
      assert a + b == b;
    } else {
      assert (a + b)[1..] == a[1..] + b;
      ReplayConcat(See(copy, a[0], id), a[1..], b, id);
    }
  }

  lemma ApplyKeepsFaithful(s: Server, op: Op)
    requires Faithful(s)
    ensures Faithful(Apply(s, op))
  {
    if Enabled(s, op) && !op.DeleteGroup? {
      var after := Apply(s, op);
      var e := after.log[|s.log|];
      forall id: Id
        ensures InOrder(None, after.log, id)
        ensures Replay(None, after.log, id) == if id in after.rows then Some(after.rows[id]) else None
      {
        ReplayConcat(None, s.log, [e], id);
        var copy := Replay(None, s.log, id);
        assert Replay(copy, [e], id) == See(copy, e, id);
        assert InOrder(See(copy, e, id), [e][1..], id);
      }
      forall i | 0 <= i < |after.log| ensures EventFits(after.rows, after.log[i]) {
        if i < |s.log| {
          assert EventFits(s.rows, s.log[i]);
        }
      }
    }
  }

  lemma {:induction false} RunKeepsFaithful(s: Server, ops: seq<Op>)
    requires Faithful(s)
    ensures Faithful(Run(s, ops))
    decreases |ops|
  {
    if ops != [] {
      ApplyKeepsFaithful(s, ops[0]);
      RunKeepsFaithful(Apply(s, ops[0]), ops[1..]);
    }
  }

  // ---------- Replaying what a row has already seen ----------

  predicate Replaces(e: Event, id: Id) {
    e.Updated? && e.message.id == id
  }

  /** Once one event replaces the row, where the replay started from no longer matters. */
  lemma {:induction false} ReplacementForgetsTheStart(a: Row, b: Row, events: seq<Event>, id: Id, i: nat)
    requires a.id == id && b.id == id && i < |events| && Replaces(events[i], id)
    ensures Replay(Some(a), events, id) == Replay(Some(b), events, id)
    decreases |events|
  {
    if i != 0 {
      ReplacementForgetsTheStart(Patch(a, events[0]), Patch(b, events[0]), events[1..], id, i - 1);
    }
  }

  /** With no replacement only the reactions can change, and they end where the last event left them. */
  lemma {:induction false} ReactionsOverwrite(a: Row, b: Row, events: seq<Event>, id: Id)
    requires a.id == id && b == a.(reactions := b.reactions)
    requires forall i | 0 <= i < |events| :: !Replaces(events[i], id)
    ensures Replay(Some(a), events, id).Some? && Replay(Some(b), events, id).Some?
    ensures var x, y := Replay(Some(a), events, id).value, Replay(Some(b), events, id).value;
      && x == a.(reactions := x.reactions)
      && (x == y || (x == a && y == b))
    decreases |events|
  {
    if events != [] {
      ReactionsOverwrite(Patch(a, events[0]), Patch(b, events[0]), events[1..], id);
    }
  }

  lemma ReplayTwiceIsReplayOnce(a: Row, events: seq<Event>, id: Id)
    requires a.id == id
    ensures Replay(Replay(Some(a), events, id), events, id) == Replay(Some(a), events, id)
  {
    if i :| 0 <= i < |events| && Replaces(events[i], id) {
      ReplayKeepsId(a, events, id);
      ReplacementForgetsTheStart(a, Replay(Some(a), events, id).value, events, id, i);
    } else {
      ReactionsOverwrite(a, a, events, id);
      ReactionsOverwrite(a, Replay(Some(a), events, id).value, events, id);
    }
  }

  lemma {:induction false} ReplayKeepsId(a: Row, events: seq<Event>, id: Id)
    requires a.id == id
    ensures Replay(Some(a), events, id).Some? && Replay(Some(a), events, id).value.id == id
    decreases |events|
  {
    if events != [] {
      ReplayKeepsId(Patch(a, events[0]), events[1..], id);
    }
  }

  /**
   A row is unmoved by any stretch of the log it has already seen, even one reaching back before
   its creation.
   */
  lemma {:induction false} SeenEventsChangeNothing(copy: Option<Row>, events: seq<Event>, id: Id)
    requires InOrder(copy, events, id) && Replay(copy, events, id).Some?
    requires copy.Some? ==> copy.value.id == id
    ensures Replay(Replay(copy, events, id), events, id) == Replay(copy, events, id)
    decreases |events|
  {
    if copy.Some? {
      ReplayTwiceIsReplayOnce(copy.value, events, id);
    } else if events[0].Created? && events[0].message.id == id {
      ReplayTwiceIsReplayOnce(events[0].message, events[1..], id);
    } else {
      SeenEventsChangeNothing(None, events[1..], id);
      ReplayFromNoneKeepsId(events[1..], id);
    }
  }

  lemma {:induction false} ReplayFromNoneKeepsId(events: seq<Event>, id: Id)
    requires Replay(None, events, id).Some?
    ensures Replay(None, events, id).value.id == id
    decreases |events|
  {
    if events[0].Created? && events[0].message.id == id {
      ReplayKeepsId(events[0].message, events[1..], id);
    } else {
      ReplayFromNoneKeepsId(events[1..], id);
    }
  }

  // ---------- The deletion of a group ----------

  /** The group that each message of the table belongs to. */
  function GroupsOf(s: Server): map<Id, Group> {
    map id | id in Table(s) :: Table(s)[id].group
  }

  lemma LastLeaveIs(db: G.Db, user: G.User, group: Group, me: G.MemberId)
    requires G.Valid(db) && G.IsMember(db.members, me, group, user) && G.IsOwner(db.members, me, group)
    requires forall id :: !G.IsOther(db.members, id, group, user)
    ensures G.Apply(db, G.Leave(user, group)) == G.DeleteGroup(db, group)
  {
    G.FoundMemberIsUnique(db.members, me, group, user);
    assert G.FindSuccessor(db.members, group, user).None?;
  }

  /** The leave of a group's last member is DeleteGroup: the same messages go, and nobody hears of it. */
  lemma LastLeaveDeletes(db: G.Db, s: Server, user: G.User, group: Group, me: G.MemberId)
    requires G.Valid(db) && db.messages == GroupsOf(s) && group !in s.gone
    requires G.IsMember(db.members, me, group, user) && G.IsOwner(db.members, me, group)
    requires forall id :: !G.IsOther(db.members, id, group, user)
    ensures var after, left := Apply(s, DeleteGroup(group)), G.Apply(db, G.Leave(user, group));
      && group !in left.groups && left.messages == GroupsOf(after)
      && left.log == db.log && after.log == s.log
      && (forall id :: id in Table(after) <==> id in Table(s) && Table(s)[id].group != group)
  {
    LastLeaveIs(db, user, group, me);
    var after := Apply(s, DeleteGroup(group));
    assert forall id :: id in Table(after) <==> id in Table(s) && Table(s)[id].group != group;
  }
}
