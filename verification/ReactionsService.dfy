/** `ReactionsService.toggle`, statement by statement, with other requests running at each await. */
module ReactionsService {
  import opened Reactions

  /** The two tables. */
  datatype Store = Store(messages: map<MessageId, Group>, rows: map<nat, Entry>)

  /** A statement of another request. */
  datatype Change = Remove(entry: Entry) | Insert(entry: Entry, id: nat) | Cascade(group: Group)

  function Changed(s: Store, c: Change): Store {
    match c
    case Remove(entry) => s.(rows := Deleted(s.rows, entry))
    case Insert(entry, id) =>
      if id in s.rows || entry.message !in s.messages then s else s.(rows := Created(s.rows, entry, id))
    case Cascade(group) => Store(MessagesLeft(s.messages, group), ReactionsLeft(s.messages, s.rows, group))
  }

  function ChangedAll(s: Store, changes: seq<Change>): Store {
    if changes == [] then s else Changed(ChangedAll(s, changes[..|changes| - 1]), changes[|changes| - 1])
  }

  lemma {:induction false} ChangesKeepTables(s: Store, changes: seq<Change>)
    requires Tables(s.messages, s.rows)
    ensures Tables(ChangedAll(s, changes).messages, ChangedAll(s, changes).rows)
  {
    if changes != [] {
      ChangesKeepTables(s, changes[..|changes| - 1]);
    }
  }

  /** What other requests do while a toggle waits for the database, before each of its statements. */
  datatype Interference = Interference(beforeDelete: seq<Change>, beforeCreate: seq<Change>, beforeRead: seq<Change>)

  /** What `create` answers: a new row, P2002, or a foreign-key error. */
  datatype Creation = New | Duplicate | NoMessage

  class Service {
    var messages: map<MessageId, Group>
    var rows: map<nat, Entry>
    var emitted: seq<Emission>

    ghost function View(): Store
      reads this
    {
      Store(messages, rows)
    }

    constructor (messages: map<MessageId, Group>)
      ensures View() == Store(messages, map[]) && emitted == []
    {
      this.messages := messages;
      rows, emitted := map[], [];
    }

    method Others(changes: seq<Change>)
      modifies this`messages, this`rows
      ensures View() == ChangedAll(old(View()), changes)
    {
      var i := 0;
      while i < |changes|
        invariant 0 <= i <= |changes|
        invariant View() == ChangedAll(old(View()), changes[..i])
      {
        assert changes[..i + 1][..i] == changes[..i];
        var after := Changed(Store(messages, rows), changes[i]);
        messages, rows := after.messages, after.rows;
        i := i + 1;
      }
      assert changes[..i] == changes;
    }

    method DeleteMany(entry: Entry) returns (count: nat)
      modifies this`rows
      ensures rows == Deleted(old(rows), entry) && count == DeletedCount(old(rows), entry)
    {
      count := |set id | id in rows && rows[id] == entry|;
      rows := map id | id in rows && rows[id] != entry :: rows[id];
    }

    method Create(entry: Entry, id: nat) returns (result: Creation)
      requires id !in rows
      modifies this`rows
      ensures rows == if result == New then old(rows)[id := entry] else old(rows)
      ensures result == NoMessage <==> entry.message !in messages
      ensures result == Duplicate <==> entry.message in messages && Holds(old(rows), entry)
    {
      if entry.message !in messages {
        return NoMessage;
      }
      if exists other :: other in rows && rows[other] == entry {
        return Duplicate;
      }
      rows := rows[id := entry];
      return New;
    }

    /**
     How the call ends. Past its check, the entry that was there at the delete is gone right after it; the
     entry that was not is there right after the create, whoever put it there, or the create fails because
     the message is gone; and the answer and the broadcast are the message's whole set as it stands at the read.
     */
    method Toggle(group: Group, message: MessageId, user: User, emoji: string, id: nat, others: Interference)
      returns (end: Stage, did: Did)
      requires Tables(messages, rows)
      requires var atDelete := ChangedAll(View(), others.beforeDelete);
        id !in ChangedAll(atDelete.(rows := Deleted(atDelete.rows, Entry(message, user, emoji))),
                          others.beforeCreate).rows
      modifies this
      ensures Tables(messages, rows)
      ensures end.NotFound? <==> !InGroup(old(messages), message, group)
      ensures end.NotFound? ==> View() == old(View()) && emitted == old(emitted) && did == Nothing
      ensures !end.NotFound? ==>
        var entry := Entry(message, user, emoji);
        var atDelete := ChangedAll(old(View()), others.beforeDelete);
        var deleted := atDelete.(rows := Deleted(atDelete.rows, entry));
        var atCreate := ChangedAll(deleted, others.beforeCreate);
        var absent := !Holds(atDelete.rows, entry);
        && (end.Failed? <==> absent && message !in atCreate.messages)
        && (end.Failed? ==> View() == atCreate && emitted == old(emitted) && did == Nothing)
        && (!end.Failed? ==>
              && did == (if !absent then Removed else if Holds(atCreate.rows, entry) then FoundAdded else Added)
              && View() == ChangedAll(
                   match did
                   case Removed => deleted
                   case Added => atCreate.(rows := atCreate.rows[id := entry])
                   case _ => atCreate,
                   others.beforeRead)
              && end == Answered(ReactionsOf(rows, message))
              && emitted == old(emitted) + [Emission(group, message, end.reactions)])
    {
      if !InGroup(messages, message, group) {
        return NotFound, Nothing;
      }
      var entry := Entry(message, user, emoji);
      Others(others.beforeDelete);
      ChangesKeepTables(old(View()), others.beforeDelete);
      CountIsPresence(rows, entry);
      DeleteRemoves(rows, entry, entry);
      var removed := DeleteMany(entry);
      did := Removed;
      if removed == 0 {
        ChangesKeepTables(View(), others.beforeCreate);
        Others(others.beforeCreate);
        CreateAdds(rows, entry, id, entry);
        var result := Create(entry, id);
        if result == NoMessage {
          return Failed, Nothing;
        }
        did := if result == New then Added else FoundAdded;
      }
      ChangesKeepTables(View(), others.beforeRead);
      Others(others.beforeRead);
      var reactions := ReactionsOf(rows, message);
      emitted := emitted + [Emission(group, message, reactions)];
      return Answered(reactions), did;
    }
  }
}
