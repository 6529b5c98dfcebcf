/**
 The reaction table and the toggle, one database statement at a time, with any number of toggles
 under way at once, while groups are deleted with their messages and reactions.
 */
module Reactions {
  import MessageTable

  type Group = nat
  type MessageId = nat
  type User = nat

  datatype Entry = Entry(message: MessageId, user: User, emoji: string)

  // ---------- Statements ----------

  predicate Holds(rows: map<nat, Entry>, entry: Entry) {
    exists id :: id in rows && rows[id] == entry
  }

  /** `@@unique([messageId, userId, emoji])`. */
  ghost predicate Unique(rows: map<nat, Entry>) {
    forall a, b | a in rows && b in rows && rows[a] == rows[b] :: a == b
  }

  /** Every reaction belongs to a message. */
  ghost predicate Refer(messages: map<MessageId, Group>, rows: map<nat, Entry>) {
    forall id | id in rows :: rows[id].message in messages
  }

  predicate InGroup(messages: map<MessageId, Group>, message: MessageId, group: Group) {
    message in messages && messages[message] == group
  }

  /** Deleting a group: the cascade from Group to Message, and from Message to Reaction. */
  function MessagesLeft(messages: map<MessageId, Group>, group: Group): map<MessageId, Group> {
    map m | m in messages && messages[m] != group :: messages[m]
  }

  function ReactionsLeft(messages: map<MessageId, Group>, rows: map<nat, Entry>, group: Group): map<nat, Entry> {
    map id | id in rows && !InGroup(messages, rows[id].message, group) :: rows[id]
  }

  /** `deleteMany`, which also reports how many rows it removed. */
  function Deleted(rows: map<nat, Entry>, entry: Entry): map<nat, Entry> {
    map id | id in rows && rows[id] != entry :: rows[id]
  }

  function DeletedCount(rows: map<nat, Entry>, entry: Entry): nat {
    |set id | id in rows && rows[id] == entry|
  }

  /** `create`; a second row of one entry is refused with P2002 and the table is as it was. */
  function Created(rows: map<nat, Entry>, entry: Entry, id: nat): map<nat, Entry> {
    if Holds(rows, entry) then rows else rows[id := entry]
  }

  function ReactionsOf(rows: map<nat, Entry>, message: MessageId): set<MessageTable.Reaction> {
    set id | id in rows && rows[id].message == message :: MessageTable.Reaction(rows[id].emoji, rows[id].user)
  }

  lemma CountIsPresence(rows: map<nat, Entry>, entry: Entry)
    requires Unique(rows)
    ensures DeletedCount(rows, entry) == if Holds(rows, entry) then 1 else 0
  {
    var matching := set id | id in rows && rows[id] == entry;
    if id :| id in rows && rows[id] == entry {
      assert matching == {id};
    } else {
      assert matching == {};
    }
  }

  lemma DeleteRemoves(rows: map<nat, Entry>, entry: Entry, other: Entry)
    requires Unique(rows)
    ensures Unique(Deleted(rows, entry))
    ensures Holds(Deleted(rows, entry), other) <==> other != entry && Holds(rows, other)
  {
    if other != entry && Holds(rows, other) {
      var id :| id in rows && rows[id] == other;
      assert id in Deleted(rows, entry);
    }
  }

  lemma CreateAdds(rows: map<nat, Entry>, entry: Entry, id: nat, other: Entry)
    requires Unique(rows) && id !in rows
    ensures Unique(Created(rows, entry, id))
    ensures Holds(Created(rows, entry, id), other) <==> other == entry || Holds(rows, other)
  {
    if !Holds(rows, entry) {
      var after := rows[id := entry];
      assert after[id] == entry;
      if Holds(rows, other) {
        var kept :| kept in rows && rows[kept] == other;
        assert after[kept] == other;
      }
    }
  }

  lemma CascadeRemoves(messages: map<MessageId, Group>, rows: map<nat, Entry>, group: Group, other: Entry)
    requires Unique(rows) && Refer(messages, rows)
    ensures var left := ReactionsLeft(messages, rows, group);
      && Unique(left) && Refer(MessagesLeft(messages, group), left)
      && (Holds(left, other) <==> Holds(rows, other) && !InGroup(messages, other.message, group))
  {
    if Holds(rows, other) && !InGroup(messages, other.message, group) {
      var id :| id in rows && rows[id] == other;
      assert id in ReactionsLeft(messages, rows, group);
    }
  }

  lemma ReactionsAreEntries(rows: map<nat, Entry>, message: MessageId, r: MessageTable.Reaction)
    ensures r in ReactionsOf(rows, message) <==> Holds(rows, Entry(message, r.user, r.emoji))
  {}

  // ---------- Concurrent toggles ----------

  datatype Did = Nothing | Removed | Added | FoundAdded

  /** Where a call stands: the statement it is about to issue, or how it ended. */
  datatype Stage =
    | Checking | Deleting | Inserting | Reading
    | Answered(reactions: set<MessageTable.Reaction>)
    | NotFound   // at its check the message was not in the group
    | Failed     // at its insert the message was gone: a foreign-key error

  datatype Call = Call(group: Group, entry: Entry, stage: Stage, did: Did)

  datatype Emission = Emission(group: Group, message: MessageId, reactions: set<MessageTable.Reaction>)

  datatype World = World(
    messages: map<MessageId, Group>,
    rows: map<nat, Entry>,
    calls: seq<Call>,
    emitted: seq<Emission>)

  datatype Action =
    | Begin(group: Group, entry: Entry)
    | Advance(call: nat, id: nat)  // the call's next statement; an insert would get this row id
    | DeleteGroup(group: Group)    // its last member leaves

  function AfterCheck(w: World, c: Call): Call {
    if InGroup(w.messages, c.entry.message, c.group) then c.(stage := Deleting)
    else c.(stage := NotFound)
  }

  function AdvanceCall(w: World, i: nat, id: nat): World
    requires i < |w.calls|
  {
    var c := w.calls[i];
    match c.stage
    case Checking => w.(calls := w.calls[i := AfterCheck(w, c)])
    case Deleting =>
      w.(rows := Deleted(w.rows, c.entry),
         calls := w.calls[i := if DeletedCount(w.rows, c.entry) == 0 then c.(stage := Inserting)
                               else c.(stage := Reading, did := Removed)])
    case Inserting =>
      if c.entry.message !in w.messages then w.(calls := w.calls[i := c.(stage := Failed)])
      else w.(rows := Created(w.rows, c.entry, id),
         calls := w.calls[i := c.(stage := Reading, did := if Holds(w.rows, c.entry) then FoundAdded else Added)])
    case Reading =>
      var reactions := ReactionsOf(w.rows, c.entry.message);
      w.(calls := w.calls[i := c.(stage := Answered(reactions))],
         emitted := w.emitted + [Emission(c.group, c.entry.message, reactions)])
    case Answered(_) => w
    case NotFound => w
    case Failed => w
  }

  function Step(w: World, a: Action): World {
    match a
    case Begin(group, entry) => w.(calls := w.calls + [Call(group, entry, Checking, Nothing)])
    case Advance(i, id) => if i < |w.calls| && id !in w.rows then AdvanceCall(w, i, id) else w
    case DeleteGroup(group) =>
      w.(messages := MessagesLeft(w.messages, group), rows := ReactionsLeft(w.messages, w.rows, group))
  }

  function Run(w: World, actions: seq<Action>): World
    decreases |actions|
  {
    if actions == [] then w else Run(Step(w, actions[0]), actions[1..])
  }

  // ---------- Conservation ----------

  function Delta(c: Call, entry: Entry): int {
    if c.entry != entry then 0 else if c.did == Added then 1 else if c.did == Removed then -1 else 0
  }

  /** Additions less removals of one entry by all calls so far. */
  function Net(calls: seq<Call>, entry: Entry): int {
    if calls == [] then 0 else Net(calls[..|calls| - 1], entry) + Delta(calls[|calls| - 1], entry)
  }

  function Presence(rows: map<nat, Entry>, entry: Entry): int {
    if Holds(rows, entry) then 1 else 0
  }

  lemma {:induction false} NetUpdate(calls: seq<Call>, i: nat, c: Call, entry: Entry)
    requires i < |calls|
    ensures Net(calls[i := c], entry) == Net(calls, entry) - Delta(calls[i], entry) + Delta(c, entry)
  {
    var n := |calls| - 1;
    if i == n {
      assert calls[i := c][..n] == calls[..n];
    } else {
      assert calls[i := c][..n] == calls[..n][i := c];
      NetUpdate(calls[..n], i, c, entry);
    }
  }

  /** A call has done nothing before its delete or insert, and exactly one thing after. */
  predicate CallOk(c: Call) {
    match c.stage
    case Checking => c.did == Nothing
    case Deleting => c.did == Nothing
    case Inserting => c.did == Nothing
    case Reading => c.did != Nothing
    case Answered(_) => c.did != Nothing
    case NotFound => c.did == Nothing
    case Failed => c.did == Nothing
  }

  ghost predicate Good(w: World) {
    Unique(w.rows) && Refer(w.messages, w.rows) && forall i | 0 <= i < |w.calls| :: CallOk(w.calls[i])
  }

  lemma AdvanceConserves(w: World, i: nat, id: nat, entry: Entry)
    requires Unique(w.rows) && Refer(w.messages, w.rows) && i < |w.calls| && CallOk(w.calls[i]) && id !in w.rows
    ensures var after := AdvanceCall(w, i, id);
      && Unique(after.rows) && Refer(w.messages, after.rows) && after.messages == w.messages
      && |after.calls| == |w.calls| && CallOk(after.calls[i])
      && after.calls == w.calls[i := after.calls[i]]
      && Delta(after.calls[i], entry) - Delta(w.calls[i], entry)
         == Presence(after.rows, entry) - Presence(w.rows, entry)
  {
    var c := w.calls[i];
    if c.stage.Deleting? {
      CountIsPresence(w.rows, c.entry);
      DeleteRemoves(w.rows, c.entry, entry);
    } else if c.stage.Inserting? {
      CreateAdds(w.rows, c.entry, id, entry);
    }
  }

  /** One statement: what a call adds to or takes from the table is what it reports, for every entry that can be. */
  lemma StepConserves(w: World, a: Action, entry: Entry)
    requires Good(w)
    ensures Good(Step(w, a)) && Step(w, a).messages.Keys <= w.messages.Keys
    ensures forall m | m in Step(w, a).messages :: Step(w, a).messages[m] == w.messages[m]
    ensures entry.message in Step(w, a).messages ==>
      Net(Step(w, a).calls, entry) - Net(w.calls, entry)
      == Presence(Step(w, a).rows, entry) - Presence(w.rows, entry)
  {
    match a
    case Begin(group, e) =>
      assert Step(w, a).calls[..|w.calls|] == w.calls;
    case Advance(i, id) =>
      if i < |w.calls| && id !in w.rows {
        AdvanceConserves(w, i, id, entry);
        NetUpdate(w.calls, i, Step(w, a).calls[i], entry);
      }
    case DeleteGroup(group) => CascadeRemoves(w.messages, w.rows, group, entry);
  }

  lemma {:induction false} RunConserves(w: World, actions: seq<Action>, entry: Entry)
    requires Good(w)
    ensures Good(Run(w, actions)) && Run(w, actions).messages.Keys <= w.messages.Keys
    ensures forall m | m in Run(w, actions).messages :: Run(w, actions).messages[m] == w.messages[m]
    ensures entry.message in Run(w, actions).messages ==>
      Net(Run(w, actions).calls, entry) - Net(w.calls, entry)
      == Presence(Run(w, actions).rows, entry) - Presence(w.rows, entry)
    decreases |actions|
  {
    if actions != [] {
      StepConserves(w, actions[0], entry);
      RunConserves(Step(w, actions[0]), actions[1..], entry);
    }
  }

  function Open(messages: map<MessageId, Group>, rows: map<nat, Entry>): World {
    World(messages, rows, [], [])
  }

  /** Tables as the constraints of the schema allow them. */
  ghost predicate Tables(messages: map<MessageId, Group>, rows: map<nat, Entry>) {
    Unique(rows) && Refer(messages, rows)
  }

  /**
   However toggles interleave, no entry is ever held twice; the additions less the removals of an entry are
   the change in its presence as long as its message is there, and afterwards it is not held.
   */
  lemma TogglesConserve(messages: map<MessageId, Group>, rows: map<nat, Entry>, actions: seq<Action>, entry: Entry)
    requires Tables(messages, rows)
    ensures var w := Run(Open(messages, rows), actions);
      && Unique(w.rows)
      && (if entry.message in w.messages then Net(w.calls, entry) == Presence(w.rows, entry) - Presence(rows, entry)
          else !Holds(w.rows, entry))
  {
    RunConserves(Open(messages, rows), actions, entry);
  }

  // ---------- What one call does ----------

  /** Where a call stands tells where its message has been. */
  predicate StandsRightly(messages: map<MessageId, Group>, now: map<MessageId, Group>, c: Call) {
    match c.stage
    case Checking => true
    case NotFound => InGroup(messages, c.entry.message, c.group) ==> c.entry.message !in now
    case Failed => InGroup(messages, c.entry.message, c.group) && c.entry.message !in now
    case _ => InGroup(messages, c.entry.message, c.group)
  }

  ghost predicate AllStandRightly(messages: map<MessageId, Group>, w: World) {
    && w.messages.Keys <= messages.Keys && (forall m | m in w.messages :: w.messages[m] == messages[m])
    && forall i | 0 <= i < |w.calls| :: StandsRightly(messages, w.messages, w.calls[i])
  }

  lemma {:induction false} RunStandsRightly(messages: map<MessageId, Group>, w: World, actions: seq<Action>)
    requires AllStandRightly(messages, w)
    ensures AllStandRightly(messages, Run(w, actions))
    decreases |actions|
  {
    if actions != [] {
      assert forall i | 0 <= i < |w.calls| :: StandsRightly(messages, w.messages, w.calls[i]);
      RunStandsRightly(messages, Step(w, actions[0]), actions[1..]);
    }
  }

  /**
   Every call that is past its statements did exactly one thing. One fails only for a message that was never
   in the group, or that has been deleted with it: its next statement fails if and only if that is its check
   and the message is not in the group, or its insert and the message is gone. A duplicate never fails one.
   */
  lemma EveryCallDoesOneThing(messages: map<MessageId, Group>, rows: map<nat, Entry>, actions: seq<Action>, i: nat,
                              id: nat)
    requires Tables(messages, rows) && i < |Run(Open(messages, rows), actions).calls|
    ensures var w := Run(Open(messages, rows), actions);
      var c, next := w.calls[i], AdvanceCall(w, i, id).calls[i];
      && (c.stage.Answered? || c.stage.Reading? <==> c.did != Nothing)
      && (InGroup(w.messages, c.entry.message, c.group) ==> !c.stage.NotFound? && !c.stage.Failed?)
      && (c.stage.Failed? ==> InGroup(messages, c.entry.message, c.group))
      && (UnderWay(c) ==>
            (!UnderWay(next) && !next.stage.Answered? <==>
               || (c.stage.Checking? && !InGroup(w.messages, c.entry.message, c.group))
               || (c.stage.Inserting? && !InGroup(w.messages, c.entry.message, c.group))))
  {
    RunConserves(Open(messages, rows), actions, Entry(0, 0, ""));
    RunStandsRightly(messages, Open(messages, rows), actions);
    var w := Run(Open(messages, rows), actions);
    assert CallOk(w.calls[i]) && StandsRightly(messages, w.messages, w.calls[i]);
  }

  /** A call changes no entry but its own, and every broadcast is the message's whole set at that moment. */
  lemma OtherEntriesAreUntouched(w: World, a: Action, entry: Entry)
    requires Good(w) && (a.Advance? && a.call < |w.calls| ==> entry != w.calls[a.call].entry)
    ensures Holds(Step(w, a).rows, entry) <==>
      Holds(w.rows, entry) && !(a.DeleteGroup? && InGroup(w.messages, entry.message, a.group))
    ensures w.emitted <= Step(w, a).emitted
    ensures forall i | |w.emitted| <= i < |Step(w, a).emitted| ::
      Step(w, a).emitted[i].reactions == ReactionsOf(Step(w, a).rows, Step(w, a).emitted[i].message)
  {
    if a.Advance? && a.call < |w.calls| && a.id !in w.rows {
      DeleteRemoves(w.rows, w.calls[a.call].entry, entry);
      CreateAdds(w.rows, w.calls[a.call].entry, a.id, entry);
    } else if a.DeleteGroup? {
      CascadeRemoves(w.messages, w.rows, a.group, entry);
    }
  }

  // ---------- One toggle at a time ----------

  /** A whole toggle with nothing in between. */
  function Toggle(rows: map<nat, Entry>, entry: Entry, id: nat): map<nat, Entry> {
    if DeletedCount(rows, entry) == 0 then Created(Deleted(rows, entry), entry, id) else Deleted(rows, entry)
  }

  /** Undisturbed, a toggle flips its entry and nothing else, as the one-step model of it does. */
  lemma ToggleFlips(rows: map<nat, Entry>, entry: Entry, id: nat, other: Entry)
    requires Unique(rows) && id !in rows
    ensures var after := Toggle(rows, entry, id);
      && Unique(after)
      && (Holds(after, other) <==> (if other == entry then !Holds(rows, entry) else Holds(rows, other)))
  {
    CountIsPresence(rows, entry);
    DeleteRemoves(rows, entry, other);
    CreateAdds(Deleted(rows, entry), entry, id, other);
  }

  /** The message table's toggle leaves the same set on the message, and announces it. */
  lemma ToggleOfTheMessageTable(rows: map<nat, Entry>, entry: Entry, id: nat, s: MessageTable.Server)
    requires Unique(rows) && id !in rows
    requires entry.message in MessageTable.Table(s)
    requires s.rows[entry.message].reactions == ReactionsOf(rows, entry.message)
    ensures var group := s.rows[entry.message].group;
      var after := MessageTable.Apply(s, MessageTable.Toggle(group, entry.message, entry.user, entry.emoji));
      var reactions := ReactionsOf(Toggle(rows, entry, id), entry.message);
      && after.rows == s.rows[entry.message := s.rows[entry.message].(reactions := reactions)]
      && after.log == s.log + [MessageTable.Reacted(group, entry.message, reactions)]
  {
    ToggleIsTheOneStepToggle(rows, entry, id);
  }

  lemma ToggleIsTheOneStepToggle(rows: map<nat, Entry>, entry: Entry, id: nat)
    requires Unique(rows) && id !in rows
    ensures ReactionsOf(Toggle(rows, entry, id), entry.message)
         == MessageTable.Toggled(ReactionsOf(rows, entry.message), MessageTable.Reaction(entry.emoji, entry.user))
  {
    var mine := MessageTable.Reaction(entry.emoji, entry.user);
    var before, after := ReactionsOf(rows, entry.message), ReactionsOf(Toggle(rows, entry, id), entry.message);
    forall r: MessageTable.Reaction ensures r in after <==> r in MessageTable.Toggled(before, mine) {
      ToggleFlips(rows, entry, id, Entry(entry.message, r.user, r.emoji));
      ReactionsAreEntries(rows, entry.message, r);
      ReactionsAreEntries(Toggle(rows, entry, id), entry.message, r);
      ReactionsAreEntries(rows, entry.message, mine);
    }
  }

  /** A call that nothing interrupts is one whole toggle, and answers with the set it leaves. */
  lemma SoloCallIsAToggle(w: World, i: nat, id: nat)
    requires Unique(w.rows) && i < |w.calls| && w.calls[i].stage.Checking? && id !in w.rows
    requires InGroup(w.messages, w.calls[i].entry.message, w.calls[i].group)
    ensures var entry := w.calls[i].entry;
      var after := AdvanceCall(AdvanceCall(AdvanceCall(AdvanceCall(w, i, id), i, id), i, id), i, id);
      && after.rows == Toggle(w.rows, entry, id)
      && after.calls[i].stage == Answered(ReactionsOf(after.rows, entry.message))
      && after.calls[i].did == (if Holds(w.rows, entry) then Removed else Added)
      && after.emitted
         == w.emitted + [Emission(w.calls[i].group, entry.message, ReactionsOf(after.rows, entry.message))]
  {
    CountIsPresence(w.rows, w.calls[i].entry);
    DeleteRemoves(w.rows, w.calls[i].entry, w.calls[i].entry);
  }

  /** A run of one call: the request comes in, and its statements follow one another. */
  lemma OneCallToggles(messages: map<MessageId, Group>, rows: map<nat, Entry>, group: Group, entry: Entry, id: nat)
    requires Unique(rows) && id !in rows && InGroup(messages, entry.message, group)
    ensures var begun := Step(Open(messages, rows), Begin(group, entry));
      var end := Step(Step(Step(Step(begun, Advance(0, id)), Advance(0, id)), Advance(0, id)), Advance(0, id + 1));
      Holds(rows, entry) ==> end.rows == Toggle(rows, entry, id) && |end.calls| == 1
    ensures var begun := Step(Open(messages, rows), Begin(group, entry));
      begun.calls == [Call(group, entry, Checking, Nothing)]
  {
    CountIsPresence(rows, entry);
  }

  // ---------- Parity ----------

  /** The calls for an entry that have flipped its presence. */
  function Flips(calls: seq<Call>, entry: Entry): nat {
    if calls == [] then 0
    else
      var last := calls[|calls| - 1];
      Flips(calls[..|calls| - 1], entry) + if last.entry == entry && last.did in {Added, Removed} then 1 else 0
  }

  /** The calls for an entry that are past their statements. */
  function Acted(calls: seq<Call>, entry: Entry): nat {
    if calls == [] then 0
    else
      var last := calls[|calls| - 1];
      Acted(calls[..|calls| - 1], entry) + if last.entry == entry && last.did != Nothing then 1 else 0
  }

  lemma {:induction false} NetIsFlipsModulo2(calls: seq<Call>, entry: Entry)
    ensures Net(calls, entry) % 2 == Flips(calls, entry) % 2
  {
    if calls != [] {
      NetIsFlipsModulo2(calls[..|calls| - 1], entry);
    }
  }

  predicate NoneFound(calls: seq<Call>, entry: Entry) {
    forall i | 0 <= i < |calls| && calls[i].entry == entry :: calls[i].did != FoundAdded
  }

  lemma {:induction false} NoneFoundMeansAllFlip(calls: seq<Call>, entry: Entry)
    requires NoneFound(calls, entry)
    ensures Flips(calls, entry) == Acted(calls, entry)
  {
    if calls != [] {
      NoneFoundMeansAllFlip(calls[..|calls| - 1], entry);
    }
  }

  predicate UnderWay(c: Call) {
    !c.stage.Answered? && !c.stage.NotFound? && !c.stage.Failed?
  }

  /** Calls for the entry do not overlap: one begins only when all before it have ended. */
  predicate Apart(w: World, a: Action, entry: Entry) {
    a.Begin? && a.entry == entry ==> forall i | 0 <= i < |w.calls| && w.calls[i].entry == entry :: !UnderWay(w.calls[i])
  }

  predicate AllApart(w: World, actions: seq<Action>, entry: Entry)
    decreases |actions|
  {
    actions == [] || (Apart(w, actions[0], entry) && AllApart(Step(w, actions[0]), actions[1..], entry))
  }

  /** One call for the entry under way at most, and between its delete and its create nobody adds the entry. */
  predicate OneAtATime(w: World, entry: Entry) {
    && (forall i, j | 0 <= i < j < |w.calls| && w.calls[i].entry == entry && w.calls[j].entry == entry ::
          !UnderWay(w.calls[i]) || !UnderWay(w.calls[j]))
    && (forall i | 0 <= i < |w.calls| && w.calls[i].entry == entry && w.calls[i].stage.Inserting? ::
          !Holds(w.rows, entry))
    && NoneFound(w.calls, entry)
  }

  lemma AdvanceKeepsOneAtATime(w: World, i: nat, id: nat, entry: Entry)
    requires Good(w) && OneAtATime(w, entry) && i < |w.calls| && id !in w.rows
    ensures OneAtATime(AdvanceCall(w, i, id), entry)
  {
    var c := w.calls[i];
    CountIsPresence(w.rows, c.entry);
    DeleteRemoves(w.rows, c.entry, entry);
    CreateAdds(w.rows, c.entry, id, entry);
    var after := AdvanceCall(w, i, id);
    assert forall j | 0 <= j < |w.calls| && j != i :: after.calls[j] == w.calls[j];
    assert UnderWay(after.calls[i]) ==> UnderWay(c);
  }

  lemma StepKeepsOneAtATime(w: World, a: Action, entry: Entry)
    requires Good(w) && OneAtATime(w, entry) && Apart(w, a, entry)
    ensures OneAtATime(Step(w, a), entry)
  {
    match a
    case Begin(_, _) =>
    case Advance(i, id) =>
      if i < |w.calls| && id !in w.rows {
        AdvanceKeepsOneAtATime(w, i, id, entry);
      }
    case DeleteGroup(group) => CascadeRemoves(w.messages, w.rows, group, entry);
  }

  lemma {:induction false} RunKeepsOneAtATime(w: World, actions: seq<Action>, entry: Entry)
    requires Good(w) && OneAtATime(w, entry) && AllApart(w, actions, entry)
    ensures OneAtATime(Run(w, actions), entry)
    decreases |actions|
  {
    if actions != [] {
      StepKeepsOneAtATime(w, actions[0], entry);
      StepConserves(w, actions[0], entry);
      RunKeepsOneAtATime(Step(w, actions[0]), actions[1..], entry);
    }
  }

  /**
   In every run, as long as its message is there, an entry is there as at the start if and only if an even
   number of its calls have flipped it; and if its calls do not overlap, whatever other calls do, every one
   of them that is past its statements flipped it.
   */
  lemma Parity(messages: map<MessageId, Group>, rows: map<nat, Entry>, actions: seq<Action>, entry: Entry)
    requires Tables(messages, rows)
    ensures var w := Run(Open(messages, rows), actions);
      && (entry.message in w.messages ==>
            (Holds(w.rows, entry) <==> (Holds(rows, entry) <==> Flips(w.calls, entry) % 2 == 0)))
      && (AllApart(Open(messages, rows), actions, entry) ==> Flips(w.calls, entry) == Acted(w.calls, entry))
  {
    var w := Run(Open(messages, rows), actions);
    TogglesConserve(messages, rows, actions, entry);
    NetIsFlipsModulo2(w.calls, entry);
    if AllApart(Open(messages, rows), actions, entry) {
      RunKeepsOneAtATime(Open(messages, rows), actions, entry);
      NoneFoundMeansAllFlip(w.calls, entry);
    }
  }
}
