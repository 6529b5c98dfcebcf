/**
 One group's member list as one browser sees it, against the server: requests are served, events
 arrive in the order they were emitted but arbitrarily late, and the group's detail is fetched and
 installed while older events are still on the way.
 */
module MemberView {
  import opened Wrappers
  import opened GroupTable
  import opened MemberCache
  import opened MissedMembers

  // ---------- The detail the server answers with ----------

  ghost function ServerFind(members: map<MemberId, Member>, group: GroupId, user: User): Option<Member> {
    match FindMember(members, group, user)
    case Some(id) => Some(members[id])
    case None => None
  }

  predicate InJoinOrder(list: seq<Member>) {
    forall i, j | 0 <= i < j < |list| :: list[i].joinedAt <= list[j].joinedAt
  }

  /** The list holds exactly the group's rows. */
  ghost predicate IsExact(members: map<MemberId, Member>, group: GroupId, list: seq<Member>) {
    forall m :: m in list <==> exists id :: id in members && members[id] == m && m.group == group
  }

  /** What `findOne` answers: each membership of the group once, in join order. */
  ghost predicate IsDetail(members: map<MemberId, Member>, group: GroupId, list: seq<Member>) {
    && NobodyListedTwice(list)
    && InJoinOrder(list)
    && IsExact(members, group, list)
  }

  lemma {:induction false} RowsInJoinOrder(members: map<MemberId, Member>, group: GroupId, ids: set<MemberId>)
    returns (list: seq<Member>)
    requires NobodyTwice(members) && ids <= members.Keys && forall id | id in ids :: members[id].group == group
    ensures NobodyListedTwice(list) && InJoinOrder(list)
    ensures forall m :: m in list <==> exists id :: id in ids && members[id] == m
    decreases |ids|
  {
    if ids == {} {
      list := [];
    } else {
      var first := EarliestExists(members, ids);
      var rest := RowsInJoinOrder(members, group, ids - {first});
      list := [members[first]] + rest;
      forall m ensures m in list <==> exists id :: id in ids && members[id] == m {
        if id :| id in ids && members[id] == m {
          assert id == first || id in ids - {first};
        }
      }
      forall j | 0 < j < |list| ensures list[0].user != list[j].user && list[0].joinedAt <= list[j].joinedAt {
        assert rest[j - 1] in rest;
      }
    }
  }

  /** There is always an answer, so that a fetch is never blocked. */
  lemma DetailExists(members: map<MemberId, Member>, group: GroupId) returns (list: seq<Member>)
    requires NobodyTwice(members)
    ensures IsDetail(members, group, list)
  {
    var ids := set id | id in members && members[id].group == group;
    list := RowsInJoinOrder(members, group, ids);
    forall m ensures m in list <==> exists id :: id in members && members[id] == m && m.group == group {
      if id :| id in members && members[id] == m && m.group == group {
        assert id in ids;
      }
    }
  }

  lemma {:induction false} FindIsMembership(list: seq<Member>, m: Member)
    requires NobodyListedTwice(list)
    ensures Find(list, m.user) == Some(m) <==> m in list
  {
    if list != [] {
      FindIsMembership(list[1..], m);
      assert m in list <==> m == list[0] || m in list[1..];
      if m in list[1..] {
        var i :| 0 <= i < |list[1..]| && list[1..][i] == m;
        assert list[i + 1] == m;
      }
    }
  }

  /** A list of exactly the group's rows has for each user the server's row. */
  lemma DetailFinds(members: map<MemberId, Member>, group: GroupId, list: seq<Member>, user: User)
    requires NobodyTwice(members) && NobodyListedTwice(list) && IsExact(members, group, list)
    ensures Find(list, user) == ServerFind(members, group, user)
  {
    FindIsListed(list, user);
    var row := ServerFind(members, group, user);
    if row.Some? {
      FindIsMembership(list, row.value);
    } else if Find(list, user).Some? {
      var m := Find(list, user).value;
      FindIsMembership(list, m);
      var id :| id in members && members[id] == m && m.group == group;
      assert IsMember(members, id, group, user);
    }
  }

  /** A list that agrees with the server on every user holds exactly the server's rows. */
  lemma AgreeingListIsExact(members: map<MemberId, Member>, group: GroupId, list: seq<Member>)
    requires NobodyTwice(members) && NobodyListedTwice(list)
    requires forall user :: Find(list, user) == ServerFind(members, group, user)
    ensures IsExact(members, group, list)
  {
    forall m ensures m in list <==> exists id :: id in members && members[id] == m && m.group == group {
      FindIsMembership(list, m);
      assert Find(list, m.user) == ServerFind(members, group, m.user);
      if id :| id in members && members[id] == m && m.group == group {
        FoundMemberIsUnique(members, id, group, m.user);
      }
    }
  }

  // ---------- What each request announces ----------

  lemma ServerFindIs(members: map<MemberId, Member>, id: MemberId, group: GroupId, user: User)
    requires NobodyTwice(members) && IsMember(members, id, group, user)
    ensures ServerFind(members, group, user) == Some(members[id])
  {
    FoundMemberIsUnique(members, id, group, user);
  }

  /** Rows of `user` in `group` that a write leaves alone are found unchanged. */
  lemma UntouchedIsFound(before: map<MemberId, Member>, after: map<MemberId, Member>, group: GroupId, user: User)
    requires NobodyTwice(before) && NobodyTwice(after)
    requires forall id :: IsMember(before, id, group, user) <==> IsMember(after, id, group, user)
    requires forall id | IsMember(before, id, group, user) && IsMember(after, id, group, user) ::
      before[id] == after[id]
    ensures ServerFind(before, group, user) == ServerFind(after, group, user)
  {
    var found := FindMember(before, group, user);
    if found.Some? {
      ServerFindIs(after, found.value, group, user);
    }
  }

  /** The row of `user` in `group` becomes `row`, and nothing else of that user in that group exists. */
  lemma WrittenIsFound(members: map<MemberId, Member>, id: MemberId, group: GroupId, user: User)
    requires NobodyTwice(members)
    requires id in members ==> IsMember(members, id, group, user)
    requires forall other | other != id :: !IsMember(members, other, group, user)
    ensures ServerFind(members, group, user) == if id in members then Some(members[id]) else None
  {
    if id in members {
      ServerFindIs(members, id, group, user);
    }
  }

  ghost predicate Announces(before: map<MemberId, Member>, after: map<MemberId, Member>, events: seq<Event>,
                            group: GroupId, user: User) {
    && InOrder(group, ServerFind(before, group, user), events, user)
    && Replay(group, ServerFind(before, group, user), events, user) == ServerFind(after, group, user)
  }

  lemma ReplayOne(group: GroupId, copy: Option<Member>, e: Event, user: User)
    ensures Replay(group, copy, [e], user) == SeeIn(group, copy, e, user)
    ensures InOrder(group, copy, [e], user) <==>
      (GroupOf(e) == group && Concerns(e, user) ==> (copy.None? <==> e.MemberJoined?))
  {
    assert [e][1..] == [];
  }

  lemma JoinAnnounces(members: map<MemberId, Member>, id: MemberId, member: Member, group: GroupId, user: User)
    requires NobodyTwice(members) && id !in members && FindMember(members, member.group, member.user).None?
    ensures Announces(members, members[id := member], [MemberJoined(member.group, member)], group, user)
  {
    var after := members[id := member];
    InsertKeepsMembers(members, id, member);
    ReplayOne(group, ServerFind(members, group, user), MemberJoined(member.group, member), user);
    if member.group == group && member.user == user {
      ServerFindIs(after, id, group, user);
    } else {
      UntouchedIsFound(members, after, group, user);
    }
  }

  lemma RemovalAnnounces(members: map<MemberId, Member>, me: MemberId, group: GroupId, user: User)
    requires NobodyTwice(members) && me in members
    ensures Announces(members, members - {me}, [MemberLeft(members[me].group, members[me].user)], group, user)
  {
    var after := members - {me};
    NoInsertKeepsMembers(members, after);
    ReplayOne(group, ServerFind(members, group, user), MemberLeft(members[me].group, members[me].user), user);
    if IsMember(members, me, group, user) {
      ServerFindIs(members, me, group, user);
      WrittenIsFound(after, me, group, user);
    } else {
      UntouchedIsFound(members, after, group, user);
    }
  }

  lemma StampAnnounces(members: map<MemberId, Member>, me: MemberId, at: int, group: GroupId, user: User)
    requires NobodyTwice(members) && me in members
    ensures Announces(members, members[me := members[me].(lastReadAt := Some(at))],
              [ReadMarked(members[me].group, members[me].user, at)], group, user)
  {
    var after := members[me := members[me].(lastReadAt := Some(at))];
    NoInsertKeepsMembers(members, after);
    ReplayOne(group, ServerFind(members, group, user), ReadMarked(members[me].group, members[me].user, at), user);
    if IsMember(members, me, group, user) {
      ServerFindIs(members, me, group, user);
      ServerFindIs(after, me, group, user);
    } else {
      UntouchedIsFound(members, after, group, user);
    }
  }

  lemma SwapAnnounces(members: map<MemberId, Member>, me: MemberId, other: MemberId, group: GroupId, user: User)
    requires NobodyTwice(members) && me in members && other in members && me != other
    requires members[me].group == members[other].group
    ensures Announces(members, WithRole(WithRole(members, other, OWNER), me, MEMBER),
              [OwnerChanged(members[me].group, members[me].user, members[other].user)], group, user)
  {
    var after := WithRole(WithRole(members, other, OWNER), me, MEMBER);
    NoInsertKeepsMembers(members, after);
    ReplayOne(group, ServerFind(members, group, user),
      OwnerChanged(members[me].group, members[me].user, members[other].user), user);
    if IsMember(members, me, group, user) {
      ServerFindIs(members, me, group, user);
      ServerFindIs(after, me, group, user);
    } else if IsMember(members, other, group, user) {
      ServerFindIs(members, other, group, user);
      ServerFindIs(after, other, group, user);
    } else {
      UntouchedIsFound(members, after, group, user);
    }
  }

  lemma AnnouncedInTurn(group: GroupId, copy: Option<Member>, a: Event, b: Event, user: User)
    ensures Replay(group, copy, [a, b], user) == SeeIn(group, SeeIn(group, copy, a, user), b, user)
    ensures InOrder(group, copy, [a, b], user) <==>
      InOrder(group, copy, [a], user) && InOrder(group, SeeIn(group, copy, a, user), [b], user)
  {
    ReplayOne(group, copy, a, user);
    ReplayOne(group, SeeIn(group, copy, a, user), b, user);
    assert [a, b][1..] == [b];
  }

  /** An owner's departure: `owner_changed`, then `member_left`. */
  lemma SuccessionAnnounces(members: map<MemberId, Member>, me: MemberId, next: MemberId, group: GroupId, user: User)
    requires NobodyTwice(members) && me in members && next in members && me != next
    requires members[me].group == members[next].group
    ensures Announces(members, WithRole(members, next, OWNER) - {me},
              [OwnerChanged(members[me].group, members[me].user, members[next].user),
               MemberLeft(members[me].group, members[me].user)], group, user)
  {
    var g, leaver, heir := members[me].group, members[me].user, members[next].user;
    var after := WithRole(members, next, OWNER) - {me};
    NoInsertKeepsMembers(members, after);
    var copy := ServerFind(members, group, user);
    AnnouncedInTurn(group, copy, OwnerChanged(g, leaver, heir), MemberLeft(g, leaver), user);
    ReplayOne(group, copy, OwnerChanged(g, leaver, heir), user);
    ReplayOne(group, SeeIn(group, copy, OwnerChanged(g, leaver, heir), user), MemberLeft(g, leaver), user);
    if IsMember(members, me, group, user) {
      ServerFindIs(members, me, group, user);
      WrittenIsFound(after, me, group, user);
    } else if IsMember(members, next, group, user) {
      ServerFindIs(members, next, group, user);
      ServerFindIs(after, next, group, user);
    } else {
      UntouchedIsFound(members, after, group, user);
    }
  }

  /** A request that emits nothing and leaves the group's rows alone. */
  lemma SilenceAnnounces(before: map<MemberId, Member>, after: map<MemberId, Member>, group: GroupId, user: User)
    requires NobodyTwice(before) && NobodyTwice(after)
    requires forall id | id in before && before[id].group == group :: id in after && after[id] == before[id]
    requires forall id | id in after && after[id].group == group :: id in before && after[id] == before[id]
    ensures Announces(before, after, [], group, user)
  {
    UntouchedIsFound(before, after, group, user);
  }

  // ---------- What a request appends to the log ----------

  ghost function EmittedByLeave(db: Db, user: User, group: GroupId): seq<Event>
    requires FindMember(db.members, group, user).Some?
  {
    var me := FindMember(db.members, group, user).value;
    if db.members[me].role != OWNER then [MemberLeft(group, user)]
    else
      match FindSuccessor(db.members, group, user)
      case None => []
      case Some(next) => [OwnerChanged(group, user, db.members[next].user), MemberLeft(group, user)]
  }

  ghost function Emitted(db: Db, op: Op): seq<Event> {
    if OutcomeOf(db, op) != Ok || !FreshId(db.members, op) then []
    else
      match op
      case Create(_, _, _, _) => []
      case Join(user, group, _, at) => [MemberJoined(group, Member(group, user, MEMBER, at, None))]
      case Leave(user, group) => EmittedByLeave(db, user, group)
      case Transfer(caller, group, target) => [OwnerChanged(group, caller, target)]
      case MarkRead(user, group, at) => [ReadMarked(group, user, at)]
      case Post(_, _) => []
  }

  lemma EmittedIsLogged(db: Db, op: Op)
    ensures Apply(db, op).log == db.log + Emitted(db, op)
  {}

  lemma LeaveAnnounces(db: Db, leaver: User, g: GroupId, group: GroupId, user: User)
    requires Valid(db) && FindMember(db.members, g, leaver).Some? && group in AfterLeave(db, leaver, g).groups
    ensures Announces(db.members, AfterLeave(db, leaver, g).members, EmittedByLeave(db, leaver, g), group, user)
  {
    var me := FindMember(db.members, g, leaver).value;
    if db.members[me].role != OWNER {
      RemovalAnnounces(db.members, me, group, user);
    } else {
      var next := FindSuccessor(db.members, g, leaver);
      if next.Some? {
        SuccessionAnnounces(db.members, me, next.value, group, user);
      } else {
        LeaveKeepsValid(db, leaver, g);
        SilenceAnnounces(db.members, AfterLeave(db, leaver, g).members, group, user);
      }
    }
  }

  lemma TransferAnnounces(db: Db, op: Op, group: GroupId, user: User)
    requires Valid(db) && op.Transfer? && OutcomeOf(db, op) == Ok
    ensures Announces(db.members, Apply(db, op).members, Emitted(db, op), group, user)
  {
    var me := FindMember(db.members, op.group, op.caller).value;
    var other := FindMember(db.members, op.group, op.target).value;
    SwapAnnounces(db.members, me, other, group, user);
  }

  lemma CreateAnnounces(db: Db, op: Op, group: GroupId, user: User)
    requires Valid(db) && op.Create? && OutcomeOf(db, op) == Ok && FreshId(db.members, op) && group < db.nextGroup
    ensures Announces(db.members, Apply(db, op).members, [], group, user)
  {
    CreateKeepsValid(db, op);
    SilenceAnnounces(db.members, Apply(db, op).members, group, user);
  }

  /** While the group stands, the events of every request tell each user's row in it exactly. */
  lemma RequestAnnounces(db: Db, op: Op, group: GroupId, user: User)
    requires Valid(db) && group < db.nextGroup && group in Apply(db, op).groups
    ensures Announces(db.members, Apply(db, op).members, Emitted(db, op), group, user)
  {
    if OutcomeOf(db, op) == Ok && FreshId(db.members, op) {
      match op
      case Create(_, _, _, _) => CreateAnnounces(db, op, group, user);
      case Join(u, g, id, at) => JoinAnnounces(db.members, id, Member(g, u, MEMBER, at, None), group, user);
      case Leave(u, g) => LeaveAnnounces(db, u, g, group, user);
      case Transfer(_, _, _) => TransferAnnounces(db, op, group, user);
      case MarkRead(u, g, at) => StampAnnounces(db.members, FindMember(db.members, g, u).value, at, group, user);
      case Post(_, _) =>
    }
  }

  predicate NoneOf(group: GroupId, events: seq<Event>) {
    forall i | 0 <= i < |events| :: GroupOf(events[i]) != group
  }

  lemma {:induction false} ForeignEventsPass(group: GroupId, copy: Option<Member>, events: seq<Event>, user: User)
    requires NoneOf(group, events)
    ensures Replay(group, copy, events, user) == copy && InOrder(group, copy, events, user)
    decreases |events|
  {
    if events != [] {
      assert GroupOf(events[0]) != group;
      forall i | 0 <= i < |events[1..]| ensures GroupOf(events[1..][i]) != group {
        assert GroupOf(events[i + 1]) != group;
      }
      ForeignEventsPass(group, copy, events[1..], user);
    }
  }

  lemma MemberOfAMissingGroup(db: Db, group: GroupId, user: User)
    requires Valid(db) && FindMember(db.members, group, user).Some?
    ensures group in db.groups
  {}

  /** Nothing is ever announced about a group that is not there. */
  lemma MissingGroupIsSilent(db: Db, op: Op, group: GroupId)
    requires Valid(db) && group !in db.groups
    ensures NoneOf(group, Emitted(db, op))
  {
    if OutcomeOf(db, op) == Ok {
      match op
      case Create(_, _, _, _) =>
      case Join(_, _, _, _) =>
      case Leave(u, g) => MemberOfAMissingGroup(db, g, u);
      case Transfer(caller, g, _) => MemberOfAMissingGroup(db, g, caller);
      case MarkRead(u, g, _) => MemberOfAMissingGroup(db, g, u);
      case Post(_, _) =>
    }
  }

  /** The departure that deletes a group is not announced either, though its last member had a row. */
  lemma DeletionIsSilent(db: Db, op: Op, group: GroupId)
    requires Valid(db) && group in db.groups && group !in Apply(db, op).groups
    ensures op.Leave? && op.group == group && Emitted(db, op) == []
    ensures ServerFind(db.members, group, op.user).Some?
  {}

  lemma DeletedStaysDeleted(db: Db, op: Op, group: GroupId)
    requires group < db.nextGroup
    ensures group < Apply(db, op).nextGroup
    ensures group !in db.groups ==> group !in Apply(db, op).groups
  {}

  // ---------- One browser ----------

  /** A group detail answered by the server when the log had `taken` events. */
  datatype Fetch = Fetch(list: seq<Member>, taken: nat)

  /** A list read at log position `taken` and installed when `installed` events had been delivered. */
  datatype Reading = Reading(list: seq<Member>, taken: nat, installed: nat)

  /**
   The client hears every event of the group from position `start` on and has heard those before
   `delivered`. History variables: `base`, the membership table at `start`, and `reading`, the cached list
   as it was read.
   */
  datatype World = World(
    db: Db,
    group: GroupId,
    base: map<MemberId, Member>,
    start: nat,
    delivered: nat,
    cache: Option<seq<Member>>,
    fetching: Option<Fetch>,
    reading: Option<Reading>)

  datatype Action =
    | Serve(op: Op)              // some request, of anyone, about any group, is served
    | Deliver                    // the next event reaches the browser
    | FetchOne(list: seq<Member>) // the server answers a detail request with this list
    | Install                    // the answer reaches the query cache
    | Remove                     // the detail is dropped from the cache

  /** The client has just joined the room; the server may have any history behind it. */
  function Enter(db: Db, group: GroupId): World {
    World(db, group, db.members, |db.log|, |db.log|, None, None, None)
  }

  function Hear(cache: Option<seq<Member>>, group: GroupId, e: Event): Option<seq<Member>> {
    if cache.Some? && GroupOf(e) == group then Some(OnEvent(cache.value, e)) else cache
  }

  ghost function Step(w: World, a: Action): World {
    match a
    case Serve(op) => w.(db := Apply(w.db, op))
    case Deliver =>
      if w.delivered < |w.db.log| then
        w.(delivered := w.delivered + 1, cache := Hear(w.cache, w.group, w.db.log[w.delivered]))
      else w
    case FetchOne(list) =>
      if w.group in w.db.groups && IsDetail(w.db.members, w.group, list) then
        w.(fetching := Some(Fetch(list, |w.db.log|)))
      else w
    case Install =>
      if w.fetching.Some? then
        var Fetch(list, taken) := w.fetching.value;
        w.(cache := Some(list), fetching := None, reading := Some(Reading(list, taken, w.delivered)))
      else w
    case Remove => w.(cache := None, reading := None)
  }

  ghost function Run(w: World, actions: seq<Action>): World
    decreases |actions|
  {
    if actions == [] then w else Run(Step(w, actions[0]), actions[1..])
  }

  /** When a detail read at log position n is installed, no event after n has been delivered yet. */
  predicate Timely(w: World, a: Action) {
    a.Install? && w.fetching.Some? ==> w.delivered <= w.fetching.value.taken
  }

  ghost predicate AllTimely(w: World, actions: seq<Action>)
    decreases |actions|
  {
    actions == [] || (Timely(w, actions[0]) && AllTimely(Step(w, actions[0]), actions[1..]))
  }

  // ---------- What the log has told ----------

  /** Each user's row as the first n events tell it, from the table at `start` on. */
  ghost function Told(base: map<MemberId, Member>, group: GroupId, start: nat, log: seq<Event>, n: nat, user: User)
    : Option<Member>
    requires start <= n <= |log|
  {
    Replay(group, ServerFind(base, group, user), log[start..n], user)
  }

  ghost predicate Orderly(base: map<MemberId, Member>, group: GroupId, start: nat, log: seq<Event>)
    requires start <= |log|
  {
    forall user: User :: InOrder(group, ServerFind(base, group, user), log[start..|log|], user)
  }

  ghost predicate ListIsTold(base: map<MemberId, Member>, group: GroupId, start: nat, log: seq<Event>, n: nat,
                             list: seq<Member>)
    requires start <= n <= |log|
  {
    NobodyListedTwice(list) && forall user: User :: Find(list, user) == Told(base, group, start, log, n, user)
  }

  /** The events still under way bring each cached row to what the whole log tells. */
  ghost predicate CatchesUp(base: map<MemberId, Member>, group: GroupId, start: nat, log: seq<Event>, delivered: nat,
                            list: seq<Member>)
    requires start <= delivered <= |log|
  {
    && NobodyListedTwice(list)
    && forall user: User ::
         Replay(group, Find(list, user), log[delivered..|log|], user) == Told(base, group, start, log, |log|, user)
  }

  /** Each cached row is the row as it was read, patched by what was delivered since it was installed. */
  ghost predicate IsHeard(group: GroupId, log: seq<Event>, rd: Reading, delivered: nat, list: seq<Member>)
    requires rd.installed <= delivered <= |log|
  {
    && NobodyListedTwice(list)
    && forall user: User ::
         Find(list, user) == Replay(group, Find(rd.list, user), log[rd.installed..delivered], user)
  }

  ghost predicate ServerIsTold(base: map<MemberId, Member>, group: GroupId, start: nat, db: Db)
    requires start <= |db.log|
  {
    if group in db.groups then
      forall user: User :: Told(base, group, start, db.log, |db.log|, user) == ServerFind(db.members, group, user)
    else
      exists user: User :: Told(base, group, start, db.log, |db.log|, user).Some?
  }

  ghost predicate Good(w: World) {
    && Valid(w.db) && w.group < w.db.nextGroup
    && w.start <= w.delivered <= |w.db.log|
    && Orderly(w.base, w.group, w.start, w.db.log)
    && ServerIsTold(w.base, w.group, w.start, w.db)
    && (w.cache.Some? <==> w.reading.Some?)
    && (w.cache.Some? ==>
          && w.start <= w.reading.value.taken <= |w.db.log| && w.start <= w.reading.value.installed <= w.delivered
          && ListIsTold(w.base, w.group, w.start, w.db.log, w.reading.value.taken, w.reading.value.list)
          && IsHeard(w.group, w.db.log, w.reading.value, w.delivered, w.cache.value))
    && (w.fetching.Some? ==>
          && w.start <= w.fetching.value.taken <= |w.db.log|
          && ListIsTold(w.base, w.group, w.start, w.db.log, w.fetching.value.taken, w.fetching.value.list))
  }

  lemma ToldConcat(base: map<MemberId, Member>, group: GroupId, start: nat, log: seq<Event>, n: nat, m: nat, user: User)
    requires start <= n <= m <= |log|
    ensures Told(base, group, start, log, m, user)
      == Replay(group, Told(base, group, start, log, n, user), log[n..m], user)
    ensures InOrder(group, ServerFind(base, group, user), log[start..m], user) <==>
      && InOrder(group, ServerFind(base, group, user), log[start..n], user)
      && InOrder(group, Told(base, group, start, log, n, user), log[n..m], user)
  {
    assert log[start..m] == log[start..n] + log[n..m];
    ReplayConcat(group, ServerFind(base, group, user), log[start..n], log[n..m], user);
  }

  // ---------- Serving a request ----------

  lemma MoreLog(log: seq<Event>, more: seq<Event>, n: nat)
    requires n <= |log|
    ensures (log + more)[n..|log + more|] == log[n..|log|] + more
  {}

  /** Events that fit what was told before them are told as they come. */
  lemma ToldMore(base: map<MemberId, Member>, group: GroupId, start: nat, log: seq<Event>, more: seq<Event>, user: User)
    requires start <= |log|
    ensures Told(base, group, start, log + more, |log + more|, user)
         == Replay(group, Told(base, group, start, log, |log|, user), more, user)
    ensures InOrder(group, ServerFind(base, group, user), (log + more)[start..|log + more|], user) <==>
      && InOrder(group, ServerFind(base, group, user), log[start..|log|], user)
      && InOrder(group, Told(base, group, start, log, |log|, user), more, user)
  {
    MoreLog(log, more, start);
    ReplayConcat(group, ServerFind(base, group, user), log[start..|log|], more, user);
  }

  lemma ListOutlivesMore(base: map<MemberId, Member>, group: GroupId, start: nat, log: seq<Event>, n: nat,
                         list: seq<Member>, more: seq<Event>)
    requires start <= n <= |log| && ListIsTold(base, group, start, log, n, list)
    ensures ListIsTold(base, group, start, log + more, n, list)
  {
    assert (log + more)[start..n] == log[start..n];
  }

  lemma HeardOutlivesMore(group: GroupId, log: seq<Event>, rd: Reading, delivered: nat, list: seq<Member>,
                          more: seq<Event>)
    requires rd.installed <= delivered <= |log| && IsHeard(group, log, rd, delivered, list)
    ensures IsHeard(group, log + more, rd, delivered, list)
  {
    assert (log + more)[rd.installed..delivered] == log[rd.installed..delivered];
  }

  /** A request leaves the log in order, and leaves it telling the rows of a standing group. */
  lemma RequestIsTold(base: map<MemberId, Member>, group: GroupId, start: nat, db: Db, op: Op)
    requires Valid(db) && group < db.nextGroup && start <= |db.log|
    requires Orderly(base, group, start, db.log) && ServerIsTold(base, group, start, db)
    ensures |db.log| <= |Apply(db, op).log|
    ensures Orderly(base, group, start, Apply(db, op).log) && ServerIsTold(base, group, start, Apply(db, op))
  {
    var after, more := Apply(db, op), Emitted(db, op);
    EmittedIsLogged(db, op);
    DeletedStaysDeleted(db, op, group);
    forall user: User
      ensures InOrder(group, ServerFind(base, group, user), after.log[start..|after.log|], user)
      ensures group in after.groups ==>
        Told(base, group, start, after.log, |after.log|, user) == ServerFind(after.members, group, user)
      ensures group !in after.groups ==>
        Told(base, group, start, after.log, |after.log|, user) == Told(base, group, start, db.log, |db.log|, user)
    {
      ToldMore(base, group, start, db.log, more, user);
      if group in after.groups {
        RequestAnnounces(db, op, group, user);
      } else {
        QuietWhenGone(db, op, group);
        ForeignEventsPass(group, Told(base, group, start, db.log, |db.log|, user), more, user);
      }
    }
    if group !in after.groups {
      if group in db.groups {
        DeletionIsSilent(db, op, group);
        assert Told(base, group, start, db.log, |db.log|, op.user).Some?;
      }
      var user: User :| Told(base, group, start, db.log, |db.log|, user).Some?;
      assert Told(base, group, start, after.log, |after.log|, user).Some?;
    }
  }

  lemma QuietWhenGone(db: Db, op: Op, group: GroupId)
    requires Valid(db) && group !in Apply(db, op).groups
    ensures NoneOf(group, Emitted(db, op))
  {
    if group in db.groups {
      DeletionIsSilent(db, op, group);
    } else {
      MissingGroupIsSilent(db, op, group);
    }
  }

  lemma ServeKeepsGood(w: World, op: Op)
    requires Good(w)
    ensures Good(Step(w, Serve(op)))
  {
    ApplyKeepsValid(w.db, op);
    DeletedStaysDeleted(w.db, op, w.group);
    RequestIsTold(w.base, w.group, w.start, w.db, op);
    EmittedIsLogged(w.db, op);
    var more := Emitted(w.db, op);
    if w.cache.Some? {
      var rd := w.reading.value;
      ListOutlivesMore(w.base, w.group, w.start, w.db.log, rd.taken, rd.list, more);
      HeardOutlivesMore(w.group, w.db.log, rd, w.delivered, w.cache.value, more);
    }
    if w.fetching.Some? {
      ListOutlivesMore(w.base, w.group, w.start, w.db.log, w.fetching.value.taken, w.fetching.value.list, more);
    }
  }

  // ---------- Hearing, fetching and installing ----------

  /** A list patched by the next event has heard one event more. */
  lemma HearingIsHeard(group: GroupId, log: seq<Event>, rd: Reading, delivered: nat, list: seq<Member>)
    requires rd.installed <= delivered < |log| && IsHeard(group, log, rd, delivered, list)
    ensures IsHeard(group, log, rd, delivered + 1, Hear(Some(list), group, log[delivered]).value)
  {
    var e := log[delivered];
    var heard := Hear(Some(list), group, e).value;
    var before := log[rd.installed..delivered];
    assert log[rd.installed..delivered + 1] == before + [e];
    forall user: User
      ensures NobodyListedTwice(heard)
      ensures Find(heard, user) == Replay(group, Find(rd.list, user), log[rd.installed..delivered + 1], user)
    {
      HandlerSeesEachUser(list, e, user);
      ReplayConcat(group, Find(rd.list, user), before, [e], user);
      ReplayOne(group, Find(list, user), e, user);
    }
    HandlerSeesEachUser(list, e, 0);
  }

  lemma StandingGroupIsSnapshot(base: map<MemberId, Member>, group: GroupId, start: nat, db: Db, list: seq<Member>)
    requires start <= |db.log| && NobodyTwice(db.members) && IsDetail(db.members, group, list)
    requires group in db.groups && ServerIsTold(base, group, start, db)
    ensures ListIsTold(base, group, start, db.log, |db.log|, list)
  {
    forall user: User ensures Find(list, user) == Told(base, group, start, db.log, |db.log|, user) {
      DetailFinds(db.members, group, list, user);
    }
  }

  /** A detail read at `taken` catches up from any earlier position, hearing again what it has seen. */
  lemma SnapshotCatchesUp(base: map<MemberId, Member>, group: GroupId, start: nat, log: seq<Event>, delivered: nat,
                          taken: nat, list: seq<Member>)
    requires start <= delivered <= taken <= |log| && Orderly(base, group, start, log)
    requires ListIsTold(base, group, start, log, taken, list)
    ensures CatchesUp(base, group, start, log, delivered, list)
  {
    forall user: User ensures Replay(group, Find(list, user), log[delivered..|log|], user)
                           == Told(base, group, start, log, |log|, user)
    {
      var copy := Told(base, group, start, log, delivered, user);
      var seen, ahead := log[delivered..taken], log[taken..|log|];
      ToldConcat(base, group, start, log, taken, |log|, user);
      ToldConcat(base, group, start, log, delivered, taken, user);
      ToldIsTheUsers(base, group, start, log, delivered, user);
      SeenEventsChangeNothing(group, copy, seen, user);
      assert log[delivered..|log|] == seen + ahead;
      ReplayConcat(group, Find(list, user), seen, ahead, user);
    }
  }

  lemma ToldIsTheUsers(base: map<MemberId, Member>, group: GroupId, start: nat, log: seq<Event>, n: nat, user: User)
    requires start <= n <= |log|
    ensures var copy := Told(base, group, start, log, n, user); copy.Some? ==> copy.value.user == user
  {
    ReplayKeepsUser(group, ServerFind(base, group, user), log[start..n], user);
  }

  lemma EnterIsGood(db: Db, group: GroupId)
    requires Valid(db) && group in db.groups
    ensures Good(Enter(db, group))
  {
    assert db.log[|db.log|..|db.log|] == [];
  }

  lemma StepKeepsGood(w: World, a: Action)
    requires Good(w)
    ensures Good(Step(w, a))
  {
    match a
    case Serve(op) => ServeKeepsGood(w, op);
    case Deliver =>
      if w.delivered < |w.db.log| && w.cache.Some? {
        HearingIsHeard(w.group, w.db.log, w.reading.value, w.delivered, w.cache.value);
      }
    case FetchOne(list) =>
      if Step(w, a) != w {
        StandingGroupIsSnapshot(w.base, w.group, w.start, w.db, list);
      }
    case Install =>
      assert w.db.log[w.delivered..w.delivered] == [];
    case Remove =>
  }

  lemma {:induction false} RunKeepsGood(w: World, actions: seq<Action>)
    requires Good(w)
    ensures Good(Run(w, actions))
    decreases |actions|
  {
    if actions != [] {
      StepKeepsGood(w, actions[0]);
      RunKeepsGood(Step(w, actions[0]), actions[1..]);
    }
  }

  lemma {:induction false} RunKeepsGroup(w: World, actions: seq<Action>)
    ensures Run(w, actions).group == w.group
    decreases |actions|
  {
    if actions != [] {
      RunKeepsGroup(Step(w, actions[0]), actions[1..]);
    }
  }

  // ---------- What a late install misses ----------

  /** The user's row as it was read missed nothing, or nothing that matters. */
  predicate ReadingHolds(group: GroupId, log: seq<Event>, rd: Reading, user: User) {
    || rd.installed <= rd.taken
    || (rd.installed <= |log|
        && Harmless(group, Find(rd.list, user), log[rd.taken..rd.installed], log[rd.installed..|log|], user))
  }

  /** Installing a list, however late: what it leaves of each user's row, once the events under way arrive. */
  lemma InstallIsExact(base: map<MemberId, Member>, group: GroupId, start: nat, log: seq<Event>, rd: Reading,
                       user: User)
    requires start <= rd.taken <= |log| && start <= rd.installed <= |log| && Orderly(base, group, start, log)
    requires ListIsTold(base, group, start, log, rd.taken, rd.list)
    ensures Replay(group, Find(rd.list, user), log[rd.installed..|log|], user)
         == Told(base, group, start, log, |log|, user)
      <==> ReadingHolds(group, log, rd, user)
  {
    var copy := Find(rd.list, user);
    if rd.installed <= rd.taken {
      SnapshotCatchesUp(base, group, start, log, rd.installed, rd.taken, rd.list);
    } else {
      ToldConcat(base, group, start, log, rd.taken, |log|, user);
      ToldIsTheUsers(base, group, start, log, rd.taken, user);
      assert log[rd.taken..|log|] == log[rd.taken..rd.installed] + log[rd.installed..|log|];
      MissedIffHarmless(group, copy, log[rd.taken..rd.installed], log[rd.installed..|log|], user);
    }
  }

  /** At any moment a cached row will end as the log tells if and only if its reading holds. */
  lemma RowIsExact(w: World, user: User)
    requires Good(w) && w.cache.Some?
    ensures Replay(w.group, Find(w.cache.value, user), w.db.log[w.delivered..|w.db.log|], user)
         == Replay(w.group, Find(w.reading.value.list, user), w.db.log[w.reading.value.installed..|w.db.log|], user)
    ensures Replay(w.group, Find(w.cache.value, user), w.db.log[w.delivered..|w.db.log|], user)
         == Told(w.base, w.group, w.start, w.db.log, |w.db.log|, user)
      <==> ReadingHolds(w.group, w.db.log, w.reading.value, user)
  {
    var rd, log := w.reading.value, w.db.log;
    InstallIsExact(w.base, w.group, w.start, log, rd, user);
    assert log[rd.installed..|log|] == log[rd.installed..w.delivered] + log[w.delivered..|log|];
    ReplayConcat(w.group, Find(rd.list, user), log[rd.installed..w.delivered], log[w.delivered..|log|], user);
  }

  // ---------- Every run ----------

  /** The reading of a standing group holds for everyone, or that of a deleted group ends without anyone. */
  ghost predicate ListHolds(w: World)
    requires w.reading.Some? && w.reading.value.installed <= |w.db.log|
  {
    var rd, log := w.reading.value, w.db.log;
    if w.group in w.db.groups then
      forall user: User :: ReadingHolds(w.group, log, rd, user)
    else
      forall user: User :: EndsAbsent(w.group, Find(rd.list, user), log[rd.installed..|log|], user)
  }

  lemma ExactIffFound(db: Db, group: GroupId, list: seq<Member>)
    requires NobodyTwice(db.members) && NobodyListedTwice(list)
    ensures IsExact(db.members, group, list) <==>
      forall user: User :: Find(list, user) == ServerFind(db.members, group, user)
  {
    if forall user: User :: Find(list, user) == ServerFind(db.members, group, user) {
      AgreeingListIsExact(db.members, group, list);
    }
    if IsExact(db.members, group, list) {
      forall user: User ensures Find(list, user) == ServerFind(db.members, group, user) {
        DetailFinds(db.members, group, list, user);
      }
    }
  }

  lemma ListIsExact(w: World)
    requires Good(w) && w.cache.Some? && w.delivered == |w.db.log|
    ensures (forall user: User :: Find(w.cache.value, user) == ServerFind(w.db.members, w.group, user))
            <==> ListHolds(w)
  {
    var rd, log := w.reading.value, w.db.log;
    assert log[w.delivered..|log|] == [];
    forall user: User
      ensures w.group in w.db.groups ==>
        (Find(w.cache.value, user) == ServerFind(w.db.members, w.group, user) <==>
           ReadingHolds(w.group, log, rd, user))
      ensures w.group !in w.db.groups ==>
        (Find(w.cache.value, user) == ServerFind(w.db.members, w.group, user) <==>
           EndsAbsent(w.group, Find(rd.list, user), log[rd.installed..|log|], user))
    {
      RowIsExact(w, user);
      FindIsListed(rd.list, user);
      AbsentIffEndsAbsent(w.group, Find(rd.list, user), log[rd.installed..|log|], user);
      if w.group !in w.db.groups && ServerFind(w.db.members, w.group, user).Some? {
        MemberOfAMissingGroup(w.db, w.group, user);
      }
    }
  }

  /**
   Once every event has arrived, in any run, the cached list holds nobody twice; and it is exactly the
   server's rows of the group, with their roles and read times, if and only if the group stands and what
   each row missed before its installation is harmless, or the group is gone and so is everyone listed.
   */
  lemma MembersAreExact(db: Db, group: GroupId, actions: seq<Action>)
    requires Valid(db) && group in db.groups
    ensures var w := Run(Enter(db, group), actions);
      && Good(w)
      && (w.cache.Some? && w.delivered == |w.db.log| ==>
            NobodyListedTwice(w.cache.value) && (IsExact(w.db.members, group, w.cache.value) <==> ListHolds(w)))
  {
    EnterIsGood(db, group);
    RunKeepsGood(Enter(db, group), actions);
    RunKeepsGroup(Enter(db, group), actions);
    var w := Run(Enter(db, group), actions);
    if w.cache.Some? && w.delivered == |w.db.log| {
      ExactIffFound(w.db, group, w.cache.value);
      ListIsExact(w);
    }
  }

  predicate InTime(reading: Option<Reading>) {
    reading.Some? ==> reading.value.installed <= reading.value.taken
  }

  lemma {:induction false} TimelyRunsReadInTime(w: World, actions: seq<Action>)
    requires AllTimely(w, actions) && InTime(w.reading)
    ensures InTime(Run(w, actions).reading)
    decreases |actions|
  {
    if actions != [] {
      TimelyRunsReadInTime(Step(w, actions[0]), actions[1..]);
    }
  }

  /**
   With timely installs the list is the server's if and only if the group still exists: the departure that
   deletes a group is announced to nobody.
   */
  lemma MembersConverge(db: Db, group: GroupId, actions: seq<Action>)
    requires Valid(db) && group in db.groups && AllTimely(Enter(db, group), actions)
    ensures var w := Run(Enter(db, group), actions);
      w.cache.Some? && w.delivered == |w.db.log| ==>
        NobodyListedTwice(w.cache.value) && (IsExact(w.db.members, group, w.cache.value) <==> group in w.db.groups)
  {
    MembersAreExact(db, group, actions);
    TimelyRunsReadInTime(Enter(db, group), actions);
    EnterIsGood(db, group);
    RunKeepsGood(Enter(db, group), actions);
    RunKeepsGroup(Enter(db, group), actions);
    var w := Run(Enter(db, group), actions);
    if w.cache.Some? && w.delivered == |w.db.log| && group !in w.db.groups {
      SomeoneIsLeft(w);
    }
  }

  /** With the group gone, a list installed in time still shows the member who left last. */
  lemma SomeoneIsLeft(w: World)
    requires Good(w) && w.cache.Some? && w.delivered == |w.db.log| && w.group !in w.db.groups
    requires InTime(w.reading)
    ensures !ListHolds(w)
  {
    var rd, log := w.reading.value, w.db.log;
    var user: User :| Told(w.base, w.group, w.start, log, |log|, user).Some?;
    RowIsExact(w, user);
    FindIsListed(rd.list, user);
    assert log[w.delivered..|log|] == [];
    AbsentIffEndsAbsent(w.group, Find(rd.list, user), log[rd.installed..|log|], user);
  }

  // ---------- Two runs that fail ----------

  /** One group whose only member is its owner. */
  ghost function OneMember(at: int): Db {
    Apply(EMPTY_DB, Create(1, "g", 0, at))
  }

  function Owner(at: int): Member {
    Member(0, 1, OWNER, at, None)
  }

  lemma OneMemberIs(at: int)
    ensures OneMember(at) == Db(map[0 := Group("g", 1)], map[0 := Owner(at)], map[], 1, [])
    ensures Valid(OneMember(at)) && IsDetail(OneMember(at).members, 0, [Owner(at)])
  {
    ApplyKeepsValid(EMPTY_DB, Create(1, "g", 0, at));
    var db := OneMember(at);
    assert db.members == map[0 := Owner(at)];
    forall m ensures m in [Owner(at)] <==> exists id :: id in db.members && db.members[id] == m && m.group == 0 {
      if m == Owner(at) {
        assert db.members[0] == m;
      }
    }
  }

  lemma FoundOwner(at: int)
    ensures FindMember(map[0 := Owner(at)], 0, 1) == Some(0) && FindMember(map[0 := Owner(at)], 0, 2) == None
    ensures FindSuccessor(map[0 := Owner(at)], 0, 1) == None
  {
    assert IsMember(map[0 := Owner(at)], 0, 0, 1);
  }

  lemma LastLeaveIs(at: int)
    ensures Apply(OneMember(at), Leave(1, 0)) == Db(map[], map[], map[], 1, [])
  {
    OneMemberIs(at);
    FoundOwner(at);
    var after := Apply(OneMember(at), Leave(1, 0));
    assert after.groups == map[] && after.members == map[] && after.messages == map[];
  }

  /** The group must stand: its last member leaves in one tab, and another goes on listing them. */
  lemma DeletionLeavesTheList(at: int)
    ensures var enter := Enter(OneMember(at), 0);
      var w := Step(Step(Step(enter, FetchOne([Owner(at)])), Install), Serve(Leave(1, 0)));
      && Valid(OneMember(at)) && 0 in OneMember(at).groups && Timely(Step(enter, FetchOne([Owner(at)])), Install)
      && w.delivered == |w.db.log| && w.cache == Some([Owner(at)]) && 0 !in w.db.groups && w.db.members == map[]
  {
    OneMemberIs(at);
    LastLeaveIs(at);
  }

  lemma JoinIs(at: int, later: int)
    ensures Apply(OneMember(at), Join(2, 0, 1, later)).log == [MemberJoined(0, Member(0, 2, MEMBER, later, None))]
    ensures Apply(OneMember(at), Join(2, 0, 1, later)).groups == OneMember(at).groups
    ensures Apply(OneMember(at), Join(2, 0, 1, later)).members
         == map[0 := Owner(at), 1 := Member(0, 2, MEMBER, later, None)]
  {
    OneMemberIs(at);
    FoundOwner(at);
  }

  /** Installs must be in time: a join delivered between the read of a list and its installation is lost. */
  lemma UntimelyInstallLosesAJoin(at: int, later: int)
    ensures var asked := Step(Enter(OneMember(at), 0), FetchOne([Owner(at)]));
      var heard := Step(Step(asked, Serve(Join(2, 0, 1, later))), Deliver);
      var w := Step(heard, Install);
      && !Timely(heard, Install) && 0 in w.db.groups && w.delivered == |w.db.log|
      && w.cache == Some([Owner(at)]) && 1 in w.db.members && w.db.members[1] !in [Owner(at)]
      && w.db.members[1].group == 0
  {
    OneMemberIs(at);
    JoinIs(at, later);
  }
}
