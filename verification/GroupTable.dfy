/**
 Groups, memberships and the messages that refer to them, with the uniqueness and cascade rules of
 schema.prisma, and the requests that change them. A request's transaction is one step.
 */
module GroupTable {
  import opened Wrappers

  type GroupId = nat
  type MemberId = nat
  type User = nat

  datatype Role = OWNER | ADMIN | MEMBER

  datatype Group = Group(name: string, createdBy: User)

  datatype Member = Member(group: GroupId, user: User, role: Role, joinedAt: int, lastReadAt: Option<int>)

  datatype Event =
    | MemberJoined(group: GroupId, member: Member)
    | MemberLeft(group: GroupId, user: User)
    | OwnerChanged(group: GroupId, previousOwner: User, newOwner: User)
    | ReadMarked(group: GroupId, user: User, lastReadAt: int)

  /** Group ids come from a counter, so that a deleted group's id is never given out again. */
  datatype Db = Db(
    groups: map<GroupId, Group>,
    members: map<MemberId, Member>,
    messages: map<nat, GroupId>,
    nextGroup: nat,
    log: seq<Event>)

  const EMPTY_DB := Db(map[], map[], map[], 0, [])

  datatype Op =
    | Create(user: User, name: string, id: MemberId, at: int)
    | Join(user: User, group: GroupId, id: MemberId, at: int)
    | Leave(user: User, group: GroupId)
    | Transfer(caller: User, group: GroupId, target: User)
    | MarkRead(user: User, group: GroupId, at: int)
    | Post(message: nat, group: GroupId)

  // ---------- Queries ----------

  predicate IsMember(members: map<MemberId, Member>, id: MemberId, group: GroupId, user: User) {
    id in members && members[id].group == group && members[id].user == user
  }

  /** `findUnique({ groupId_userId })`. */
  ghost function FindMember(members: map<MemberId, Member>, group: GroupId, user: User): (found: Option<MemberId>)
    ensures found.Some? ==> IsMember(members, found.value, group, user)
    ensures found.None? ==> forall id :: !IsMember(members, id, group, user)
  {
    if exists id :: IsMember(members, id, group, user) then
      var id :| IsMember(members, id, group, user); Some(id)
    else None
  }

  predicate EarlierMember(members: map<MemberId, Member>, a: MemberId, b: MemberId) {
    && a in members && b in members
    && (members[a].joinedAt < members[b].joinedAt || (members[a].joinedAt == members[b].joinedAt && a < b))
  }

  predicate IsOther(members: map<MemberId, Member>, id: MemberId, group: GroupId, user: User) {
    id in members && members[id].group == group && members[id].user != user
  }

  /** The longest-standing other member, least by (joinedAt, id). */
  ghost predicate IsSuccessor(members: map<MemberId, Member>, id: MemberId, group: GroupId, user: User) {
    && IsOther(members, id, group, user)
    && forall other | IsOther(members, other, group, user) && other != id :: EarlierMember(members, id, other)
  }

  lemma EarliestExists(members: map<MemberId, Member>, candidates: set<MemberId>) returns (first: MemberId)
    requires candidates != {} && candidates <= members.Keys
    ensures first in candidates
    ensures forall other | other in candidates && other != first :: EarlierMember(members, first, other)
    decreases |candidates|
  {
    first :| first in candidates;
    var rest := candidates - {first};
    if rest != {} {
      var least := EarliestExists(members, rest);
      assert forall other | other in candidates && other != first :: other in rest;
      if EarlierMember(members, least, first) {
        first := least;
      }
    }
  }

  ghost function FindSuccessor(members: map<MemberId, Member>, group: GroupId, user: User): (found: Option<MemberId>)
    ensures found.Some? ==> IsSuccessor(members, found.value, group, user)
    ensures found.None? ==> forall id :: !IsOther(members, id, group, user)
  {
    if exists id :: IsOther(members, id, group, user) then
      assert exists id :: IsSuccessor(members, id, group, user) by {
        var others := set id | id in members && IsOther(members, id, group, user);
        var id :| IsOther(members, id, group, user);
        assert id in others;
        var first := EarliestExists(members, others);
        assert IsSuccessor(members, first, group, user);
      }
      var id :| IsSuccessor(members, id, group, user); Some(id)
    else None
  }

  predicate NameTaken(db: Db, user: User, name: string) {
    exists g :: g in db.groups && db.groups[g] == Group(name, user)
  }

  // ---------- Requests ----------

  datatype Outcome = Ok | NotFound | Conflict | Forbidden | BadRequest

  ghost function OutcomeOf(db: Db, op: Op): Outcome {
    match op
    case Create(user, name, _, _) => if NameTaken(db, user, name) then Conflict else Ok
    case Join(user, group, _, _) =>
      if group !in db.groups then NotFound
      else if FindMember(db.members, group, user).Some? then Conflict
      else Ok
    case Leave(user, group) => if FindMember(db.members, group, user).None? then Forbidden else Ok
    case Transfer(caller, group, target) =>
      if caller == target then BadRequest
      else
        var me := FindMember(db.members, group, caller);
        if me.None? || db.members[me.value].role != OWNER then Forbidden
        else if FindMember(db.members, group, target).None? then NotFound
        else Ok
    case MarkRead(user, group, _) => if FindMember(db.members, group, user).None? then NotFound else Ok
    case Post(message, group) => if group in db.groups && message !in db.messages then Ok else NotFound
  }

  /** uuid(7) never repeats: an insert is only ever attempted with an unused id. */
  predicate FreshId(members: map<MemberId, Member>, op: Op) {
    (op.Create? || op.Join?) ==> op.id !in members
  }

  function WithRole(members: map<MemberId, Member>, id: MemberId, role: Role): map<MemberId, Member>
    requires id in members
  {
    members[id := members[id].(role := role)]
  }

  /** `onDelete: Cascade` on both relations of Group. */
  function DeleteGroup(db: Db, group: GroupId): Db {
    db.(groups := db.groups - {group},
        members := map id | id in db.members && db.members[id].group != group :: db.members[id],
        messages := map id | id in db.messages && db.messages[id] != group :: db.messages[id])
  }

  ghost function AfterLeave(db: Db, user: User, group: GroupId): Db
    requires FindMember(db.members, group, user).Some?
  {
    var me := FindMember(db.members, group, user).value;
    if db.members[me].role != OWNER then
      db.(members := db.members - {me}, log := db.log + [MemberLeft(group, user)])
    else
      match FindSuccessor(db.members, group, user)
      case None => DeleteGroup(db, group)
      case Some(next) =>
        db.(members := WithRole(db.members, next, OWNER) - {me},
            log := db.log + [OwnerChanged(group, user, db.members[next].user), MemberLeft(group, user)])
  }

  ghost function Apply(db: Db, op: Op): Db {
    if OutcomeOf(db, op) != Ok || !FreshId(db.members, op) then db
    else
      match op
      case Create(user, name, id, at) =>
        db.(groups := db.groups[db.nextGroup := Group(name, user)],
            members := db.members[id := Member(db.nextGroup, user, OWNER, at, None)],
            nextGroup := db.nextGroup + 1)
      case Join(user, group, id, at) =>
        var member := Member(group, user, MEMBER, at, None);
        db.(members := db.members[id := member], log := db.log + [MemberJoined(group, member)])
      case Leave(user, group) => AfterLeave(db, user, group)
      case Transfer(caller, group, target) =>
        var me := FindMember(db.members, group, caller).value;
        var other := FindMember(db.members, group, target).value;
        db.(members := WithRole(WithRole(db.members, other, OWNER), me, MEMBER),
            log := db.log + [OwnerChanged(group, caller, target)])
      case MarkRead(user, group, at) =>
        var me := FindMember(db.members, group, user).value;
        db.(members := db.members[me := db.members[me].(lastReadAt := Some(at))],
            log := db.log + [ReadMarked(group, user, at)])
      case Post(message, group) => db.(messages := db.messages[message := group])
  }

  ghost function Run(db: Db, ops: seq<Op>): Db
    decreases |ops|
  {
    if ops == [] then db else Run(Apply(db, ops[0]), ops[1..])
  }

  /** A message is posted to a group that stands, under an id of its own, and to no other. */
  lemma PostIsStored(db: Db, message: nat, group: GroupId)
    ensures Apply(db, Post(message, group)) ==
      if group in db.groups && message !in db.messages then db.(messages := db.messages[message := group]) else db
  {}

  // ---------- Ownership ----------

  predicate IsOwner(members: map<MemberId, Member>, id: MemberId, group: GroupId) {
    id in members && members[id].group == group && members[id].role == OWNER
  }

  ghost predicate HasOneOwner(members: map<MemberId, Member>, group: GroupId) {
    exists owner :: IsOwner(members, owner, group) && forall id | IsOwner(members, id, group) :: id == owner
  }

  ghost predicate NobodyTwice(members: map<MemberId, Member>) {
    forall a, b | a in members && b in members && a != b ::
      members[a].group != members[b].group || members[a].user != members[b].user
  }

  /** Memberships of exactly these groups, each with one owner. */
  ghost predicate MembersOf(groups: set<GroupId>, members: map<MemberId, Member>) {
    && (forall g | g in groups :: HasOneOwner(members, g))
    && NobodyTwice(members)
    && (forall id | id in members :: members[id].group in groups)
  }

  ghost predicate Valid(db: Db) {
    && MembersOf(db.groups.Keys, db.members)
    && (forall g | g in db.groups :: g < db.nextGroup)
    && (forall m | m in db.messages :: db.messages[m] in db.groups)
    && (forall g, h | g in db.groups && h in db.groups && g != h :: db.groups[g] != db.groups[h])
  }

  lemma FoundMemberIsUnique(members: map<MemberId, Member>, id: MemberId, group: GroupId, user: User)
    requires NobodyTwice(members) && IsMember(members, id, group, user)
    ensures FindMember(members, group, user) == Some(id)
  {}

  /** A write that leaves the rows of `group` alone leaves it its owner. */
  lemma OtherGroupsKeepTheirOwner(before: map<MemberId, Member>, after: map<MemberId, Member>, group: GroupId)
    requires HasOneOwner(before, group)
    requires forall id | id in before && before[id].group == group :: id in after && after[id] == before[id]
    requires forall id | id in after && after[id].group == group :: id in before && after[id] == before[id]
    ensures HasOneOwner(after, group)
  {
    var owner :| IsOwner(before, owner, group) && forall id | IsOwner(before, id, group) :: id == owner;
    assert IsOwner(after, owner, group);
    assert forall id | IsOwner(after, id, group) :: IsOwner(before, id, group);
  }

  lemma InsertKeepsMembers(members: map<MemberId, Member>, id: MemberId, member: Member)
    requires NobodyTwice(members) && id !in members && FindMember(members, member.group, member.user).None?
    ensures NobodyTwice(members[id := member])
  {
    forall a | a in members ensures members[a].group != member.group || members[a].user != member.user {
      assert !IsMember(members, a, member.group, member.user);
    }
  }

  /** Updates and deletions never put anyone in a group twice. */
  lemma NoInsertKeepsMembers(members: map<MemberId, Member>, after: map<MemberId, Member>)
    requires NobodyTwice(members)
    requires forall id | id in after ::
      id in members && after[id].group == members[id].group && after[id].user == members[id].user
    ensures NobodyTwice(after)
  {}

  lemma CreateKeepsMembers(groups: set<GroupId>, members: map<MemberId, Member>, g: GroupId, id: MemberId,
                           member: Member)
    requires MembersOf(groups, members) && g !in groups && id !in members
    requires member.group == g && member.role == OWNER
    ensures MembersOf(groups + {g}, members[id := member])
  {
    var after := members[id := member];
    InsertKeepsMembers(members, id, member);
    assert IsOwner(after, id, g);
    assert forall x | IsOwner(after, x, g) :: x == id;
    forall h | h in groups ensures HasOneOwner(after, h) {
      OtherGroupsKeepTheirOwner(members, after, h);
    }
  }

  /** Writes that change no role and delete no owner. */
  lemma SameOwnersKeepMembers(groups: set<GroupId>, members: map<MemberId, Member>, after: map<MemberId, Member>)
    requires MembersOf(groups, members) && NobodyTwice(after)
    requires forall id | id in after :: after[id].group in groups
    requires forall id, g :: IsOwner(after, id, g) <==> IsOwner(members, id, g)
    ensures MembersOf(groups, after)
  {
    forall g | g in groups ensures HasOneOwner(after, g) {
      var owner :| IsOwner(members, owner, g) && forall id | IsOwner(members, id, g) :: id == owner;
      assert IsOwner(after, owner, g);
    }
  }

  /** Promote one row of the group and strip another of its ownership, by demotion or deletion. */
  lemma HandoverKeepsMembers(groups: set<GroupId>, members: map<MemberId, Member>, after: map<MemberId, Member>,
                             group: GroupId, me: MemberId, next: MemberId)
    requires MembersOf(groups, members) && group in groups
    requires IsOwner(members, me, group) && IsOwner(after, next, group) && !IsOwner(after, me, group)
    requires forall id | id in after ::
      id in members && after[id].group == members[id].group && after[id].user == members[id].user
    requires forall id | id in members && id != me && id != next :: id in after && after[id] == members[id]
    requires me in after ==> members[me].group == group
    requires next in members && members[next].group == group
    ensures MembersOf(groups, after)
  {
    NoInsertKeepsMembers(members, after);
    forall g | g in groups ensures HasOneOwner(after, g) {
      if g != group {
        OtherGroupsKeepTheirOwner(members, after, g);
      } else {
        assert forall id | IsOwner(after, id, group) :: id == next || IsOwner(members, id, group);
      }
    }
  }

  lemma DeleteKeepsMembers(groups: set<GroupId>, members: map<MemberId, Member>, group: GroupId)
    requires MembersOf(groups, members)
    ensures MembersOf(groups - {group}, map id | id in members && members[id].group != group :: members[id])
  {
    var after := map id | id in members && members[id].group != group :: members[id];
    NoInsertKeepsMembers(members, after);
    forall g | g in groups - {group} ensures HasOneOwner(after, g) {
      OtherGroupsKeepTheirOwner(members, after, g);
    }
  }

  lemma CreateKeepsValid(db: Db, op: Op)
    requires Valid(db) && op.Create? && OutcomeOf(db, op) == Ok && FreshId(db.members, op)
    ensures Valid(Apply(db, op))
  {
    var after := Apply(db, op);
    CreateKeepsMembers(db.groups.Keys, db.members, db.nextGroup, op.id, after.members[op.id]);
    assert after.groups.Keys == db.groups.Keys + {db.nextGroup};
  }

  lemma JoinKeepsValid(db: Db, op: Op)
    requires Valid(db) && op.Join? && OutcomeOf(db, op) == Ok && FreshId(db.members, op)
    ensures Valid(Apply(db, op))
  {
    var after := Apply(db, op);
    InsertKeepsMembers(db.members, op.id, after.members[op.id]);
    SameOwnersKeepMembers(db.groups.Keys, db.members, after.members);
  }

  lemma RemovalKeepsMembers(groups: set<GroupId>, members: map<MemberId, Member>, me: MemberId)
    requires MembersOf(groups, members) && me in members && members[me].role != OWNER
    ensures MembersOf(groups, members - {me})
  {
    NoInsertKeepsMembers(members, members - {me});
    SameOwnersKeepMembers(groups, members, members - {me});
  }

  lemma SuccessionKeepsMembers(groups: set<GroupId>, members: map<MemberId, Member>, group: GroupId,
                               me: MemberId, next: MemberId)
    requires MembersOf(groups, members) && group in groups && IsOwner(members, me, group)
    requires next in members && members[next].group == group && next != me
    ensures MembersOf(groups, WithRole(members, next, OWNER) - {me})
  {
    HandoverKeepsMembers(groups, members, WithRole(members, next, OWNER) - {me}, group, me, next);
  }

  lemma SwapKeepsMembers(groups: set<GroupId>, members: map<MemberId, Member>, group: GroupId,
                         me: MemberId, other: MemberId)
    requires MembersOf(groups, members) && group in groups && IsOwner(members, me, group)
    requires other in members && members[other].group == group && other != me
    ensures MembersOf(groups, WithRole(WithRole(members, other, OWNER), me, MEMBER))
  {
    HandoverKeepsMembers(groups, members, WithRole(WithRole(members, other, OWNER), me, MEMBER), group, me, other);
  }

  lemma StampKeepsMembers(groups: set<GroupId>, members: map<MemberId, Member>, me: MemberId, at: int)
    requires MembersOf(groups, members) && me in members
    ensures MembersOf(groups, members[me := members[me].(lastReadAt := Some(at))])
  {
    var after := members[me := members[me].(lastReadAt := Some(at))];
    NoInsertKeepsMembers(members, after);
    SameOwnersKeepMembers(groups, members, after);
  }

  lemma LeaveKeepsValid(db: Db, user: User, group: GroupId)
    requires Valid(db) && FindMember(db.members, group, user).Some?
    ensures Valid(AfterLeave(db, user, group))
  {
    var me := FindMember(db.members, group, user).value;
    if db.members[me].role != OWNER {
      RemovalKeepsMembers(db.groups.Keys, db.members, me);
    } else {
      var next := FindSuccessor(db.members, group, user);
      if next.Some? {
        SuccessionKeepsMembers(db.groups.Keys, db.members, group, me, next.value);
      } else {
        DeleteKeepsMembers(db.groups.Keys, db.members, group);
        assert AfterLeave(db, user, group).groups.Keys == db.groups.Keys - {group};
      }
    }
  }

  lemma TransferKeepsValid(db: Db, op: Op)
    requires Valid(db) && op.Transfer? && OutcomeOf(db, op) == Ok
    ensures Valid(Apply(db, op))
  {
    var me := FindMember(db.members, op.group, op.caller).value;
    var other := FindMember(db.members, op.group, op.target).value;
    SwapKeepsMembers(db.groups.Keys, db.members, op.group, me, other);
  }

  lemma MarkReadKeepsValid(db: Db, op: Op)
    requires Valid(db) && op.MarkRead? && OutcomeOf(db, op) == Ok
    ensures Valid(Apply(db, op))
  {
    StampKeepsMembers(db.groups.Keys, db.members, FindMember(db.members, op.group, op.user).value, op.at);
  }

  lemma ApplyKeepsValid(db: Db, op: Op)
    requires Valid(db)
    ensures Valid(Apply(db, op))
  {
    if OutcomeOf(db, op) == Ok && FreshId(db.members, op) {
      match op
      case Create(_, _, _, _) => CreateKeepsValid(db, op);
      case Join(_, _, _, _) => JoinKeepsValid(db, op);
      case Leave(user, group) => LeaveKeepsValid(db, user, group);
      case Transfer(_, _, _) => TransferKeepsValid(db, op);
      case MarkRead(_, _, _) => MarkReadKeepsValid(db, op);
      case Post(_, _) =>
    }
  }

  lemma {:induction false} RunKeepsValid(db: Db, ops: seq<Op>)
    requires Valid(db)
    ensures Valid(Run(db, ops))
    decreases |ops|
  {
    if ops != [] {
      ApplyKeepsValid(db, ops[0]);
      RunKeepsValid(Apply(db, ops[0]), ops[1..]);
    }
  }

  /**
   In every reachable state each group has exactly one OWNER and so a member, nobody is a member
   twice, every membership and message belongs to an existing group, and no creator has two groups
   of one name.
   */
  lemma OwnershipHolds(ops: seq<Op>)
    ensures var db := Run(EMPTY_DB, ops);
      && (forall g | g in db.groups :: HasOneOwner(db.members, g))
      && NobodyTwice(db.members)
      && (forall id | id in db.members :: db.members[id].group in db.groups)
      && (forall m | m in db.messages :: db.messages[m] in db.groups)
      && (forall g, h | g in db.groups && h in db.groups && g != h :: db.groups[g] != db.groups[h])
  {
    RunKeepsValid(EMPTY_DB, ops);
  }

  lemma SuccessorIsUnique(members: map<MemberId, Member>, a: MemberId, b: MemberId, group: GroupId, user: User)
    requires IsSuccessor(members, a, group, user) && IsSuccessor(members, b, group, user)
    ensures a == b
  {
    assert a != b ==> EarlierMember(members, a, b) && EarlierMember(members, b, a);
  }

  /** The successor is another member than the one who leaves, and nobody else has been there longer. */
  lemma SuccessorIsLongestStanding(members: map<MemberId, Member>, id: MemberId, group: GroupId, user: User,
                                   other: MemberId)
    requires IsSuccessor(members, id, group, user)
    requires other in members && members[other].group == group && members[other].user != user
    ensures id in members && members[id].group == group && members[id].user != user
    ensures members[id].joinedAt <= members[other].joinedAt
    ensures members[id].joinedAt == members[other].joinedAt ==> id <= other
  {
    assert IsOther(members, other, group, user);
  }

  lemma SuccessorTakesOver(groups: set<GroupId>, members: map<MemberId, Member>, group: GroupId, user: User,
                           me: MemberId, next: MemberId)
    requires MembersOf(groups, members) && group in groups && IsOwner(members, me, group)
    requires IsMember(members, me, group, user) && IsSuccessor(members, next, group, user)
    ensures forall id ::
      IsOwner(WithRole(members, next, OWNER) - {me}, id, group) <==> IsSuccessor(members, id, group, user)
  {
    var after := WithRole(members, next, OWNER) - {me};
    SuccessionKeepsMembers(groups, members, group, me, next);
    assert HasOneOwner(after, group) && IsOwner(after, next, group);
    forall id ensures IsOwner(after, id, group) <==> IsSuccessor(members, id, group, user) {
      if IsSuccessor(members, id, group, user) {
        SuccessorIsUnique(members, id, next, group, user);
      }
    }
  }

  /**
   An owner who leaves hands the group to the least (joinedAt, id) of the others, or, exactly when
   there is no other, takes the group, its memberships and its messages with them.
   */
  lemma OwnerLeaves(db: Db, user: User, group: GroupId, me: MemberId)
    requires Valid(db) && IsMember(db.members, me, group, user) && IsOwner(db.members, me, group)
    ensures var after := Apply(db, Leave(user, group));
      && (group in after.groups <==> exists id :: IsOther(db.members, id, group, user))
      && (group in after.groups ==>
            forall id :: IsOwner(after.members, id, group) <==> IsSuccessor(db.members, id, group, user))
      && (group !in after.groups ==>
            after.log == db.log && forall m | m in after.messages :: after.messages[m] != group)
      && (forall id :: id in after.members <==> id in db.members && id != me)
  {
    FoundMemberIsUnique(db.members, me, group, user);
    var after := AfterLeave(db, user, group);
    var next := FindSuccessor(db.members, group, user);
    if next.Some? {
      SuccessorTakesOver(db.groups.Keys, db.members, group, user, me, next.value);
    } else {
      forall id | id in db.members && db.members[id].group == group ensures id == me {
        assert !IsOther(db.members, id, group, user);
      }
    }
  }

  // ---------- What the two requests on roles write ----------

  /** A transfer makes the target the owner and the caller a member, in that group and nowhere else. */
  lemma TransferIsExact(db: Db, group: GroupId, me: MemberId, other: MemberId)
    requires Valid(db) && IsOwner(db.members, me, group) && other in db.members && db.members[other].group == group
    requires other != me
    ensures var caller, target := db.members[me].user, db.members[other].user;
      Apply(db, Transfer(caller, group, target)) == db.(
        members := db.members[other := db.members[other].(role := OWNER)][me := db.members[me].(role := MEMBER)],
        log := db.log + [OwnerChanged(group, caller, target)])
  {
    FoundMemberIsUnique(db.members, me, group, db.members[me].user);
    FoundMemberIsUnique(db.members, other, group, db.members[other].user);
  }

  /** A leave removes the row, after making the successor of an owner the owner. */
  lemma LeaveIsExact(db: Db, group: GroupId, me: MemberId, next: MemberId)
    requires Valid(db) && me in db.members && db.members[me].group == group
    ensures var user := db.members[me].user;
      var after := Apply(db, Leave(user, group));
      && (db.members[me].role != OWNER ==>
            after == db.(members := db.members - {me}, log := db.log + [MemberLeft(group, user)]))
      && (db.members[me].role == OWNER && IsSuccessor(db.members, next, group, user) ==>
            after == db.(
              members := db.members[next := db.members[next].(role := OWNER)] - {me},
              log := db.log + [OwnerChanged(group, user, db.members[next].user), MemberLeft(group, user)]))
  {
    var user := db.members[me].user;
    FoundMemberIsUnique(db.members, me, group, user);
    var found := FindSuccessor(db.members, group, user);
    if IsSuccessor(db.members, next, group, user) {
      SuccessorIsUnique(db.members, next, found.value, group, user);
    }
  }
}
