/**
 `GroupsService`: each write as the code performs it, statement by statement inside its
 transaction, with the events emitted after it commits.
 */
module GroupsService {
  import opened Wrappers
  import opened GroupTable

  class Service {
    var groups: map<GroupId, Group>
    var members: map<MemberId, Member>
    var messages: map<nat, GroupId>
    var nextGroup: nat
    var events: seq<Event>

    ghost function View(): Db
      reads this
    {
      Db(groups, members, messages, nextGroup, events)
    }

    constructor ()
      ensures View() == EMPTY_DB && Valid(View())
    {
      groups, members, messages, nextGroup, events := map[], map[], map[], 0, [];
    }

    method FindUnique(group: GroupId, user: User) returns (found: Option<MemberId>)
      requires NobodyTwice(members)
      ensures found == FindMember(members, group, user)
    {
      if exists id :: id in members && IsMember(members, id, group, user) {
        var id :| id in members && IsMember(members, id, group, user);
        found := Some(id);
      } else {
        found := None;
      }
    }

    /** The first of the others by (joinedAt, id). */
    method FindFirstOther(group: GroupId, user: User) returns (found: Option<MemberId>)
      ensures found == FindSuccessor(members, group, user)
    {
      found := None;
      var rest := members.Keys;
      while rest != {}
        invariant rest <= members.Keys
        invariant found.Some? ==> IsOther(members, found.value, group, user) && found.value !in rest
        invariant forall id | id in members && id !in rest && IsOther(members, id, group, user) ::
          found.Some? && (id != found.value ==> EarlierMember(members, found.value, id))
        decreases |rest|
      {
        var id :| id in rest;
        rest := rest - {id};
        if IsOther(members, id, group, user) && (found.None? || EarlierMember(members, id, found.value)) {
          found := Some(id);
        }
      }
      if found.Some? {
        assert IsSuccessor(members, found.value, group, user);
        SuccessorIsUnique(members, found.value, FindSuccessor(members, group, user).value, group, user);
      }
    }

    method Create(user: User, name: string, id: MemberId, at: int) returns (result: Option<GroupId>)
      requires Valid(View()) && id !in members
      modifies this
      ensures Valid(View()) && View() == Apply(old(View()), GroupTable.Create(user, name, id, at))
      ensures result.None? <==> NameTaken(old(View()), user, name)
      ensures result.Some? ==>
        && result.value !in old(groups) && HasOneOwner(members, result.value)
        && groups == old(groups)[result.value := Group(name, user)]
        && members == old(members)[id := Member(result.value, user, OWNER, at, None)]
        && messages == old(messages) && events == old(events)
    {
      ApplyKeepsValid(View(), GroupTable.Create(user, name, id, at));
      if exists g :: g in groups && groups[g] == Group(name, user) {
        return None;
      }
      var group := nextGroup;
      groups := groups[group := Group(name, user)];
      nextGroup := nextGroup + 1;
      members := members[id := Member(group, user, OWNER, at, None)];
      return Some(group);
    }

    /** The membership insert: the foreign key and the unique index decide; only success emits. */
    method InsertMember(user: User, group: GroupId, id: MemberId, at: int) returns (outcome: Outcome)
      requires Valid(View()) && id !in members
      modifies this
      ensures Valid(View()) && View() == Apply(old(View()), GroupTable.Join(user, group, id, at))
      ensures outcome == OutcomeOf(old(View()), GroupTable.Join(user, group, id, at))
      ensures outcome == Ok ==> members == old(members)[id := Member(group, user, MEMBER, at, None)]
    {
      ApplyKeepsValid(View(), GroupTable.Join(user, group, id, at));
      if group !in groups {
        return NotFound;
      }
      var existing := FindUnique(group, user);
      if existing.Some? {
        return Conflict;
      }
      var member := Member(group, user, MEMBER, at, None);
      members := members[id := member];
      events := events + [MemberJoined(group, member)];
      return Ok;
    }

    method DeleteGroupCascade(group: GroupId)
      modifies this
      ensures View() == DeleteGroup(old(View()), group)
    {
      groups := groups - {group};
      members := map id | id in members && members[id].group != group :: members[id];
      messages := map id | id in messages && messages[id] != group :: messages[id];
    }

    /** Promotion and departure in one transaction, then the two events, ownership first. */
    method HandOver(user: User, group: GroupId, me: MemberId, successor: MemberId)
      requires me in members && successor in members
      modifies this`members, this`events
      ensures members == WithRole(old(members), successor, OWNER) - {me}
      ensures events == old(events) + [OwnerChanged(group, user, old(members)[successor].user), MemberLeft(group, user)]
    {
      var newOwner := members[successor].user;
      members := WithRole(members, successor, OWNER);
      members := members - {me};
      events := events + [OwnerChanged(group, user, newOwner)];
      events := events + [MemberLeft(group, user)];
    }

    method Leave(user: User, group: GroupId) returns (outcome: Outcome)
      requires Valid(View())
      modifies this
      ensures Valid(View()) && View() == Apply(old(View()), GroupTable.Leave(user, group))
      ensures outcome == if FindMember(old(members), group, user).Some? then Ok else Forbidden
      ensures outcome == Forbidden ==> View() == old(View())
      ensures forall me | IsMember(old(members), me, group, user) && old(members)[me].role != OWNER ::
        && members == old(members) - {me} && groups == old(groups) && messages == old(messages)
        && events == old(events) + [MemberLeft(group, user)]
    {
      ApplyKeepsValid(View(), GroupTable.Leave(user, group));
      var me := FindUnique(group, user);
      if me.None? {
        return Forbidden;
      }
      outcome := Ok;
      if members[me.value].role != OWNER {
        members := members - {me.value};
        events := events + [MemberLeft(group, user)];
        return;
      }
      var successor := FindFirstOther(group, user);
      if successor.None? {
        DeleteGroupCascade(group);
      } else {
        HandOver(user, group, me.value, successor.value);
      }
    }

    method TransferOwnership(caller: User, group: GroupId, target: User) returns (outcome: Outcome)
      requires Valid(View())
      modifies this
      ensures Valid(View()) && View() == Apply(old(View()), Transfer(caller, group, target))
      ensures outcome == OutcomeOf(old(View()), Transfer(caller, group, target))
      ensures outcome == Ok ==>
        && FindMember(members, group, target).Some? && IsOwner(members, FindMember(members, group, target).value, group)
        && FindMember(members, group, caller).Some?
        && !IsOwner(members, FindMember(members, group, caller).value, group)
        && groups == old(groups)
      ensures outcome == BadRequest <==> caller == target
      ensures outcome == Forbidden <==>
        caller != target && forall me | IsMember(old(members), me, group, caller) :: old(members)[me].role != OWNER
      ensures outcome == NotFound ==> forall other :: !IsMember(old(members), other, group, target)
      ensures outcome != Ok ==> View() == old(View())
    {
      ApplyKeepsValid(View(), Transfer(caller, group, target));
      if caller == target {
        return BadRequest;
      }
      var me := FindUnique(group, caller);
      if me.None? || members[me.value].role != OWNER {
        return Forbidden;
      }
      var other := FindUnique(group, target);
      if other.None? {
        return NotFound;
      }
      members := WithRole(members, other.value, OWNER);
      members := WithRole(members, me.value, MEMBER);
      events := events + [OwnerChanged(group, caller, target)];
      outcome := Ok;
      FoundMemberIsUnique(members, me.value, group, caller);
      FoundMemberIsUnique(members, other.value, group, target);
    }

    method MarkRead(user: User, group: GroupId, at: int) returns (outcome: Outcome)
      requires Valid(View())
      modifies this
      ensures Valid(View()) && View() == Apply(old(View()), GroupTable.MarkRead(user, group, at))
      ensures outcome == OutcomeOf(old(View()), GroupTable.MarkRead(user, group, at))
      ensures outcome == NotFound <==> forall me :: !IsMember(old(members), me, group, user)
      ensures outcome == NotFound ==> View() == old(View())
      ensures forall me | IsMember(old(members), me, group, user) ::
        && members == old(members)[me := old(members)[me].(lastReadAt := Some(at))]
        && events == old(events) + [ReadMarked(group, user, at)]
    {
      ApplyKeepsValid(View(), GroupTable.MarkRead(user, group, at));
      var me := FindUnique(group, user);
      if me.None? {
        return NotFound;
      }
      members := members[me.value := members[me.value].(lastReadAt := Some(at))];
      events := events + [ReadMarked(group, user, at)];
      return Ok;
    }

    /** One request of someone else. */
    method Serve(op: Op)
      requires Valid(View())
      modifies this
      ensures Valid(View()) && View() == Apply(old(View()), op)
    {
      if FreshId(members, op) {
        match op
        case Create(user, name, id, at) => var _ := this.Create(user, name, id, at);
        case Join(user, group, id, at) => var _ := InsertMember(user, group, id, at);
        case Leave(user, group) => var _ := this.Leave(user, group);
        case Transfer(caller, group, target) => var _ := TransferOwnership(caller, group, target);
        case MarkRead(user, group, at) => var _ := this.MarkRead(user, group, at);
        case Post(message, group) =>
          ApplyKeepsValid(View(), op);
          if group in groups && message !in messages {
            messages := messages[message := group];
          }
      }
    }

    method Others(ops: seq<Op>)
      requires Valid(View())
      modifies this
      ensures Valid(View()) && View() == Run(old(View()), ops)
    {
      for i := 0 to |ops|
        invariant Valid(View()) && Run(old(View()), ops) == Run(View(), ops[i..])
      {
        Serve(ops[i]);
        assert ops[i..][1..] == ops[i + 1..];
      }
    }

    /**
     The group is looked up, then the membership inserted; others run in between. Found then gone
     is the foreign-key failure; neither failure changes anything of its own.
     */
    method Join(user: User, group: GroupId, id: MemberId, at: int, between: seq<Op>) returns (outcome: Outcome)
      requires Valid(View()) && id !in Run(View(), between).members
      modifies this
      ensures Valid(View())
      ensures outcome == Ok <==>
        && group in old(groups) && group in Run(old(View()), between).groups
        && FindMember(Run(old(View()), between).members, group, user).None?
      ensures outcome == Ok ==>
        && View() == Apply(Run(old(View()), between), GroupTable.Join(user, group, id, at))
        && members == Run(old(View()), between).members[id := Member(group, user, MEMBER, at, None)]
        && events == Run(old(View()), between).log + [MemberJoined(group, members[id])]
      ensures outcome != Ok ==> View() == if group in old(groups) then Run(old(View()), between) else old(View())
      ensures outcome == Conflict ==> FindMember(members, group, user).Some?
    {
      if group !in groups {
        return NotFound;
      }
      Others(between);
      outcome := InsertMember(user, group, id, at);
    }
  }
}
