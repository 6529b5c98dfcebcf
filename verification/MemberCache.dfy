/**
 The browser's cached member list of one group, kept by four socket handlers, against the server's
 memberships. Events arrive in the order they were emitted but arbitrarily late, and a group detail
 may be fetched and installed while older events are still on the way.
 */
module MemberCache {
  import opened Wrappers
  import opened GroupTable

  function GroupOf(e: Event): GroupId {
    match e
    case MemberJoined(group, _) => group
    case MemberLeft(group, _) => group
    case OwnerChanged(group, _, _) => group
    case ReadMarked(group, _, _) => group
  }

  // ---------- The handlers ----------

  predicate Lists(list: seq<Member>, user: User) {
    exists i :: 0 <= i < |list| && list[i].user == user
  }

  function Without(list: seq<Member>, user: User): seq<Member> {
    if list == [] then []
    else if list[0].user == user then Without(list[1..], user)
    else [list[0]] + Without(list[1..], user)
  }

  /** What one cached row becomes under the two handlers that map over the list. */
  function Patch(m: Member, e: Event): Member {
    match e
    case OwnerChanged(_, previous, next) =>
      if m.user == next then m.(role := OWNER) else if m.user == previous then m.(role := MEMBER) else m
    case ReadMarked(_, user, at) => if m.user == user then m.(lastReadAt := Some(at)) else m
    case _ => m
  }

  function PatchAll(list: seq<Member>, e: Event): seq<Member> {
    seq(|list|, i requires 0 <= i < |list| => Patch(list[i], e))
  }

  function OnEvent(list: seq<Member>, e: Event): seq<Member> {
    match e
    case MemberJoined(_, member) => if Lists(list, member.user) then list else list + [member]
    case MemberLeft(_, user) => Without(list, user)
    case _ => PatchAll(list, e)
  }

  /** The handlers of `SocketProvider` over the cached group details; no detail, nothing to do. */
  class SocketProvider {
    var details: map<GroupId, seq<Member>>

    constructor ()
      ensures details == map[]
    {
      details := map[];
    }

    method Update(e: Event)
      modifies this
      ensures details == if GroupOf(e) in old(details)
                         then old(details)[GroupOf(e) := OnEvent(old(details)[GroupOf(e)], e)] else old(details)
    {
      var group := GroupOf(e);
      if group in details {
        var old' := details[group];
        match e
        case MemberJoined(_, member) =>
          if !Lists(old', member.user) {
            details := details[group := old' + [member]];
          }
        case MemberLeft(_, user) => details := details[group := Without(old', user)];
        case _ => details := details[group := PatchAll(old', e)];
      }
    }
  }

  // ---------- One user's row ----------

  function Find(list: seq<Member>, user: User): Option<Member> {
    if list == [] then None else if list[0].user == user then Some(list[0]) else Find(list[1..], user)
  }

  predicate NobodyListedTwice(list: seq<Member>) {
    forall i, j | 0 <= i < j < |list| :: list[i].user != list[j].user
  }

  function See(copy: Option<Member>, e: Event, user: User): Option<Member> {
    match copy
    case Some(m) => if e.MemberLeft? && e.user == user then None else Some(Patch(m, e))
    case None => if e.MemberJoined? && e.member.user == user then Some(e.member) else None
  }

  lemma {:induction false} FindAfterAppend(list: seq<Member>, m: Member, user: User)
    ensures Find(list + [m], user)
      == if Find(list, user).Some? then Find(list, user) else if m.user == user then Some(m) else None
  {
    if list == [] {
      assert list + [m] == [m];
    } else {
      assert (list + [m])[1..] == list[1..] + [m];
      FindAfterAppend(list[1..], m, user);
    }
  }

  lemma {:induction false} FindAfterPatch(list: seq<Member>, e: Event, user: User)
    requires !e.MemberJoined? && !e.MemberLeft?
    ensures Find(PatchAll(list, e), user) == match Find(list, user) case Some(m) => Some(Patch(m, e)) case None => None
  {
    if list != [] {
      assert PatchAll(list, e)[1..] == PatchAll(list[1..], e);
      FindAfterPatch(list[1..], e, user);
    }
  }

  lemma {:induction false} FindAfterRemoval(list: seq<Member>, gone: User, user: User)
    ensures Find(Without(list, gone), user) == if user == gone then None else Find(list, user)
  {
    if list != [] {
      FindAfterRemoval(list[1..], gone, user);
      if list[0].user != gone {
        assert ([list[0]] + Without(list[1..], gone))[1..] == Without(list[1..], gone);
      }
    }
  }

  lemma {:induction false} RemovalOnlyRemoves(list: seq<Member>, gone: User)
    requires NobodyListedTwice(list)
    ensures NobodyListedTwice(Without(list, gone))
    ensures forall m | m in Without(list, gone) :: m in list
  {
    if list != [] {
      RemovalOnlyRemoves(list[1..], gone);
      forall m | m in Without(list[1..], gone) ensures m.user != list[0].user {
        var i :| 0 <= i < |list[1..]| && list[1..][i] == m;
        assert list[i + 1] == m;
      }
    }
  }

  lemma {:induction false} FindIsListed(list: seq<Member>, user: User)
    ensures Find(list, user).Some? <==> Lists(list, user)
    ensures Find(list, user).Some? ==> Find(list, user).value.user == user
  {
    if list != [] {
      FindIsListed(list[1..], user);
      if Lists(list[1..], user) {
        var i :| 0 <= i < |list[1..]| && list[1..][i].user == user;
        assert list[i + 1].user == user;
      }
      if i :| 0 <= i < |list| && list[i].user == user {
        if i != 0 {
          assert list[1..][i - 1].user == user;
        }
      }
    }
  }

  lemma JoinSeesEachUser(list: seq<Member>, m: Member, user: User)
    requires NobodyListedTwice(list)
    ensures var after := if Lists(list, m.user) then list else list + [m];
      && NobodyListedTwice(after)
      && Find(after, user) == if Find(list, user).None? && m.user == user then Some(m) else Find(list, user)
  {
    FindIsListed(list, user);
    FindIsListed(list, m.user);
    FindAfterAppend(list, m, user);
  }

  /** The list handlers do to each user's row what `See` says, and never list anyone twice. */
  lemma HandlerSeesEachUser(list: seq<Member>, e: Event, user: User)
    requires NobodyListedTwice(list)
    ensures NobodyListedTwice(OnEvent(list, e))
    ensures Find(OnEvent(list, e), user) == See(Find(list, user), e, user)
  {
    match e
    case MemberJoined(_, member) => JoinSeesEachUser(list, member, user);
    case MemberLeft(_, gone) =>
      FindIsListed(list, user);
      FindAfterRemoval(list, gone, user);
      RemovalOnlyRemoves(list, gone);
    case _ => FindAfterPatch(list, e, user);
  }

  // ---------- Replay ----------

  function SeeIn(group: GroupId, copy: Option<Member>, e: Event, user: User): Option<Member> {
    if GroupOf(e) == group then See(copy, e, user) else copy
  }

  function Replay(group: GroupId, copy: Option<Member>, events: seq<Event>, user: User): Option<Member>
    decreases |events|
  {
    if events == [] then copy else Replay(group, SeeIn(group, copy, events[0], user), events[1..], user)
  }

  predicate Concerns(e: Event, user: User) {
    match e
    case MemberJoined(_, m) => m.user == user
    case MemberLeft(_, u) => u == user
    case OwnerChanged(_, p, n) => p == user || n == user
    case ReadMarked(_, u, _) => u == user
  }

  /** The server announces a join only of a non-member, and everything else only of members. */
  predicate InOrder(group: GroupId, copy: Option<Member>, events: seq<Event>, user: User)
    decreases |events|
  {
    events == [] ||
    (&& (GroupOf(events[0]) == group && Concerns(events[0], user) ==> (copy.None? <==> events[0].MemberJoined?))
     && InOrder(group, SeeIn(group, copy, events[0], user), events[1..], user))
  }

  lemma {:induction false} ReplayConcat(group: GroupId, copy: Option<Member>, a: seq<Event>, b: seq<Event>, user: User)
    ensures Replay(group, copy, a + b, user) == Replay(group, Replay(group, copy, a, user), b, user)
    ensures InOrder(group, copy, a + b, user) <==>
      InOrder(group, copy, a, user) && InOrder(group, Replay(group, copy, a, user), b, user)
    decreases |a|
  {
    if a == [] {
      assert a + b == b;
    } else {
      assert (a + b)[1..] == a[1..] + b;
      ReplayConcat(group, SeeIn(group, copy, a[0], user), a[1..], b, user);
    }
  }

  predicate Removes(group: GroupId, e: Event, user: User) {
    GroupOf(e) == group && e.MemberLeft? && e.user == user
  }

  /** After a departure it no longer matters where the replay started. */
  lemma {:induction false} DepartureForgetsTheStart(group: GroupId, a: Option<Member>, b: Option<Member>,
                                                    events: seq<Event>, user: User, i: nat)
    requires i < |events| && Removes(group, events[i], user)
    ensures Replay(group, a, events, user) == Replay(group, b, events, user)
    decreases |events|
  {
    if i != 0 {
      DepartureForgetsTheStart(group, SeeIn(group, a, events[0], user), SeeIn(group, b, events[0], user),
        events[1..], user, i - 1);
    }
  }

  /** With no departure, role and read time end where the last event left them, or where they began. */
  lemma {:induction false} LastWriteWins(group: GroupId, a: Member, b: Member, events: seq<Event>, user: User)
    requires a.user == user && b == a.(role := b.role, lastReadAt := b.lastReadAt)
    requires forall i | 0 <= i < |events| :: !Removes(group, events[i], user)
    ensures Replay(group, Some(a), events, user).Some? && Replay(group, Some(b), events, user).Some?
    ensures var x, y := Replay(group, Some(a), events, user).value, Replay(group, Some(b), events, user).value;
      && x == a.(role := x.role, lastReadAt := x.lastReadAt)
      && y == a.(role := y.role, lastReadAt := y.lastReadAt)
      && (x.role == y.role || (x.role == a.role && y.role == b.role))
      && (x.lastReadAt == y.lastReadAt || (x.lastReadAt == a.lastReadAt && y.lastReadAt == b.lastReadAt))
    decreases |events|
  {
    if events != [] {
      assert !Removes(group, events[0], user);
      var in_ := GroupOf(events[0]) == group;
      LastWriteWins(group, if in_ then Patch(a, events[0]) else a, if in_ then Patch(b, events[0]) else b,
        events[1..], user);
    }
  }

  /** A row is unmoved by any stretch of the log it has already seen. */
  lemma {:induction false} SeenEventsChangeNothing(group: GroupId, copy: Option<Member>, events: seq<Event>, user: User)
    requires InOrder(group, copy, events, user) && (copy.Some? ==> copy.value.user == user)
    ensures Replay(group, Replay(group, copy, events, user), events, user) == Replay(group, copy, events, user)
    decreases |events|
  {
    if i :| 0 <= i < |events| && Removes(group, events[i], user) {
      DepartureForgetsTheStart(group, copy, Replay(group, copy, events, user), events, user, i);
    } else if copy.Some? {
      LastWriteWins(group, copy.value, copy.value, events, user);
      LastWriteWins(group, copy.value, Replay(group, copy, events, user).value, events, user);
    } else if events != [] {
      var next := SeeIn(group, copy, events[0], user);
      forall i | 0 <= i < |events[1..]| ensures !Removes(group, events[1..][i], user) {
        assert !Removes(group, events[i + 1], user);
      }
      if next.Some? {
        LastWriteWins(group, next.value, next.value, events[1..], user);
        LastWriteWins(group, next.value, Replay(group, next, events[1..], user).value, events[1..], user);
      } else {
        SeenEventsChangeNothing(group, None, events[1..], user);
        if Replay(group, None, events[1..], user).Some? {
          ReplayKeepsUser(group, None, events[1..], user);
        }
      }
    }
  }

  lemma {:induction false} ReplayKeepsUser(group: GroupId, copy: Option<Member>, events: seq<Event>, user: User)
    requires copy.Some? ==> copy.value.user == user
    ensures Replay(group, copy, events, user).Some? ==> Replay(group, copy, events, user).value.user == user
    decreases |events|
  {
    if events != [] {
      ReplayKeepsUser(group, SeeIn(group, copy, events[0], user), events[1..], user);
    }
  }
}
