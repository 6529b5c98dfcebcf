/**
 A cached member row that never hears a stretch of the log: when it still ends as the row does that heard
 everything, and when it ends absent.
 */
module MissedMembers {
  import opened Wrappers
  import opened GroupTable
  import opened MemberCache

  predicate RemovedIn(group: GroupId, events: seq<Event>, user: User) {
    exists i :: 0 <= i < |events| && Removes(group, events[i], user)
  }

  predicate SetsRole(group: GroupId, e: Event, user: User) {
    GroupOf(e) == group && e.OwnerChanged? && (e.previousOwner == user || e.newOwner == user)
  }

  predicate SetsRead(group: GroupId, e: Event, user: User) {
    GroupOf(e) == group && e.ReadMarked? && e.user == user
  }

  predicate Joins(group: GroupId, e: Event, user: User) {
    GroupOf(e) == group && e.MemberJoined? && e.member.user == user
  }

  predicate RoleSetIn(group: GroupId, events: seq<Event>, user: User) {
    exists i :: 0 <= i < |events| && SetsRole(group, events[i], user)
  }

  predicate ReadSetIn(group: GroupId, events: seq<Event>, user: User) {
    exists i :: 0 <= i < |events| && SetsRead(group, events[i], user)
  }

  predicate JoinedIn(group: GroupId, events: seq<Event>, user: User) {
    exists i :: 0 <= i < |events| && Joins(group, events[i], user)
  }

  /** Two rows of a user that `events` make equal: each field they write may differ, and no other. */
  predicate Agree(group: GroupId, a: Member, b: Member, events: seq<Event>) {
    && b == a.(role := b.role, lastReadAt := b.lastReadAt)
    && (a.role == b.role || RoleSetIn(group, events, a.user))
    && (a.lastReadAt == b.lastReadAt || ReadSetIn(group, events, a.user))
  }

  /**
   Missing `missed` does no harm to a row that then hears `ahead`: the user leaves later; or there was no
   row and is none; or the row differs only in what is written again; or the user had left, and returns
   with a row that agrees with the old one.
   */
  predicate Harmless(group: GroupId, copy: Option<Member>, missed: seq<Event>, ahead: seq<Event>, user: User) {
    var after := Replay(group, copy, missed, user);
    || RemovedIn(group, ahead, user)
    || (copy.None? && after.None?)
    || (copy.Some? && after.Some? && Agree(group, copy.value, after.value, ahead))
    || (copy.Some? && after.None? && ReturnsAlike(group, copy.value, ahead, user))
  }

  predicate ReturnsAlike(group: GroupId, copy: Member, events: seq<Event>, user: User) {
    exists j :: 0 <= j < |events| && Joins(group, events[j], user)
      && Agree(group, copy, events[j].member, events[j + 1..])
  }

  /** A user with no row in the end: gone by the last departure or join, or never there. */
  predicate EndsAbsent(group: GroupId, copy: Option<Member>, events: seq<Event>, user: User) {
    || (copy.None? && !JoinedIn(group, events, user))
    || exists i :: 0 <= i < |events| && Removes(group, events[i], user) && !JoinedIn(group, events[i + 1..], user)
  }

  lemma SplitFirst(group: GroupId, events: seq<Event>, user: User)
    requires events != []
    ensures RemovedIn(group, events, user) <==> Removes(group, events[0], user) || RemovedIn(group, events[1..], user)
    ensures RoleSetIn(group, events, user) <==> SetsRole(group, events[0], user) || RoleSetIn(group, events[1..], user)
    ensures ReadSetIn(group, events, user) <==> SetsRead(group, events[0], user) || ReadSetIn(group, events[1..], user)
    ensures JoinedIn(group, events, user) <==> Joins(group, events[0], user) || JoinedIn(group, events[1..], user)
  {
    assert forall i | 0 <= i < |events[1..]| :: events[1..][i] == events[i + 1];
    assert forall i | 1 <= i < |events| :: events[i] == events[1..][i - 1];
  }

  function Heard(group: GroupId, m: Member, e: Event): Member {
    if GroupOf(e) == group then Patch(m, e) else m
  }

  /** One event that is no departure of the user. */
  lemma AgreeStep(group: GroupId, a: Member, b: Member, events: seq<Event>)
    requires events != [] && a.user == b.user && !Removes(group, events[0], a.user)
    ensures Agree(group, a, b, events) <==>
      Agree(group, Heard(group, a, events[0]), Heard(group, b, events[0]), events[1..])
  {
    SplitFirst(group, events, a.user);
  }

  /** With no departure two rows end equal if and only if they agree. */
  lemma {:induction false} EqualIffAgree(group: GroupId, a: Member, b: Member, events: seq<Event>)
    requires a.user == b.user && !RemovedIn(group, events, a.user)
    ensures Replay(group, Some(a), events, a.user).Some?
    ensures Replay(group, Some(a), events, a.user) == Replay(group, Some(b), events, a.user) <==>
      Agree(group, a, b, events)
    decreases |events|
  {
    if events != [] {
      SplitFirst(group, events, a.user);
      AgreeStep(group, a, b, events);
      EqualIffAgree(group, Heard(group, a, events[0]), Heard(group, b, events[0]), events[1..]);
    }
  }

  /** With no departure ahead an absent user stays absent, or joins with the row announced. */
  lemma {:induction false} EqualIffReturnsAlike(group: GroupId, copy: Member, events: seq<Event>)
    requires InOrder(group, None, events, copy.user) && !RemovedIn(group, events, copy.user)
    ensures Replay(group, Some(copy), events, copy.user) == Replay(group, None, events, copy.user) <==>
      ReturnsAlike(group, copy, events, copy.user)
    decreases |events|
  {
    if events != [] {
      var e, rest := events[0], events[1..];
      SplitFirst(group, events, copy.user);
      if Joins(group, e, copy.user) {
        EqualIffAgree(group, copy, e.member, rest);
        JoinsOnce(group, e.member, rest);
        if ReturnsAlike(group, copy, events, copy.user) {
          var j :| 0 <= j < |events| && Joins(group, events[j], copy.user)
            && Agree(group, copy, events[j].member, events[j + 1..]);
          assert j > 0 ==> Joins(group, rest[j - 1], copy.user);
        }
      } else {
        EqualIffReturnsAlike(group, copy, rest);
        ReturnsLater(group, copy, events);
      }
    }
  }

  lemma ReturnsLater(group: GroupId, copy: Member, events: seq<Event>)
    requires events != [] && !Joins(group, events[0], copy.user)
    ensures ReturnsAlike(group, copy, events, copy.user) <==> ReturnsAlike(group, copy, events[1..], copy.user)
  {
    var rest := events[1..];
    if ReturnsAlike(group, copy, events, copy.user) {
      var j :| 0 <= j < |events| && Joins(group, events[j], copy.user)
        && Agree(group, copy, events[j].member, events[j + 1..]);
      assert rest[j - 1] == events[j] && rest[j - 1 + 1..] == events[j + 1..];
    }
    if j :| 0 <= j < |rest| && Joins(group, rest[j], copy.user) && Agree(group, copy, rest[j].member, rest[j + 1..]) {
      assert rest[j] == events[j + 1] && rest[j + 1..] == events[j + 1 + 1..];
    }
  }

  /** A user who is there and does not leave cannot join. */
  lemma {:induction false} JoinsOnce(group: GroupId, m: Member, events: seq<Event>)
    requires InOrder(group, Some(m), events, m.user) && !RemovedIn(group, events, m.user)
    ensures !JoinedIn(group, events, m.user)
    decreases |events|
  {
    if events != [] {
      SplitFirst(group, events, m.user);
      JoinsOnce(group, Heard(group, m, events[0]), events[1..]);
    }
  }

  /** One who never joins stays absent. */
  lemma {:induction false} AbsentUntilJoined(group: GroupId, events: seq<Event>, user: User)
    requires !JoinedIn(group, events, user)
    ensures Replay(group, None, events, user) == None
    decreases |events|
  {
    if events != [] {
      SplitFirst(group, events, user);
      AbsentUntilJoined(group, events[1..], user);
    }
  }

  /** The row that missed a stretch ends as the one that heard it, if and only if the miss is harmless. */
  lemma MissedIffHarmless(group: GroupId, copy: Option<Member>, missed: seq<Event>, ahead: seq<Event>, user: User)
    requires InOrder(group, copy, missed + ahead, user) && (copy.Some? ==> copy.value.user == user)
    ensures Replay(group, copy, ahead, user) == Replay(group, copy, missed + ahead, user) <==>
      Harmless(group, copy, missed, ahead, user)
  {
    ReplayConcat(group, copy, missed, ahead, user);
    ReplayKeepsUser(group, copy, missed, user);
    var after := Replay(group, copy, missed, user);
    if RemovedIn(group, ahead, user) {
      var i :| 0 <= i < |ahead| && Removes(group, ahead[i], user);
      DepartureForgetsTheStart(group, copy, after, ahead, user, i);
    } else if after.Some? {
      JoinsOnce(group, after.value, ahead);
      if copy.Some? {
        EqualIffAgree(group, copy.value, after.value, ahead);
      } else {
        AbsentUntilJoined(group, ahead, user);
        EqualIffAgree(group, after.value, after.value, ahead);
      }
    } else if copy.Some? {
      EqualIffReturnsAlike(group, copy.value, ahead);
    }
  }

  /** A row is absent in the end if and only if its events say so. */
  lemma {:induction false} AbsentIffEndsAbsent(group: GroupId, copy: Option<Member>, events: seq<Event>, user: User)
    requires copy.Some? ==> copy.value.user == user
    ensures Replay(group, copy, events, user) == None <==> EndsAbsent(group, copy, events, user)
    decreases |events|
  {
    if events != [] {
      SplitFirst(group, events, user);
      AbsentIffEndsAbsent(group, SeeIn(group, copy, events[0], user), events[1..], user);
      EndsAbsentStep(group, copy, events, user);
    }
  }

  lemma EndsAbsentStep(group: GroupId, copy: Option<Member>, events: seq<Event>, user: User)
    requires events != [] && (copy.Some? ==> copy.value.user == user)
    ensures EndsAbsent(group, copy, events, user) <==>
      EndsAbsent(group, SeeIn(group, copy, events[0], user), events[1..], user)
  {
    var rest := events[1..];
    SplitFirst(group, events, user);
    if i :| 0 <= i < |events| && Removes(group, events[i], user) && !JoinedIn(group, events[i + 1..], user) {
      if i > 0 {
        assert rest[i - 1] == events[i] && rest[i - 1 + 1..] == events[i + 1..];
      }
    }
    if i :| 0 <= i < |rest| && Removes(group, rest[i], user) && !JoinedIn(group, rest[i + 1..], user) {
      assert rest[i] == events[i + 1] && rest[i + 1..] == events[i + 1 + 1..];
    }
  }
}
