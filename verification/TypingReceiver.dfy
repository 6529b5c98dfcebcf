/**
 The receiving half of `useTyping` for one group: who is shown as typing, and the timer that takes
 each of them down. The clock counts milliseconds; a timer that is due runs before it moves on.
 */
module TypingReceiver {
  import opened Wrappers

  type Group = nat
  type User = nat

  const EXPIRE_AFTER: nat := 5000

  datatype State = State(group: Group, now: nat, shown: seq<User>, timers: map<User, nat>)

  datatype Action =
    | Hear(group: Group, user: User, typing: bool)
    | Expire(user: User)   // a due timer's callback runs
    | Wait                 // a millisecond passes
    | Cleanup              // the effect is torn down and set up again

  function Removed(users: seq<User>, user: User): seq<User> {
    if users == [] then []
    else if users[0] == user then Removed(users[1..], user)
    else [users[0]] + Removed(users[1..], user)
  }

  function Added(users: seq<User>, user: User): seq<User> {
    if user in users then users else users + [user]
  }

  function OnTyping(s: State, user: User, typing: bool): State {
    s.(shown := if typing then Added(s.shown, user) else Removed(s.shown, user),
       timers := if typing then s.timers[user := s.now + EXPIRE_AFTER] else s.timers - {user})
  }

  predicate IsDue(s: State, user: User) {
    user in s.timers && s.timers[user] <= s.now
  }

  function Step(s: State, a: Action): State {
    match a
    case Hear(group, user, typing) => if group != s.group then s else OnTyping(s, user, typing)
    case Expire(user) =>
      if IsDue(s, user) then s.(shown := Removed(s.shown, user), timers := s.timers - {user}) else s
    case Wait => if forall user | user in s.timers :: !IsDue(s, user) then s.(now := s.now + 1) else s
    case Cleanup => s.(shown := [], timers := map[])
  }

  function Run(s: State, actions: seq<Action>): State
    decreases |actions|
  {
    if actions == [] then s else Run(Step(s, actions[0]), actions[1..])
  }

  function Mounted(group: Group): State {
    State(group, 0, [], map[])
  }

  // ---------- The hook's own state, updated in place ----------

  class Receiver {
    const group: Group
    var now: nat
    var typingUserIds: seq<User>
    var expiryTimers: map<User, nat>

    ghost function View(): State
      reads this
    {
      State(group, now, typingUserIds, expiryTimers)
    }

    constructor (group: Group)
      ensures View() == Mounted(group)
    {
      this.group := group;
      now, typingUserIds, expiryTimers := 0, [], map[];
    }

    method OnEvent(group: Group, user: User, typing: bool)
      modifies this
      ensures View() == Step(old(View()), Hear(group, user, typing))
    {
      if group != this.group {
        return;
      }
      expiryTimers := expiryTimers - {user};
      if typing {
        if user !in typingUserIds {
          typingUserIds := typingUserIds + [user];
        }
        expiryTimers := expiryTimers[user := now + EXPIRE_AFTER];
      } else {
        typingUserIds := Removed(typingUserIds, user);
      }
    }

    method OnExpiry(user: User)
      requires IsDue(View(), user)
      modifies this
      ensures View() == Step(old(View()), Expire(user))
    {
      expiryTimers := expiryTimers - {user};
      typingUserIds := Removed(typingUserIds, user);
    }

    method OnCleanup()
      modifies this
      ensures View() == Step(old(View()), Cleanup)
    {
      typingUserIds, expiryTimers := [], map[];
    }
  }

  // ---------- Who is shown ----------

  predicate NoDuplicates(users: seq<User>) {
    forall i, j | 0 <= i < j < |users| :: users[i] != users[j]
  }

  lemma {:induction false} RemovedIsGone(users: seq<User>, user: User)
    requires NoDuplicates(users)
    ensures NoDuplicates(Removed(users, user))
    ensures forall u :: u in Removed(users, user) <==> u in users && u != user
  {
    if users != [] {
      RemovedIsGone(users[1..], user);
      assert forall u :: u in users <==> u == users[0] || u in users[1..];
      assert users[0] !in users[1..];
    }
  }

  lemma {:induction false} RunLast(s: State, front: seq<Action>, last: Action)
    ensures Run(s, front + [last]) == Step(Run(s, front), last)
    decreases |front|
  {
    if front == [] {
      assert front + [last] == [last];
      assert Run(s, [last]) == Run(Step(s, last), []);
    } else {
      assert (front + [last])[1..] == front[1..] + [last];
      RunLast(Step(s, front[0]), front[1..], last);
    }
  }

  datatype Heard = Heard(typing: bool, at: nat)

  /** The last event of this group about the user since the effect was set up, and when it came. */
  function LastHeard(group: Group, actions: seq<Action>, user: User): Option<Heard> {
    if actions == [] then None
    else
      var front := actions[..|actions| - 1];
      match actions[|actions| - 1]
      case Hear(g, u, typing) =>
        if g == group && u == user then Some(Heard(typing, Run(Mounted(group), front).now))
        else LastHeard(group, front, user)
      case Cleanup => None
      case _ => LastHeard(group, front, user)
  }

  /** A pending timer belongs to a start that is the last thing heard of its user; a start without one has run out. */
  predicate TimerOk(s: State, last: Option<Heard>, user: User) {
    if user in s.timers then
      last.Some? && last.value.typing && last.value.at <= s.now <= s.timers[user] == last.value.at + EXPIRE_AFTER
    else
      last.Some? && last.value.typing ==> last.value.at + EXPIRE_AFTER <= s.now
  }

  ghost predicate Good(s: State, group: Group, actions: seq<Action>) {
    && s.group == group && NoDuplicates(s.shown)
    && (forall user :: user in s.shown <==> user in s.timers)
    && (forall user :: TimerOk(s, LastHeard(group, actions, user), user))
  }

  lemma LastHeardMore(group: Group, front: seq<Action>, last: Action, user: User)
    ensures LastHeard(group, front + [last], user) ==
      match last {
        case Hear(g, u, typing) =>
          if g == group && u == user then Some(Heard(typing, Run(Mounted(group), front).now))
          else LastHeard(group, front, user)
        case Cleanup => None
        case _ => LastHeard(group, front, user)
      }
  {
    assert (front + [last])[..|front|] == front;
  }

  lemma StepKeepsShown(s: State, a: Action)
    requires NoDuplicates(s.shown) && forall user :: user in s.shown <==> user in s.timers
    ensures var after := Step(s, a);
      && after.group == s.group && NoDuplicates(after.shown)
      && forall user :: user in after.shown <==> user in after.timers
  {
    match a
    case Hear(_, user, _) => RemovedIsGone(s.shown, user);
    case Expire(user) => RemovedIsGone(s.shown, user);
    case _ =>
  }

  lemma StepKeepsTimer(group: Group, front: seq<Action>, last: Action, user: User)
    requires var s := Run(Mounted(group), front); s.group == group && TimerOk(s, LastHeard(group, front, user), user)
    ensures TimerOk(Step(Run(Mounted(group), front), last), LastHeard(group, front + [last], user), user)
  {
    LastHeardMore(group, front, last, user);
  }

  lemma StepKeepsGood(group: Group, front: seq<Action>, last: Action)
    requires Good(Run(Mounted(group), front), group, front)
    ensures Good(Step(Run(Mounted(group), front), last), group, front + [last])
  {
    StepKeepsShown(Run(Mounted(group), front), last);
    forall u ensures TimerOk(Step(Run(Mounted(group), front), last), LastHeard(group, front + [last], u), u) {
      StepKeepsTimer(group, front, last, u);
    }
  }

  lemma {:induction false} RunKeepsGood(group: Group, actions: seq<Action>)
    ensures Good(Run(Mounted(group), actions), group, actions)
  {
    if actions != [] {
      var front, last := actions[..|actions| - 1], actions[|actions| - 1];
      assert actions == front + [last];
      RunKeepsGood(group, front);
      RunLast(Mounted(group), front, last);
      StepKeepsGood(group, front, last);
    }
  }

  /**
   In every run nobody is shown twice, those shown are exactly those with a pending timer, and
   whoever is shown was last heard starting, at most 5000 ms ago; conversely whoever was last heard
   starting less than 5000 ms ago is shown. A timer runs at 5000 ms, and no time passes while one is due.
   */
  lemma ShownAreTyping(group: Group, actions: seq<Action>, user: User)
    ensures var s := Run(Mounted(group), actions);
      var last := LastHeard(group, actions, user);
      && NoDuplicates(s.shown)
      && (user in s.shown <==> user in s.timers)
      && (user in s.shown ==> last.Some? && last.value.typing && s.now - last.value.at <= 5000)
      && (last.Some? && last.value.typing && s.now - last.value.at < 5000 ==> user in s.shown)
      && (IsDue(s, user) <==> user in s.shown && s.now - last.value.at == 5000)
      && (user in Step(s, Expire(user)).shown <==> user in s.shown && !IsDue(s, user))
      && Step(s, Wait).now == s.now + if exists u :: u in s.timers && IsDue(s, u) then 0 else 1
  {
    RunKeepsGood(group, actions);
    var s := Run(Mounted(group), actions);
    assert TimerOk(s, LastHeard(group, actions, user), user);
    RemovedIsGone(s.shown, user);
  }
}
