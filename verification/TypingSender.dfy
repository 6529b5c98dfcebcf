/**
 The sending half of `useTyping` for one group: keystrokes become one `typing_start` and, after an
 idle while, one `typing_stop`. The clock counts milliseconds; a due timer runs before it moves on.
 */
module TypingSender {
  import opened Wrappers

  const STOP_AFTER: nat := 2500

  datatype Emission = TYPING_START(at: nat) | TYPING_STOP(at: nat)

  datatype State = State(
    now: nat,
    socket: bool,
    connected: bool,
    started: bool,
    stopTimer: Option<nat>,
    emitted: seq<Emission>)

  datatype Action =
    | NotifyTyping
    | StopTyping                             // called by the composer: sent, blurred or unmounted
    | Idle                                   // the due stop timer's callback runs
    | Socket(present: bool, connected: bool) // the provider's socket changes
    | Wait

  const MOUNTED := State(0, false, false, false, None, [])

  /** `stopTyping` with the socket it closes over; `socket?.emit` says nothing when there is none. */
  function StopWith(s: State, socket: bool): State {
    if !s.started then s.(stopTimer := None)
    else
      s.(started := false,
         stopTimer := None,
         emitted := if socket then s.emitted + [TYPING_STOP(s.now)] else s.emitted)
  }

  function Notify(s: State): State {
    if !s.socket || !s.connected then s
    else
      s.(started := true,
         stopTimer := Some(s.now + STOP_AFTER),
         emitted := if s.started then s.emitted else s.emitted + [TYPING_START(s.now)])
  }

  predicate IsDue(s: State) {
    s.stopTimer.Some? && s.stopTimer.value <= s.now
  }

  /** The timer's callback closes over the socket of the keystroke that set it, which was there. */
  function Step(s: State, a: Action): State {
    match a
    case NotifyTyping => Notify(s)
    case StopTyping => StopWith(s, s.socket)
    case Idle => if IsDue(s) then StopWith(s, true) else s
    case Socket(present, connected) => s.(socket := present, connected := connected)
    case Wait => if IsDue(s) then s else s.(now := s.now + 1)
  }

  function Run(s: State, actions: seq<Action>): State
    decreases |actions|
  {
    if actions == [] then s else Run(Step(s, actions[0]), actions[1..])
  }

  // ---------- The hook's refs, updated in place ----------

  class Sender {
    var now: nat
    var socket: bool
    var connected: bool
    var started: bool
    var stopTimer: Option<nat>
    var emitted: seq<Emission>

    ghost function View(): State
      reads this
    {
      State(now, socket, connected, started, stopTimer, emitted)
    }

    constructor ()
      ensures View() == MOUNTED
    {
      now, socket, connected, started, stopTimer, emitted := 0, false, false, false, None, [];
    }

    /** `socket` is the one the callback closed over. */
    method OnStop(socket: bool)
      modifies this
      ensures View() == StopWith(old(View()), socket)
      ensures !started && stopTimer == None
      ensures emitted == if old(started) && socket then old(emitted) + [TYPING_STOP(now)] else old(emitted)
    {
      stopTimer := None;
      if !started {
        return;
      }
      started := false;
      if socket {
        emitted := emitted + [TYPING_STOP(now)];
      }
    }

    method OnKeystroke()
      modifies this
      ensures View() == Step(old(View()), NotifyTyping)
      ensures socket && connected ==> started && stopTimer == Some(now + 2500)
      ensures emitted ==
        if socket && connected && !old(started) then old(emitted) + [TYPING_START(now)] else old(emitted)
    {
      if !socket || !connected {
        return;
      }
      if !started {
        started := true;
        emitted := emitted + [TYPING_START(now)];
      }
      stopTimer := Some(now + STOP_AFTER);
    }
  }

  // ---------- What the actions tell ----------

  /** The socket as the provider last left it. */
  predicate SocketThere(actions: seq<Action>) {
    actions != [] &&
    match actions[|actions| - 1] {
      case Socket(present, _) => present
      case _ => SocketThere(actions[..|actions| - 1])
    }
  }

  predicate SocketConnected(actions: seq<Action>) {
    actions != [] &&
    match actions[|actions| - 1] {
      case Socket(_, connected) => connected
      case _ => SocketConnected(actions[..|actions| - 1])
    }
  }

  /** The last action is a keystroke on a connected socket. */
  predicate IsKey(actions: seq<Action>)
    requires actions != []
  {
    var front := actions[..|actions| - 1];
    actions[|actions| - 1].NotifyTyping? && SocketThere(front) && SocketConnected(front)
  }

  /** The milliseconds that have passed: no time passes while a stop is due. */
  function Clock(actions: seq<Action>): nat
    decreases |actions|, 0
  {
    if actions == [] then 0
    else
      var front := actions[..|actions| - 1];
      Clock(front) + if actions[|actions| - 1].Wait? && !StopIsDue(front) then 1 else 0
  }

  /** When the last key was pressed on a connected socket; 0 before the first. */
  function LastKey(actions: seq<Action>): nat
    decreases |actions|, 1
  {
    if actions == [] then 0
    else if IsKey(actions) then Clock(actions[..|actions| - 1])
    else LastKey(actions[..|actions| - 1])
  }

  /** A key has been pressed on a connected socket since typing last stopped. */
  predicate IsTyping(actions: seq<Action>)
    decreases |actions|, 1
  {
    actions != [] &&
    (var front := actions[..|actions| - 1];
     match actions[|actions| - 1] {
       case NotifyTyping => IsTyping(front) || IsKey(actions)
       case StopTyping => false
       case Idle => IsTyping(front) && !StopIsDue(front)
       case _ => IsTyping(front)
     })
  }

  /** 2500 ms have passed since the last key. */
  predicate StopIsDue(actions: seq<Action>)
    decreases |actions|, 2
  {
    IsTyping(actions) && LastKey(actions) + STOP_AFTER <= Clock(actions)
  }

  /** What the hook says; `Dropped` is a stop swallowed because there is no socket. */
  datatype Said = Start(at: nat) | Stop(at: nat) | Dropped(at: nat)

  /** A start when typing begins, and a stop when it ends: asked for, or 2500 ms after the last key. */
  function SaidBy(actions: seq<Action>): seq<Said> {
    if actions == [] then []
    else
      var front := actions[..|actions| - 1];
      SaidBy(front) +
      match actions[|actions| - 1] {
        case NotifyTyping => if IsKey(actions) && !IsTyping(front) then [Start(Clock(front))] else []
        case StopTyping =>
          if !IsTyping(front) then []
          else if SocketThere(front) then [Stop(Clock(front))]
          else [Dropped(Clock(front))]
        case Idle => if StopIsDue(front) then [Stop(Clock(front))] else []
        case _ => []
      }
  }

  // ---------- Alternation ----------

  /** Start, then a stop of either kind, then start again. */
  predicate SaidInTurn(said: seq<Said>) {
    && (said != [] ==> said[0].Start?)
    && forall i | 0 < i < |said| :: said[i].Start? <==> !said[i - 1].Start?
  }

  predicate Alternates(emitted: seq<Emission>) {
    && (emitted != [] ==> emitted[0].TYPING_START?)
    && forall i | 0 < i < |emitted| :: emitted[i].TYPING_START? <==> emitted[i - 1].TYPING_STOP?
  }

  function Sent(said: seq<Said>): seq<Emission> {
    if said == [] then []
    else
      Sent(said[..|said| - 1]) +
      match said[|said| - 1] {
        case Start(at) => [TYPING_START(at)]
        case Stop(at) => [TYPING_STOP(at)]
        case Dropped(_) => []
      }
  }

  lemma SentMore(said: seq<Said>, s: Said)
    ensures Sent(said + [s]) == Sent(said) +
              match s { case Start(at) => [TYPING_START(at)] case Stop(at) => [TYPING_STOP(at)] case Dropped(_) => [] }
  {
    assert (said + [s])[..|said|] == said;
  }

  lemma {:induction false} RunLast(s: State, front: seq<Action>, last: Action)
    ensures Run(s, front + [last]) == Step(Run(s, front), last)
    decreases |front|
  {
    if front == [] {
      assert front + [last] == [last];
      assert Run(s, [last]) == Run(Step(s, last), []);
    } else {
      assert (front + [last])[1..] == front[1..] + [last];
      RunLast(Step(s, front[0]), front[1..], last);
    }
  }

  /** The state of the hook, told by the actions so far. */
  function Told(actions: seq<Action>): State {
    State(Clock(actions), SocketThere(actions), SocketConnected(actions), IsTyping(actions),
      if IsTyping(actions) then Some(LastKey(actions) + STOP_AFTER) else None,
      Sent(SaidBy(actions)))
  }

  predicate InTime(actions: seq<Action>) {
    && SaidInTurn(SaidBy(actions))
    && (IsTyping(actions) <==> SaidBy(actions) != [] && SaidBy(actions)[|SaidBy(actions)| - 1].Start?)
    && (IsTyping(actions) ==> LastKey(actions) <= Clock(actions) <= LastKey(actions) + STOP_AFTER)
  }

  lemma LastActionIsInTime(actions: seq<Action>)
    requires actions != [] && InTime(actions[..|actions| - 1])
    ensures InTime(actions)
  {}

  lemma LastActionIsSaid(actions: seq<Action>)
    requires actions != []
    ensures var front, last := actions[..|actions| - 1], actions[|actions| - 1];
      Told(actions).emitted ==
        if last.NotifyTyping? && IsKey(actions) && !IsTyping(front) then
          Told(front).emitted + [TYPING_START(Clock(front))]
        else if (last.StopTyping? && IsTyping(front) && SocketThere(front)) || (last.Idle? && StopIsDue(front)) then
          Told(front).emitted + [TYPING_STOP(Clock(front))]
        else Told(front).emitted
  {
    var front := actions[..|actions| - 1];
    SentMore(SaidBy(front), Start(Clock(front)));
    SentMore(SaidBy(front), Stop(Clock(front)));
    SentMore(SaidBy(front), Dropped(Clock(front)));
    assert SaidBy(front) + [] == SaidBy(front);
  }

  lemma DueIsTold(actions: seq<Action>)
    ensures StopIsDue(actions) <==> IsDue(Told(actions))
  {}

  lemma LastActionMovesTheClock(actions: seq<Action>)
    requires actions != []
    ensures var s, after := Step(Told(actions[..|actions| - 1]), actions[|actions| - 1]), Told(actions);
      after.now == s.now && after.socket == s.socket && after.connected == s.connected
  {
    DueIsTold(actions[..|actions| - 1]);
  }

  lemma LastActionSetsTheTimer(actions: seq<Action>)
    requires actions != []
    ensures var s, after := Step(Told(actions[..|actions| - 1]), actions[|actions| - 1]), Told(actions);
      after.started == s.started && after.stopTimer == s.stopTimer
  {
    DueIsTold(actions[..|actions| - 1]);
    match actions[|actions| - 1]
    case NotifyTyping =>
    case StopTyping =>
    case Idle =>
    case _ =>
  }

  lemma LastActionIsTold(actions: seq<Action>)
    requires actions != []
    ensures Told(actions) == Step(Told(actions[..|actions| - 1]), actions[|actions| - 1])
  {
    LastActionIsSaid(actions);
    LastActionMovesTheClock(actions);
    LastActionSetsTheTimer(actions);
    assert Told(actions).emitted == Step(Told(actions[..|actions| - 1]), actions[|actions| - 1]).emitted;
  }

  /**
   In every run the hook is what its actions tell: typing has been announced exactly while a key was pressed
   since the last stop; its stop is due 2500 ms after the last key; and a start goes out with a key on a
   connected socket exactly when none is announced, a stop exactly when an announced typing ends.
   */
  lemma {:induction false} RunIsTold(actions: seq<Action>)
    ensures Run(MOUNTED, actions) == Told(actions) && InTime(actions)
  {
    if actions != [] {
      var front, last := actions[..|actions| - 1], actions[|actions| - 1];
      assert actions == front + [last];
      RunIsTold(front);
      RunLast(MOUNTED, front, last);
      LastActionIsTold(actions);
      LastActionIsInTime(actions);
    }
  }

  /** No stop is dropped, except perhaps as the last thing said. */
  predicate NoStopLost(said: seq<Said>) {
    forall i | 0 <= i < |said| - 1 :: !said[i].Dropped?
  }

  lemma {:induction false} FaithfulPrefix(said: seq<Said>)
    requires forall i | 0 <= i < |said| :: !said[i].Dropped?
    ensures |Sent(said)| == |said|
    ensures forall i | 0 <= i < |said| :: Sent(said)[i].TYPING_START? <==> said[i].Start?
  {
    if said != [] {
      FaithfulPrefix(said[..|said| - 1]);
    }
  }

  /** A prefix of what is said sends a prefix of what is sent. */
  lemma {:induction false} SentPrefix(said: seq<Said>, n: nat)
    requires n <= |said|
    ensures Sent(said[..n]) <= Sent(said)
  {
    if n < |said| {
      SentPrefix(said[..|said| - 1], n);
      assert said[..|said| - 1][..n] == said[..n];
    } else {
      assert said[..n] == said;
    }
  }

  lemma FirstLost(said: seq<Said>) returns (i: nat)
    requires !NoStopLost(said)
    ensures i < |said| - 1 && said[i].Dropped? && forall j | 0 <= j < i :: !said[j].Dropped?
  {
    i := 0;
    while !said[i].Dropped?
      invariant i < |said| - 1
      invariant forall j | 0 <= j < i :: !said[j].Dropped?
      invariant exists j :: i <= j < |said| - 1 && said[j].Dropped?
      decreases |said| - i
    {
      i := i + 1;
    }
  }

  /** A lost stop leaves two starts in a row. */
  lemma LostStopBreaksTurns(said: seq<Said>)
    requires SaidInTurn(said) && !NoStopLost(said)
    ensures !Alternates(Sent(said))
  {
    var i := FirstLost(said);
    assert said[i + 1].Start? <==> !said[i].Start?;
    assert i > 0 && said[i - 1].Start?;
    FaithfulPrefix(said[..i]);
    SentMore(said[..i], said[i]);
    SentMore(said[..i + 1], said[i + 1]);
    assert said[..i + 1] == said[..i] + [said[i]] && said[..i + 2] == said[..i + 1] + [said[i + 1]];
    SentPrefix(said, i + 2);
    TwoStarts(Sent(said), Sent(said[..i + 2]), i);
  }

  lemma TwoStarts(emitted: seq<Emission>, part: seq<Emission>, i: nat)
    requires part <= emitted && 0 < i < |part| && part[i - 1].TYPING_START? && part[i].TYPING_START?
    ensures !Alternates(emitted)
  {
    assert emitted[i - 1] == part[i - 1] && emitted[i] == part[i];
  }

  lemma SameTurns(said: seq<Said>, emitted: seq<Emission>)
    requires SaidInTurn(said) && |emitted| <= |said|
    requires forall i | 0 <= i < |emitted| :: emitted[i].TYPING_START? <==> said[i].Start?
    ensures Alternates(emitted)
  {}

  lemma KeptStopsKeepTurns(said: seq<Said>)
    requires SaidInTurn(said) && NoStopLost(said)
    ensures Alternates(Sent(said))
  {
    if said != [] {
      var front, last := said[..|said| - 1], said[|said| - 1];
      FaithfulPrefix(front);
      SentMore(front, last);
      assert said == front + [last];
      SameTurns(said, Sent(said));
    }
  }

  /**
   What is emitted alternates start, stop, start, ... if and only if no stop that the composer asked for
   without a socket was followed by another start. A pending stop is due 2500 ms after the last key.
   */
  lemma EmissionsAlternate(actions: seq<Action>)
    ensures var s := Run(MOUNTED, actions);
      && (Alternates(s.emitted) <==> NoStopLost(SaidBy(actions)))
      && (s.stopTimer.Some? ==> s.stopTimer == Some(LastKey(actions) + 2500))
      && (s.stopTimer.Some? ==> LastKey(actions) <= s.now <= LastKey(actions) + 2500)
      && (s.stopTimer.Some? <==> s.started)
  {
    RunIsTold(actions);
    if NoStopLost(SaidBy(actions)) {
      KeptStopsKeepTurns(SaidBy(actions));
    } else {
      LostStopBreaksTurns(SaidBy(actions));
    }
  }

  /** A stop by the timer happens exactly 2500 ms after the last keystroke, and is always emitted. */
  lemma IdleStopsOnTime(actions: seq<Action>)
    ensures var s := Run(MOUNTED, actions);
      && (IsDue(s) <==> IsTyping(actions) && Clock(actions) == LastKey(actions) + 2500)
      && (IsDue(s) ==> Step(s, Idle).emitted == s.emitted + [TYPING_STOP(LastKey(actions) + 2500)])
      && (!IsDue(s) ==> Step(s, Idle) == s)
  {
    RunIsTold(actions);
  }

  /** Typing, losing the socket, stopping, and typing again once it is back: two starts and no stop. */
  lemma StopWithoutASocketIsLost()
    ensures var run := [Socket(true, true), NotifyTyping, Socket(false, false),
                        StopTyping, Socket(true, true), NotifyTyping];
      Run(MOUNTED, run).emitted == [TYPING_START(0), TYPING_START(0)]
  {
    var s1 := Step(MOUNTED, Socket(true, true));
    var s2 := Step(s1, NotifyTyping);
    var s3 := Step(s2, Socket(false, false));
    var s4 := Step(s3, StopTyping);
    var s5 := Step(s4, Socket(true, true));
    var s6 := Step(s5, NotifyTyping);
    assert s6.emitted == [TYPING_START(0), TYPING_START(0)];
    assert Run(s6, []) == s6;
    assert Run(s5, [NotifyTyping]) == s6;
    assert Run(s4, [Socket(true, true), NotifyTyping]) == s6;
    assert Run(s3, [StopTyping, Socket(true, true), NotifyTyping]) == s6;
    assert Run(s2, [Socket(false, false), StopTyping, Socket(true, true), NotifyTyping]) == s6;
    assert Run(s1, [NotifyTyping, Socket(false, false), StopTyping, Socket(true, true), NotifyTyping]) == s6;
  }
}
