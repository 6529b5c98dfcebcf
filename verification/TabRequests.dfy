/**
 What the turns of one tab do to its store, its flights and its requests, told from the turns alone: the
 last delivery wins the store, a flight resolves to what the server answered it, and a request goes out,
 waits and ends as those say.
 */
module TabRequests {
  import opened Wrappers
  import opened TabSession

  lemma {:induction false} RunLast(tab: Tab, front: seq<Turn>, last: Turn)
    ensures Run(tab, front + [last]) == Next(Run(tab, front), last)
    decreases |front|
  {
    if front == [] {
      assert front + [last] == [last];
      assert Run(tab, [last]) == Run(Next(tab, last), []);
    } else {
      assert (front + [last])[1..] == front[1..] + [last];
      RunLast(Next(tab, front[0]), front[1..], last);
    }
  }

  lemma {:induction false} DeliveredFront(tab: Tab, front: seq<Turn>, last: Turn)
    requires AllDelivered(tab, front + [last])
    ensures AllDelivered(tab, front) && Delivers(Run(tab, front), last)
    decreases |front|
  {
    if front == [] {
      assert front + [last] == [last];
    } else {
      assert (front + [last])[1..] == front[1..] + [last];
      DeliveredFront(Next(tab, front[0]), front[1..], last);
    }
  }

  lemma SplitLast(turns: seq<Turn>)
    requires turns != []
    ensures turns == turns[..|turns| - 1] + [turns[|turns| - 1]]
  {}

  // ---------- The store ----------

  /** The tokens of the last sign-in or answered refresh, unless a sign-out or a failed refresh came after it. */
  function LastStored(tab: Tab, turns: seq<Turn>): Option<Tokens> {
    if turns == [] then tab.store
    else
      var front := turns[..|turns| - 1];
      match turns[|turns| - 1]
      case SignedIn(tokens) => Some(tokens)
      case SignedOut => None
      case RefreshAnswered(tokens) => if Pending(Run(tab, front)) then Some(tokens) else LastStored(tab, front)
      case RefreshFailed => if Pending(Run(tab, front)) then None else LastStored(tab, front)
      case _ => LastStored(tab, front)
  }

  lemma {:induction false} LastDeliveryIsStored(tab: Tab, turns: seq<Turn>)
    ensures Run(tab, turns).store == LastStored(tab, turns)
  {
    if turns != [] {
      var front, last := turns[..|turns| - 1], turns[|turns| - 1];
      SplitLast(turns);
      LastDeliveryIsStored(tab, front);
      RunLast(tab, front, last);
    }
  }

  /** Every refresh token the store has held. */
  function EverStored(tab: Tab, turns: seq<Turn>): set<TokenTable.Token> {
    (if turns == [] then tab.held else EverStored(tab, turns[..|turns| - 1]))
    + match LastStored(tab, turns) { case Some(tokens) => {tokens.refresh} case None => {} }
  }

  lemma NextHoldsItsStore(tab: Tab, turn: Turn)
    requires tab.store.Some? ==> tab.store.value.refresh in tab.held
    ensures var after := Next(tab, turn);
      after.held == tab.held + match after.store { case Some(tokens) => {tokens.refresh} case None => {} }
  {
    var after := Next(tab, turn);
    assert after.held == tab.held || (after.store.Some? && after.held == tab.held + {after.store.value.refresh});
  }

  lemma {:induction false} HeldIsEverStored(stored: Option<Tokens>, turns: seq<Turn>)
    ensures Run(Opened(stored), turns).held == EverStored(Opened(stored), turns)
  {
    if turns != [] {
      var front, last := turns[..|turns| - 1], turns[|turns| - 1];
      SplitLast(turns);
      HeldIsEverStored(stored, front);
      RunLast(Opened(stored), front, last);
      LastDeliveryIsStored(Opened(stored), turns);
      StoredIsHeld(stored, front);
      NextHoldsItsStore(Run(Opened(stored), front), last);
    }
  }

  lemma {:induction false} StoredIsHeld(stored: Option<Tokens>, turns: seq<Turn>)
    ensures var tab := Run(Opened(stored), turns); tab.store.Some? ==> tab.store.value.refresh in tab.held
  {
    if turns != [] {
      SplitLast(turns);
      StoredIsHeld(stored, turns[..|turns| - 1]);
      RunLast(Opened(stored), turns[..|turns| - 1], turns[|turns| - 1]);
    }
  }

  /** The tokens whose refresh was pending when the page was reloaded. */
  function ReloadedDuring(tab: Tab, turns: seq<Turn>): set<TokenTable.Token> {
    if turns == [] then {}
    else
      var front := turns[..|turns| - 1];
      var before := Run(tab, front);
      ReloadedDuring(tab, front)
      + if turns[|turns| - 1].Reload? && Pending(before) && before.flights[before.refreshInFlight.value].posted.Some?
        then {before.flights[before.refreshInFlight.value].posted.value} else {}
  }

  lemma {:induction false} OrphansAreReloaded(stored: Option<Tokens>, turns: seq<Turn>)
    ensures Run(Opened(stored), turns).orphans == ReloadedDuring(Opened(stored), turns)
  {
    if turns != [] {
      SplitLast(turns);
      OrphansAreReloaded(stored, turns[..|turns| - 1]);
      RunLast(Opened(stored), turns[..|turns| - 1], turns[|turns| - 1]);
    }
  }

  // ---------- The flights ----------

  /**
   What the i-th flight was answered: an access token, or null for a failure of any kind or a page reloaded
   before the answer.
   */
  function AnswerOf(tab: Tab, turns: seq<Turn>, i: nat): Option<Option<nat>> {
    if turns == [] then None
    else
      var front := turns[..|turns| - 1];
      var before := Run(tab, front);
      if !Pending(before) || before.refreshInFlight != Some(i) then AnswerOf(tab, front, i)
      else
        match turns[|turns| - 1]
        case RefreshAnswered(tokens) => Some(Some(tokens.access))
        case RefreshFailed => Some(None)
        case Reload => Some(None)
        case _ => AnswerOf(tab, front, i)
  }

  lemma NextSettles(tab: Tab, turn: Turn, i: nat)
    requires Valid(tab) && i < |Next(tab, turn).flights|
    ensures i < |tab.flights| && !(Pending(tab) && tab.refreshInFlight == Some(i)) ==>
      Next(tab, turn).flights[i] == tab.flights[i]
    ensures i < |tab.flights| && Pending(tab) && tab.refreshInFlight == Some(i) ==>
      Next(tab, turn).flights[i].settled ==
        match turn {
          case RefreshAnswered(tokens) => Some(Some(tokens.access))
          case RefreshFailed => Some(None)
          case Reload => Some(None)
          case _ => None
        }
    ensures i >= |tab.flights| ==> Next(tab, turn).flights[i].settled.None?
  {}

  lemma {:induction false} NotYetAnswered(stored: Option<Tokens>, turns: seq<Turn>, i: nat)
    requires i >= |Run(Opened(stored), turns).flights|
    ensures AnswerOf(Opened(stored), turns, i) == None
  {
    if turns != [] {
      var front, last := turns[..|turns| - 1], turns[|turns| - 1];
      SplitLast(turns);
      RunLast(Opened(stored), front, last);
      NotYetAnswered(stored, front, i);
    }
  }

  /** In every run a flight has resolved to exactly what it was answered. */
  lemma {:induction false} FlightsResolveToTheirAnswer(stored: Option<Tokens>, turns: seq<Turn>, i: nat)
    requires AllDelivered(Opened(stored), turns) && i < |Run(Opened(stored), turns).flights|
    ensures Run(Opened(stored), turns).flights[i].settled == AnswerOf(Opened(stored), turns, i)
  {
    if turns != [] {
      var front, last := turns[..|turns| - 1], turns[|turns| - 1];
      var before := Run(Opened(stored), front);
      SplitLast(turns);
      RunLast(Opened(stored), front, last);
      DeliveredFront(Opened(stored), front, last);
      RunKeepsValid(Opened(stored), front);
      NextSettles(before, last, i);
      if i < |before.flights| {
        FlightsResolveToTheirAnswer(stored, front, i);
      } else {
        NotYetAnswered(stored, front, i);
      }
    }
  }

  /**
   The slot: the last flight started, unless it has settled and been cleared or the page was reloaded since.
   */
  function SlotOf(tab: Tab, turns: seq<Turn>): Option<nat> {
    if turns == [] then tab.refreshInFlight
    else
      var front := turns[..|turns| - 1];
      var before := Run(tab, front);
      match turns[|turns| - 1]
      case Unauthorized(r) => if WouldPost(before, r).Some? then Some(|before.flights|) else SlotOf(tab, front)
      case SlotCleared => if Pending(before) then SlotOf(tab, front) else None
      case Reload => None
      case _ => SlotOf(tab, front)
  }

  /** A settled flight leaves the slot, so that the next 401 starts another. */
  lemma {:induction false} SlotIsTheLastFlight(stored: Option<Tokens>, turns: seq<Turn>)
    requires AllDelivered(Opened(stored), turns)
    ensures Run(Opened(stored), turns).refreshInFlight == SlotOf(Opened(stored), turns)
  {
    if turns != [] {
      var front, last := turns[..|turns| - 1], turns[|turns| - 1];
      SplitLast(turns);
      RunLast(Opened(stored), front, last);
      DeliveredFront(Opened(stored), front, last);
      RunKeepsValid(Opened(stored), front);
      SlotIsTheLastFlight(stored, front);
    }
  }

  // ---------- The requests ----------

  predicate Over(request: Request) {
    request.state.Fulfilled? || request.state.Rejected?
  }

  function AccessOf(store: Option<Tokens>): Option<nat> {
    match store
    case Some(tokens) => Some(tokens.access)
    case None => None
  }

  /** The turns that are about the r-th request. */
  predicate About(turn: Turn, r: nat) {
    turn in {Answer(r, true), Answer(r, false), Unauthorized(r), Resume(r)}
  }

  /**
   A waiting request, resumed in any run: not before its flight is answered; if the answer was a pair it goes
   out once more, under the newest access token in the store, or the answered one if the store is empty, and
   no logout is announced; if it was a failure the request is rejected and one logout is announced.
   */
  lemma WaitingEndsAsAnswered(stored: Option<Tokens>, turns: seq<Turn>, r: nat)
    requires AllDelivered(Opened(stored), turns)
    requires r < |Run(Opened(stored), turns).requests| && Run(Opened(stored), turns).requests[r].state.Waiting?
    ensures var tab := Run(Opened(stored), turns);
      var request := tab.requests[r];
      var after := Next(tab, Resume(r));
      && request.sends == 1 && request.retried
      && after.store == tab.store && after.flights == tab.flights && after.refreshInFlight == tab.refreshInFlight
      && match AnswerOf(Opened(stored), turns, request.state.flight) {
           case None => after == tab
           case Some(Some(access)) =>
             && after.logoutEvents == tab.logoutEvents
             && var newest := AccessOf(LastStored(Opened(stored), turns));
                after.requests ==
                  tab.requests[r := Request(2, true, if newest.Some? then newest else Some(access), Sent)]
           case Some(None) =>
             && after.logoutEvents == tab.logoutEvents + 1
             && after.requests == tab.requests[r := request.(state := Rejected)]
         }
  {
    var tab := Run(Opened(stored), turns);
    RunKeepsValid(Opened(stored), turns);
    assert RequestOk(tab, tab.requests[r]);
    FlightsResolveToTheirAnswer(stored, turns, tab.requests[r].state.flight);
    LastDeliveryIsStored(Opened(stored), turns);
  }

  /**
   A request that is out, in any run: it carries the access token the store held when it was sent; a response
   other than a 401 ends it well or badly; a 401 ends it badly if it is its second or no token is stored, and
   else it waits, marked, for the flight in the slot.
   */
  lemma SentEndsAsAnswered(stored: Option<Tokens>, turns: seq<Turn>, r: nat, ok: bool)
    requires AllDelivered(Opened(stored), turns)
    ensures var tab := Run(Opened(stored), turns);
      && Next(tab, Send).requests
         == tab.requests + [Request(1, false, AccessOf(LastStored(Opened(stored), turns)), Sent)]
      && (r < |tab.requests| && tab.requests[r].state == Sent ==>
            var request := tab.requests[r];
            var answered, refused := Next(tab, Answer(r, ok)), Next(tab, Unauthorized(r));
            && answered.requests == tab.requests[r := request.(state := if ok then Fulfilled else Rejected)]
            && (request.retried || LastStored(Opened(stored), turns).None? ==>
                  refused == tab.(requests := tab.requests[r := request.(state := Rejected)]))
            && (!request.retried && LastStored(Opened(stored), turns).Some? ==>
                  && refused.refreshInFlight.Some?
                  && refused.requests == tab.requests[r :=
                       request.(retried := true, state := Waiting(refused.refreshInFlight.value))]))
  {
    LastDeliveryIsStored(Opened(stored), turns);
  }

  /** Only a resumed request announces a logout, and only a turn about a request, or a reload, touches it. */
  lemma OtherTurnsLeaveRequestsAlone(tab: Tab, turn: Turn, r: nat)
    requires r < |tab.requests| && !About(turn, r) && turn != Reload
    ensures r < |Next(tab, turn).requests| && Next(tab, turn).requests[r] == tab.requests[r]
    ensures !turn.Resume? ==> Next(tab, turn).logoutEvents == tab.logoutEvents
  {}

  /** A request that is over is never sent again. */
  lemma {:induction false} OverIsFinal(tab: Tab, turns: seq<Turn>, r: nat)
    requires r < |tab.requests| && Over(tab.requests[r]) && Reload !in turns
    ensures r < |Run(tab, turns).requests| && Run(tab, turns).requests[r] == tab.requests[r]
    decreases |turns|
  {
    if turns != [] {
      assert turns[0] in turns;
      if !About(turns[0], r) {
        OtherTurnsLeaveRequestsAlone(tab, turns[0], r);
      }
      OverIsFinal(Next(tab, turns[0]), turns[1..], r);
    }
  }

  // ---------- Logouts ----------

  /** The requests of the run resumed after their refresh failed. */
  function DeadSessions(stored: Option<Tokens>, turns: seq<Turn>): nat {
    if turns == [] then 0
    else
      var front, last := turns[..|turns| - 1], turns[|turns| - 1];
      DeadSessions(stored, front) + if FindsDeadSession(stored, front, last) then 1 else 0
  }

  predicate FindsDeadSession(stored: Option<Tokens>, front: seq<Turn>, last: Turn) {
    var tab := Run(Opened(stored), front);
    && last.Resume? && last.request < |tab.requests| && tab.requests[last.request].state.Waiting?
    && AnswerOf(Opened(stored), front, tab.requests[last.request].state.flight) == Some(None)
  }

  /** One logout is announced for each request resumed after a failed refresh, and none for anything else. */
  lemma {:induction false} LogoutsAreDeadSessions(stored: Option<Tokens>, turns: seq<Turn>)
    requires AllDelivered(Opened(stored), turns)
    ensures Run(Opened(stored), turns).logoutEvents == DeadSessions(stored, turns)
  {
    if turns != [] {
      var front, last := turns[..|turns| - 1], turns[|turns| - 1];
      SplitLast(turns);
      RunLast(Opened(stored), front, last);
      DeliveredFront(Opened(stored), front, last);
      LogoutsAreDeadSessions(stored, front);
      var tab := Run(Opened(stored), front);
      if last.Resume? && last.request < |tab.requests| && tab.requests[last.request].state.Waiting? {
        WaitingEndsAsAnswered(stored, front, last.request);
      }
    }
  }
}
