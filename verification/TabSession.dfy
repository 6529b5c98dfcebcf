/**
 The browser side of token rotation, for one tab: the token store, the single-flight slot of
 `refreshAccessToken`, and the 401 interceptor. One turn of the event loop is one step.
 */
module TabSession {
  import opened Wrappers
  import opened TokenTable

  datatype Tokens = Tokens(access: nat, refresh: Token)

  /** One run of `doRefresh`: what it posted, and what its promise resolved to (`Some(None)` is null). */
  datatype Flight = Flight(posted: Option<Token>, settled: Option<Option<nat>>)

  datatype RequestState = Sent | Waiting(flight: nat) | Fulfilled | Rejected

  datatype Request = Request(sends: nat, retried: bool, bearer: Option<nat>, state: RequestState)

  /**
   History variables: `held`, every refresh token the store has ever held; `orphans`, those whose refresh
   was pending when the page was reloaded; and the flights of earlier loads of the page.
   */
  datatype Tab = Tab(
    store: Option<Tokens>,
    refreshInFlight: Option<nat>,
    flights: seq<Flight>,
    requests: seq<Request>,
    logoutEvents: nat,
    held: set<Token>,
    orphans: set<Token>)

  /** A tab just opened, with the tokens localStorage already has, if any. */
  function Opened(stored: Option<Tokens>): Tab {
    Tab(stored, None, [], [], 0, if stored.Some? then {stored.value.refresh} else {}, {})
  }

  datatype Turn =
    | Send                                // a caller issues a request through `api`
    | Answer(request: nat, ok: bool)      // a response other than 401
    | Unauthorized(request: nat)          // a 401 reaches the interceptor
    | RefreshAnswered(tokens: Tokens)     // /auth/refresh answers the flight in the slot
    | RefreshFailed                       // it fails: error status, or no reply at all
    | SlotCleared                         // the promise's `finally`
    | Resume(request: nat)                // a waiting request continues after its await
    | SignedIn(tokens: Tokens)            // login, register or googleLogin stores its reply
    | SignedOut                           // the `finally` of logout
    | Reload                              // the page is loaded anew, over the same localStorage

  function Bearer(store: Option<Tokens>): Option<nat> {
    if store.Some? then Some(store.value.access) else None
  }

  function Store(tab: Tab, tokens: Tokens): Tab {
    tab.(store := Some(tokens), held := tab.held + {tokens.refresh})
  }

  predicate Pending(tab: Tab) {
    && tab.refreshInFlight.Some? && tab.refreshInFlight.value < |tab.flights|
    && tab.flights[tab.refreshInFlight.value].settled.None?
  }

  function Settle(tab: Tab, result: Option<nat>): Tab
    requires Pending(tab)
  {
    var i := tab.refreshInFlight.value;
    tab.(flights := tab.flights[i := tab.flights[i].(settled := Some(result))])
  }

  function PostedBy(flight: Flight): set<Token> {
    if flight.posted.Some? then {flight.posted.value} else {}
  }

  /** A new instance of the module: slot and requests are empty, and nobody awaits the old flight. */
  function Reloaded(tab: Tab): Tab {
    var abandoned := if Pending(tab) then Settle(tab, None) else tab;
    abandoned.(
      refreshInFlight := None,
      requests := [],
      orphans := tab.orphans + if Pending(tab) then PostedBy(tab.flights[tab.refreshInFlight.value]) else {})
  }

  function SetRequest(tab: Tab, r: nat, request: Request): Tab
    requires r < |tab.requests|
  {
    tab.(requests := tab.requests[r := request])
  }

  /** Join the flight in the slot, or start one. */
  function RefreshAccessToken(tab: Tab): Tab {
    if tab.refreshInFlight.Some? then tab
    else tab.(
      refreshInFlight := Some(|tab.flights|),
      flights := tab.flights + [
        if tab.store.Some? then Flight(Some(tab.store.value.refresh), None)
        else Flight(None, Some(None))])
  }

  predicate CanRetry(tab: Tab, request: Request) {
    !request.retried && tab.store.Some?
  }

  function Next(tab: Tab, turn: Turn): Tab {
    match turn
    case Send =>
      tab.(requests := tab.requests + [Request(1, false, Bearer(tab.store), Sent)])
    case Answer(r, ok) =>
      if r < |tab.requests| && tab.requests[r].state == Sent then
        SetRequest(tab, r, tab.requests[r].(state := if ok then Fulfilled else Rejected))
      else tab
    case Unauthorized(r) =>
      if r < |tab.requests| && tab.requests[r].state == Sent then
        if CanRetry(tab, tab.requests[r]) then
          var after := RefreshAccessToken(tab);
          SetRequest(after, r, tab.requests[r].(retried := true, state := Waiting(after.refreshInFlight.value)))
        else SetRequest(tab, r, tab.requests[r].(state := Rejected))
      else tab
    case RefreshAnswered(tokens) =>
      if Pending(tab) then Settle(Store(tab, tokens), Some(tokens.access)) else tab
    case RefreshFailed =>
      if Pending(tab) then Settle(tab.(store := None), None) else tab
    case SlotCleared =>
      if tab.refreshInFlight.Some? && !Pending(tab) then tab.(refreshInFlight := None) else tab
    case Resume(r) =>
      if r < |tab.requests| && tab.requests[r].state.Waiting? && tab.requests[r].state.flight < |tab.flights|
         && tab.flights[tab.requests[r].state.flight].settled.Some?
      then
        var request := tab.requests[r];
        match tab.flights[request.state.flight].settled.value
        case Some(access) =>
          // the request interceptor runs again and prefers whatever the store holds now
          var bearer := if tab.store.Some? then Bearer(tab.store) else Some(access);
          SetRequest(tab, r, request.(sends := request.sends + 1, bearer := bearer, state := Sent))
        case None =>
          SetRequest(tab, r, request.(state := Rejected)).(logoutEvents := tab.logoutEvents + 1)
      else tab
    case SignedIn(tokens) => Store(tab, tokens)
    case SignedOut => tab.(store := None)
    case Reload => Reloaded(tab)
  }

  function Run(tab: Tab, turns: seq<Turn>): Tab
    decreases |turns|
  {
    if turns == [] then tab else Run(Next(tab, turns[0]), turns[1..])
  }

  // ---------- Invariant ----------

  ghost predicate RequestOk(tab: Tab, request: Request) {
    && 1 <= request.sends <= 2
    && (!request.retried ==> request.sends == 1 && !request.state.Waiting?)
    && (request.state.Waiting? ==> request.sends == 1 && request.state.flight < |tab.flights|)
  }

  ghost predicate Valid(tab: Tab) {
    && (tab.refreshInFlight.Some? ==> tab.refreshInFlight.value < |tab.flights|)
    && (forall i | 0 <= i < |tab.flights| && tab.flights[i].settled.None? ::
          tab.refreshInFlight == Some(i) && tab.flights[i].posted.Some?)
    && (forall r | 0 <= r < |tab.requests| :: RequestOk(tab, tab.requests[r]))
    && (tab.store.Some? ==> tab.store.value.refresh in tab.held)
    && (forall i | 0 <= i < |tab.flights| && tab.flights[i].posted.Some? :: tab.flights[i].posted.value in tab.held)
    // a token already posted can only still be stored while its own flight is pending, or as an orphan
    && (forall i | 0 <= i < |tab.flights| && tab.store.Some?
          && tab.flights[i].posted == Some(tab.store.value.refresh) ::
          tab.flights[i].settled.None? || tab.store.value.refresh in tab.orphans)
    && PostedOnce(tab)
    && (forall t | t in tab.orphans :: Posted(tab, t))
  }

  ghost predicate PostedOnce(tab: Tab) {
    forall i, j | 0 <= i < j < |tab.flights| && tab.flights[i].posted.Some?
      && tab.flights[i].posted == tab.flights[j].posted ::
      tab.flights[i].posted.value in tab.orphans
  }

  predicate Posted(tab: Tab, token: Token) {
    exists i :: 0 <= i < |tab.flights| && tab.flights[i].posted == Some(token)
  }

  /** The server never hands out a refresh token it has handed out before. */
  predicate Delivers(tab: Tab, turn: Turn) {
    match turn
    case RefreshAnswered(tokens) => tokens.refresh !in tab.held
    case SignedIn(tokens) => tokens.refresh !in tab.held
    case _ => true
  }

  predicate AllDelivered(tab: Tab, turns: seq<Turn>)
    decreases |turns|
  {
    turns == [] || (Delivers(tab, turns[0]) && AllDelivered(Next(tab, turns[0]), turns[1..]))
  }

  lemma SetRequestKeepsValid(tab: Tab, r: nat, request: Request)
    requires Valid(tab) && r < |tab.requests| && RequestOk(tab, request)
    ensures Valid(SetRequest(tab, r, request))
  {}

  lemma RefreshKeepsValid(tab: Tab)
    requires Valid(tab) && tab.store.Some?
    ensures Valid(RefreshAccessToken(tab))
    ensures RefreshAccessToken(tab).refreshInFlight.Some?
    ensures RefreshAccessToken(tab).requests == tab.requests
  {
    var after := RefreshAccessToken(tab);
    assert forall r | 0 <= r < |tab.requests| :: RequestOk(after, tab.requests[r]);
    FlightsKeepPosted(tab, after);
  }

  lemma FlightsKeepPosted(tab: Tab, after: Tab)
    requires |tab.flights| <= |after.flights|
    requires forall i | 0 <= i < |tab.flights| :: after.flights[i].posted == tab.flights[i].posted
    ensures forall t: Token | Posted(tab, t) :: Posted(after, t)
  {
    forall t: Token | Posted(tab, t) ensures Posted(after, t) {
      var i :| 0 <= i < |tab.flights| && tab.flights[i].posted == Some(t);
      assert after.flights[i].posted == Some(t);
    }
  }

  lemma UnauthorizedKeepsValid(tab: Tab, r: nat)
    requires Valid(tab)
    ensures Valid(Next(tab, Unauthorized(r)))
  {
    if r < |tab.requests| && tab.requests[r].state == Sent {
      if CanRetry(tab, tab.requests[r]) {
        RefreshKeepsValid(tab);
        var after := RefreshAccessToken(tab);
        SetRequestKeepsValid(after, r,
          tab.requests[r].(retried := true, state := Waiting(after.refreshInFlight.value)));
      } else {
        SetRequestKeepsValid(tab, r, tab.requests[r].(state := Rejected));
      }
    }
  }

  function Restore(tab: Tab, store: Option<Tokens>): Tab {
    tab.(store := store, held := tab.held + if store.Some? then {store.value.refresh} else {})
  }

  lemma SettleKeepsValid(tab: Tab, result: Option<nat>, store: Option<Tokens>)
    requires Valid(tab) && Pending(tab)
    requires store.Some? ==> store.value.refresh !in tab.held
    ensures Valid(Settle(Restore(tab, store), result))
  {
    var after := Settle(Restore(tab, store), result);
    assert forall i | 0 <= i < |tab.flights| :: after.flights[i].posted == tab.flights[i].posted;
    assert forall r | 0 <= r < |tab.requests| :: RequestOk(after, tab.requests[r]);
    FlightsKeepPosted(tab, after);
  }

  lemma ReloadKeepsValid(tab: Tab)
    requires Valid(tab)
    ensures Valid(Reloaded(tab))
  {
    var after := Reloaded(tab);
    assert forall i | 0 <= i < |tab.flights| :: after.flights[i].posted == tab.flights[i].posted;
    FlightsKeepPosted(tab, after);
    if Pending(tab) {
      assert after.flights[tab.refreshInFlight.value].posted == tab.flights[tab.refreshInFlight.value].posted;
    }
  }

  /** Turns that leave the flights as they are. */
  lemma QuietTurnKeepsValid(tab: Tab, turn: Turn)
    requires Valid(tab) && Delivers(tab, turn)
    requires turn.Send? || turn.SlotCleared? || turn.SignedIn? || turn.SignedOut?
    ensures Valid(Next(tab, turn))
  {
    assert forall r | 0 <= r < |tab.requests| :: RequestOk(Next(tab, turn), tab.requests[r]);
    FlightsKeepPosted(tab, Next(tab, turn));
  }

  lemma ResumeKeepsValid(tab: Tab, r: nat)
    requires Valid(tab)
    ensures Valid(Next(tab, Resume(r)))
  {
    if r < |tab.requests| && tab.requests[r].state.Waiting? {
      assert RequestOk(tab, tab.requests[r]);
    }
  }

  lemma NextKeepsValid(tab: Tab, turn: Turn)
    requires Valid(tab) && Delivers(tab, turn)
    ensures Valid(Next(tab, turn))
  {
    match turn
    case Unauthorized(r) => UnauthorizedKeepsValid(tab, r);
    case Answer(r, ok) =>
      if r < |tab.requests| && tab.requests[r].state == Sent {
        SetRequestKeepsValid(tab, r, tab.requests[r].(state := if ok then Fulfilled else Rejected));
      }
    case RefreshAnswered(tokens) =>
      if Pending(tab) {
        SettleKeepsValid(tab, Some(tokens.access), Some(tokens));
      }
    case RefreshFailed =>
      if Pending(tab) {
        assert tab.held + {} == tab.held;
        SettleKeepsValid(tab, None, None);
      }
    case Resume(r) => ResumeKeepsValid(tab, r);
    case Reload => ReloadKeepsValid(tab);
    case _ => QuietTurnKeepsValid(tab, turn);
  }

  lemma {:induction false} RunKeepsValid(tab: Tab, turns: seq<Turn>)
    requires Valid(tab) && AllDelivered(tab, turns)
    ensures Valid(Run(tab, turns))
    decreases |turns|
  {
    if turns != [] {
      NextKeepsValid(tab, turns[0]);
      RunKeepsValid(Next(tab, turns[0]), turns[1..]);
    }
  }

  /**
   In every run of one tab, opened with tokens or without, no refresh token is posted to /auth/refresh
   twice but one whose refresh was pending when the page was reloaded; at most one refresh is pending, and
   no request is sent more than twice.
   */
  lemma EachTokenIsPostedAtMostOnce(stored: Option<Tokens>, turns: seq<Turn>)
    requires AllDelivered(Opened(stored), turns)
    ensures var tab := Run(Opened(stored), turns);
      && (forall i, j | 0 <= i < j < |tab.flights| && tab.flights[i].posted.Some?
            && tab.flights[i].posted == tab.flights[j].posted ::
            tab.flights[i].posted.value in tab.orphans)
      && (forall i, j | 0 <= i < j < |tab.flights| :: tab.flights[i].settled.Some? || tab.flights[j].settled.Some?)
      && (forall r | 0 <= r < |tab.requests| :: tab.requests[r].sends <= 2)
  {
    RunKeepsValid(Opened(stored), turns);
  }

  /** The token a 401 would post now, if it would start a refresh. */
  function WouldPost(tab: Tab, r: nat): Option<Token> {
    if r < |tab.requests| && tab.requests[r].state == Sent && CanRetry(tab, tab.requests[r])
       && tab.refreshInFlight.None?
    then Some(tab.store.value.refresh) else None
  }

  /** A 401 posts a token again if and only if the token's refresh was pending at a reload. */
  lemma PostedAgainIffOrphan(stored: Option<Tokens>, turns: seq<Turn>, r: nat)
    requires AllDelivered(Opened(stored), turns)
    ensures var tab := Run(Opened(stored), turns);
      var after := Next(tab, Unauthorized(r));
      && (|after.flights| > |tab.flights| <==> WouldPost(tab, r).Some?)
      && (WouldPost(tab, r).Some? ==>
            && after.flights == tab.flights + [Flight(WouldPost(tab, r), None)]
            && (Posted(tab, WouldPost(tab, r).value) <==> WouldPost(tab, r).value in tab.orphans))
  {
    RunKeepsValid(Opened(stored), turns);
  }

  /** Such a run: a 401, a reload before the answer, and another 401. */
  lemma ReloadPostsTwice(tokens: Tokens)
    ensures var tab := Run(Opened(Some(tokens)), [Send, Unauthorized(0), Reload, Send, Unauthorized(0)]);
      && AllDelivered(Opened(Some(tokens)), [Send, Unauthorized(0), Reload, Send, Unauthorized(0)])
      && |tab.flights| == 2 && tab.flights[0].posted == tab.flights[1].posted == Some(tokens.refresh)
  {
    var t0 := Opened(Some(tokens));
    var t1 := Next(t0, Send);
    var t2 := Next(t1, Unauthorized(0));
    var t3 := Next(t2, Reload);
    var t4 := Next(t3, Send);
    TurnFirst(t0, Send, [Unauthorized(0)] + ([Reload] + ([Send] + ([Unauthorized(0)] + []))));
    TurnFirst(t1, Unauthorized(0), [Reload] + ([Send] + ([Unauthorized(0)] + [])));
    TurnFirst(t2, Reload, [Send] + ([Unauthorized(0)] + []));
    TurnFirst(t3, Send, [Unauthorized(0)] + []);
    TurnFirst(t4, Unauthorized(0), []);
    assert [Send] + ([Unauthorized(0)] + ([Reload] + ([Send] + ([Unauthorized(0)] + []))))
        == [Send, Unauthorized(0), Reload, Send, Unauthorized(0)];
    assert t2.flights == [Flight(Some(tokens.refresh), None)];
    assert t4.refreshInFlight.None? && t4.flights == [Flight(Some(tokens.refresh), Some(None))];
  }

  lemma TurnFirst(tab: Tab, turn: Turn, rest: seq<Turn>)
    ensures Run(tab, [turn] + rest) == Run(Next(tab, turn), rest)
    ensures AllDelivered(tab, [turn] + rest) <==> Delivers(tab, turn) && AllDelivered(Next(tab, turn), rest)
  {
    assert ([turn] + rest)[1..] == rest;
  }
}
