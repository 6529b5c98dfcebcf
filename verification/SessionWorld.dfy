/**
 One tab and the server together. Replies may be lost or late, a refresh the tab has given up on may
 still run to its end on the server, the tab may log in and out and be reloaded at any time, and other
 sessions, the purge and the clock run beside it.
 */
module SessionWorld {
  import opened Wrappers
  import opened TokenTable
  import opened RotationCalls
  import T = TabSession

  /**
   `callOf[i]` is the server call flight `i` started, `inbox` the tokens of login replies under way
   to the tab, `mine` (a history variable) the families issued to the tab.
   */
  datatype World = World(tab: T.Tab, sys: Sys, callOf: seq<nat>, inbox: set<Token>, mine: set<Family>)

  datatype Event =
    | Turn(turn: T.Turn)                  // a turn that neither reaches nor hears from the server
    | RequestUnauthorized(request: nat)   // a 401, which may start a refresh
    | RefreshReply(access: nat)           // the server's pair arrives
    | RefreshLost                         // an error status, a timeout, a dropped connection
    | LoginServed(user: User)             // the server issues a session for the tab
    | LoginReply(access: nat, token: Token)
    | LogoutPosted(token: Token)          // the tab posts a token it held to /auth/logout
    | LogoutFinished                      // and forgets it
    | Reload                              // the page is loaded anew, and replies under way are lost
    | Serve(call: nat, userFound: bool)   // a server call runs up to its next await
    | OthersLogin(user: User)
    | OthersPresent(kind: Kind, token: Token)
    | PurgeRuns
    | Passes(ms: nat)

  function Begin(now: int, ttl: int, grace: int): World {
    World(T.Opened(None), Start(now, ttl, grace), [], {}, {})
  }

  predicate Local(turn: T.Turn) {
    turn.Send? || turn.Answer? || turn.SlotCleared? || turn.Resume?
  }

  function PairOf(sys: Sys, call: nat): Option<Token> {
    if call < |sys.calls| && sys.calls[call].pc.Done? && sys.calls[call].pc.outcome.Pair?
    then Some(sys.calls[call].pc.outcome.refresh) else None
  }

  /** The token the server's answer to the pending flight carries, if it has one. */
  function Reply(w: World): Option<Token> {
    if T.Pending(w.tab) && w.tab.refreshInFlight.value < |w.callOf|
    then PairOf(w.sys, w.callOf[w.tab.refreshInFlight.value]) else None
  }

  /** The server action behind an event that changes nothing but the server. */
  function SysAction(w: World, e: Event): Option<Action> {
    match e
    case LogoutPosted(token) => if token in w.tab.held then Some(Present(Logout, token)) else None
    case Serve(c, userFound) => Some(Advance(c, userFound))
    case OthersLogin(user) => Some(Login(user))
    case OthersPresent(kind, token) => Some(Present(kind, token))
    case PurgeRuns => Some(RunPurge)
    case Passes(ms) => Some(Wait(ms))
    case _ => None
  }

  function Step(w: World, e: Event): World {
    match e
    case Turn(turn) => if Local(turn) then w.(tab := T.Next(w.tab, turn)) else w
    case RequestUnauthorized(r) =>
      var tab := T.Next(w.tab, T.Unauthorized(r));
      if |tab.flights| > |w.tab.flights| && tab.flights[|w.tab.flights|].posted.Some? then
        w.(tab := tab,
           sys := RotationCalls.Next(w.sys, Present(Rotation, tab.flights[|w.tab.flights|].posted.value)),
           callOf := w.callOf + [|w.sys.calls|])
      else w.(tab := tab)
    case RefreshReply(access) =>
      if Reply(w).Some? then w.(tab := T.Next(w.tab, T.RefreshAnswered(T.Tokens(access, Reply(w).value)))) else w
    case RefreshLost => w.(tab := T.Next(w.tab, T.RefreshFailed))
    case LoginServed(user) =>
      w.(sys := RotationCalls.Next(w.sys, Login(user)),
         inbox := w.inbox + {w.sys.db.nextToken}, mine := w.mine + {w.sys.db.nextFamily})
    case LoginReply(access, token) =>
      if token in w.inbox then
        w.(tab := T.Next(w.tab, T.SignedIn(T.Tokens(access, token))), inbox := w.inbox - {token})
      else w
    case LogoutFinished => w.(tab := T.Next(w.tab, T.SignedOut))
    case Reload => w.(tab := T.Next(w.tab, T.Reload), inbox := {})
    case _ =>
      match SysAction(w, e)
      case Some(a) => w.(sys := RotationCalls.Next(w.sys, a))
      case None => w
  }

  function Play(w: World, events: seq<Event>): World
    decreases |events|
  {
    if events == [] then w else Play(Step(w, events[0]), events[1..])
  }

  // ---------- The tab's assumption holds: the server never repeats a token ----------

  ghost predicate FlightsKnown(w: World) {
    && |w.callOf| == |w.tab.flights|
    && (forall i | 0 <= i < |w.callOf| ::
          && w.callOf[i] < |w.sys.calls|
          && w.sys.calls[w.callOf[i]].kind == Rotation
          && w.tab.flights[i].posted == Some(w.sys.calls[w.callOf[i]].token))
  }

  ghost predicate Linked(w: World) {
    && SysValid(w.sys) && T.Valid(w.tab) && FlightsKnown(w)
    && (forall t | t in w.tab.held :: t < w.sys.db.nextToken)
    && (forall t | t in w.inbox :: t < w.sys.db.nextToken && t !in w.tab.held)
    && (Reply(w).Some? ==> Reply(w).value !in w.tab.held && Reply(w).value !in w.inbox)
  }

  lemma PairIsIssued(sys: Sys, call: nat)
    requires SysValid(sys) && PairOf(sys, call).Some?
    ensures PairOf(sys, call).value < sys.db.nextToken
  {
    assert CallOk(sys.db, sys.calls[call]);
    var Pair(n, f) := sys.calls[call].pc.outcome;
    assert InFamily(sys.db, n, f);
  }

  /** A server step never renames a call, and a pair that appears carries a token just made. */
  lemma SysStepMovesCalls(sys: Sys, a: Action)
    ensures var after := RotationCalls.Next(sys, a);
      && |sys.calls| <= |after.calls| && sys.db.nextToken <= after.db.nextToken
      && forall c | 0 <= c < |sys.calls| ::
           && after.calls[c].kind == sys.calls[c].kind && after.calls[c].token == sys.calls[c].token
           && (PairOf(sys, c).Some? ==> PairOf(after, c) == PairOf(sys, c))
           && (PairOf(sys, c).None? && PairOf(after, c).Some? ==> PairOf(after, c) == Some(sys.db.nextToken))
  {}

  lemma SysStepKeepsLinked(w: World, a: Action)
    requires Linked(w)
    ensures Linked(w.(sys := RotationCalls.Next(w.sys, a)))
  {
    NextKeepsSysValid(w.sys, a);
    SysStepMovesCalls(w.sys, a);
  }

  /** Turns that post nothing and store nothing new keep every link to the server. */
  lemma QuietTabKeepsLinked(w: World, tab: T.Tab)
    requires Linked(w) && T.Valid(tab)
    requires tab.held == w.tab.held && |tab.flights| == |w.tab.flights|
    requires forall i | 0 <= i < |tab.flights| :: tab.flights[i].posted == w.tab.flights[i].posted
    requires T.Pending(tab) ==> T.Pending(w.tab) && tab.refreshInFlight == w.tab.refreshInFlight
    ensures Linked(w.(tab := tab))
  {}

  lemma QuietTurnPostsNothing(tab: T.Tab, turn: T.Turn)
    requires Local(turn) || turn.RefreshFailed? || turn.SignedOut? || turn.Reload?
    ensures var after := T.Next(tab, turn);
      && after.held == tab.held && |after.flights| == |tab.flights|
      && (forall i | 0 <= i < |tab.flights| :: after.flights[i].posted == tab.flights[i].posted)
      && (T.Pending(after) ==> T.Pending(tab) && after.refreshInFlight == tab.refreshInFlight)
  {}

  lemma TabStepKeepsLinked(w: World, turn: T.Turn)
    requires Linked(w) && (Local(turn) || turn.RefreshFailed? || turn.SignedOut? || turn.Reload?)
    ensures Linked(w.(tab := T.Next(w.tab, turn)))
  {
    T.NextKeepsValid(w.tab, turn);
    QuietTurnPostsNothing(w.tab, turn);
    QuietTabKeepsLinked(w, T.Next(w.tab, turn));
  }

  lemma DeliveryKeepsLinked(w: World, tokens: T.Tokens)
    requires Linked(w) && tokens.refresh !in w.tab.held && tokens.refresh < w.sys.db.nextToken
    ensures Reply(w) == Some(tokens.refresh) ==> Linked(w.(tab := T.Next(w.tab, T.RefreshAnswered(tokens))))
    ensures tokens.refresh in w.inbox ==>
              Linked(w.(tab := T.Next(w.tab, T.SignedIn(tokens)), inbox := w.inbox - {tokens.refresh}))
  {
    T.NextKeepsValid(w.tab, T.RefreshAnswered(tokens));
    T.NextKeepsValid(w.tab, T.SignedIn(tokens));
  }

  /** A 401 leaves the flights alone or adds one, posting the token in the store. */
  lemma UnauthorizedFlights(tab: T.Tab, r: nat)
    requires T.Valid(tab)
    ensures var after := T.Next(tab, T.Unauthorized(r));
      && T.Valid(after) && after.held == tab.held && after.store == tab.store
      && (|after.flights| > |tab.flights| ==>
            && tab.refreshInFlight.None? && tab.store.Some?
            && after.flights == tab.flights + [T.Flight(Some(tab.store.value.refresh), None)]
            && after.refreshInFlight == Some(|tab.flights|))
      && (|after.flights| <= |tab.flights| ==>
            after.flights == tab.flights && after.refreshInFlight == tab.refreshInFlight)
  {
    T.NextKeepsValid(tab, T.Unauthorized(r));
  }

  lemma UnauthorizedKeepsLinked(w: World, r: nat)
    requires Linked(w)
    ensures Linked(Step(w, RequestUnauthorized(r)))
  {
    UnauthorizedFlights(w.tab, r);
    var after := Step(w, RequestUnauthorized(r));
    if |after.tab.flights| > |w.tab.flights| {
      NextKeepsSysValid(w.sys, Present(Rotation, w.tab.store.value.refresh));
    }
  }

  lemma LoginKeepsLinked(w: World, user: User)
    requires Linked(w)
    ensures Linked(Step(w, LoginServed(user)))
  {
    SysStepKeepsLinked(w, Login(user));
    if Reply(w).Some? {
      PairIsIssued(w.sys, w.callOf[w.tab.refreshInFlight.value]);
    }
  }

  lemma StepKeepsLinked(w: World, e: Event)
    requires Linked(w)
    ensures Linked(Step(w, e))
  {
    match e
    case RequestUnauthorized(r) => UnauthorizedKeepsLinked(w, r);
    case Turn(turn) =>
      if Local(turn) {
        TabStepKeepsLinked(w, turn);
      }
    case RefreshReply(access) =>
      if Reply(w).Some? {
        PairIsIssued(w.sys, w.callOf[w.tab.refreshInFlight.value]);
        DeliveryKeepsLinked(w, T.Tokens(access, Reply(w).value));
      }
    case RefreshLost => TabStepKeepsLinked(w, T.RefreshFailed);
    case LoginReply(access, token) =>
      if token in w.inbox {
        DeliveryKeepsLinked(w, T.Tokens(access, token));
      }
    case LogoutFinished => TabStepKeepsLinked(w, T.SignedOut);
    case Reload => TabStepKeepsLinked(w, T.Reload);
    case LoginServed(user) => LoginKeepsLinked(w, user);
    case _ =>
      match SysAction(w, e)
      case Some(a) => SysStepKeepsLinked(w, a);
      case None =>
  }

  lemma {:induction false} PlayKeepsLinked(w: World, events: seq<Event>)
    requires Linked(w)
    ensures Linked(Play(w, events))
    decreases |events|
  {
    if events != [] {
      StepKeepsLinked(w, events[0]);
      PlayKeepsLinked(Step(w, events[0]), events[1..]);
    }
  }

  lemma BeginIsLinked(now: int, ttl: int, grace: int)
    ensures Linked(Begin(now, ttl, grace))
  {}

  /**
   With the server in the loop, whatever is lost, late, logged out or presented by others: no token is
   posted twice but one whose refresh was pending at a reload.
   */
  lemma NoTokenIsEverPostedTwice(now: int, ttl: int, grace: int, events: seq<Event>, i: nat, j: nat)
    requires i < j < |Play(Begin(now, ttl, grace), events).tab.flights|
    ensures var tab := Play(Begin(now, ttl, grace), events).tab;
      && tab.flights[i].posted.Some?
      && (tab.flights[i].posted == tab.flights[j].posted ==> tab.flights[i].posted.value in tab.orphans)
  {
    BeginIsLinked(now, ttl, grace);
    PlayKeepsLinked(Begin(now, ttl, grace), events);
  }

  /** At every moment of every run, a 401 posts a token again if and only if it is such a token. */
  lemma PostedAgainIffOrphan(now: int, ttl: int, grace: int, events: seq<Event>, r: nat)
    ensures var tab := Play(Begin(now, ttl, grace), events).tab;
      T.WouldPost(tab, r).Some? ==>
        && T.Next(tab, T.Unauthorized(r)).flights == tab.flights + [T.Flight(T.WouldPost(tab, r), None)]
        && (T.Posted(tab, T.WouldPost(tab, r).value) <==> T.WouldPost(tab, r).value in tab.orphans)
  {
    BeginIsLinked(now, ttl, grace);
    PlayKeepsLinked(Begin(now, ttl, grace), events);
  }

  /** The answer of a served refresh reaches the tab: its token is stored and its flight resolves. */
  lemma ReplyIsDelivered(w: World, access: nat, refresh: Token, family: Family)
    requires Linked(w) && T.Pending(w.tab)
    requires w.sys.calls[w.callOf[w.tab.refreshInFlight.value]].pc == Done(Pair(refresh, family))
    ensures var after := Step(w, RefreshReply(access)).tab;
      && after.store == Some(T.Tokens(access, refresh))
      && after.flights[w.tab.refreshInFlight.value].settled == Some(Some(access))
  {}

  /** What others, the purge and the clock do reaches the server as it is. */
  lemma ServerHearsOthers(w: World, user: User, kind: Kind, token: Token, ms: nat)
    ensures Step(w, OthersLogin(user)) == w.(sys := RotationCalls.Next(w.sys, Login(user)))
    ensures Step(w, OthersPresent(kind, token)) == w.(sys := RotationCalls.Next(w.sys, Present(kind, token)))
    ensures Step(w, PurgeRuns) == w.(sys := w.sys.(db := Apply(w.sys.db, Purge)))
    ensures Step(w, Passes(ms)) == w.(sys := w.sys.(db := Apply(w.sys.db, Tick(ms))))
  {}

  /** And so does what the tab posts; it posts only a token it has held. */
  lemma ServerHearsTheTab(w: World, token: Token, call: nat, found: bool)
    ensures Step(w, Serve(call, found)) == w.(sys := RotationCalls.Next(w.sys, Advance(call, found)))
    ensures Step(w, LogoutPosted(token)) ==
      if token in w.tab.held then w.(sys := RotationCalls.Next(w.sys, Present(Logout, token))) else w
  {}

  /** A sign-in issues a family to the tab, whose token it stores when the reply arrives. */
  lemma SignInIsDelivered(w: World, user: User, access: nat)
    requires Linked(w)
    ensures var served := Step(w, LoginServed(user));
      && served.sys.db == Apply(w.sys.db, Issue(user)) && served.mine == w.mine + {w.sys.db.nextFamily}
      && Step(served, LoginReply(access, w.sys.db.nextToken)).tab.store
         == Some(T.Tokens(access, w.sys.db.nextToken))
      && Step(w, LogoutFinished).tab.store == None
      && (T.Pending(w.tab) ==> Step(w, RefreshLost).tab.store == None)
  {}

  /** No other family is ever the tab's. */
  lemma OnlySignInsAreMine(w: World, e: Event)
    requires !e.LoginServed?
    ensures Step(w, e).mine == w.mine
  {}
}
