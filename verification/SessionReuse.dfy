/**
 When a tab's own refresh is taken for a stolen token. The tab and the server run as in
 `SessionWorld`, logouts, purges and reloads included; only nobody else presents the tab's tokens.
 */
module SessionReuse {
  import opened Wrappers
  import opened TokenTable
  import opened RotationCalls
  import opened SessionWorld
  import T = TabSession

  /** `token` was issued in one of the families of `mine`. */
  ghost predicate Mine(db: Db, mine: set<Family>, token: Token) {
    exists f :: f in mine && InFamily(db, token, f)
  }

  /** Nobody else holds the tab's tokens. */
  ghost predicate Alone(w: World, e: Event) {
    e.OthersPresent? ==> e.token < w.sys.db.nextToken && !Mine(w.sys.db, w.mine, e.token)
  }

  ghost predicate AllAlone(w: World, events: seq<Event>)
    decreases |events|
  {
    events == [] || (Alone(w, events[0]) && AllAlone(Step(w, events[0]), events[1..]))
  }

  // ---------- Whose call is whose ----------

  /** Every rotation that presents a token of the tab is one of its flights. */
  ghost predicate OwnCalls(sys: Sys, callOf: seq<nat>, mine: set<Family>) {
    && (forall f | f in mine :: f in sys.db.lineage)
    && (forall c | 0 <= c < |sys.calls| :: sys.calls[c].token < sys.db.nextToken)
    && (forall c | 0 <= c < |sys.calls| && sys.calls[c].kind == Rotation && Mine(sys.db, mine, sys.calls[c].token) ::
          c in callOf)
  }

  ghost predicate Owned(w: World) {
    && Linked(w) && Caused(w.sys)
    && OwnCalls(w.sys, w.callOf, w.mine)
    && (forall t | t in w.tab.held || t in w.inbox :: Mine(w.sys.db, w.mine, t))
  }

  /** Whether an issued token is the tab's never changes. */
  lemma MineIsStable(s: Sys, a: Action, mine: set<Family>, token: Token)
    requires Valid(s.db) && token < s.db.nextToken && forall f | f in mine :: f in s.db.lineage
    ensures Mine(RotationCalls.Next(s, a).db, mine, token) <==> Mine(s.db, mine, token)
    ensures forall f | f in mine :: f in RotationCalls.Next(s, a).db.lineage
  {
    var after := RotationCalls.Next(s, a);
    assert forall f | f in mine :: InFamily(after.db, token, f) <==> InFamily(s.db, token, f);
  }

  lemma MineByRow(db: Db, mine: set<Family>, token: Token)
    requires Valid(db) && token in db.rows
    ensures Mine(db, mine, token) <==> db.rows[token].family in mine
  {
    assert InFamily(db, token, db.rows[token].family);
  }

  lemma MineByFamily(db: Db, mine: set<Family>, token: Token, f: Family)
    requires Valid(db) && InFamily(db, token, f)
    ensures Mine(db, mine, token) <==> f in mine
    ensures token < db.nextToken
  {}

  /** A step of the server that presents no token of the tab's as a new rotation. */
  lemma SysStepKeepsOwned(w: World, a: Action)
    requires Owned(w)
    requires a.Present? ==> a.token < w.sys.db.nextToken && (a.kind == Logout || !Mine(w.sys.db, w.mine, a.token))
    ensures Owned(w.(sys := RotationCalls.Next(w.sys, a)))
  {
    var after := RotationCalls.Next(w.sys, a);
    SysStepKeepsLinked(w, a);
    NextKeepsCaused(w.sys, a);
    SysStepMovesCalls(w.sys, a);
    FamiliesStay(w.sys, a, w.mine);
    forall t: Token | t < w.sys.db.nextToken ensures Mine(after.db, w.mine, t) <==> Mine(w.sys.db, w.mine, t) {
      MineIsStable(w.sys, a, w.mine, t);
    }
    forall c | 0 <= c < |after.calls| && after.calls[c].kind == Rotation && Mine(after.db, w.mine, after.calls[c].token)
      ensures c in w.callOf
    {
      assert after.calls[c].token < w.sys.db.nextToken;
    }
  }

  /** The tab's login: one family more, with one token. */
  lemma LoginKeepsOwned(w: World, user: User)
    requires Owned(w)
    ensures Owned(Step(w, LoginServed(user)))
  {
    var after := Step(w, LoginServed(user));
    var f, n := w.sys.db.nextFamily, w.sys.db.nextToken;
    StepKeepsLinked(w, LoginServed(user));
    NextKeepsCaused(w.sys, Login(user));
    assert f !in w.sys.db.lineage;
    assert after.sys.db.lineage == w.sys.db.lineage[f := [] + [n]];
    assert InFamily(after.sys.db, n, f);
    forall t: Token | t < n ensures Mine(after.sys.db, after.mine, t) <==> Mine(w.sys.db, w.mine, t) {
      assert forall g | g in w.mine :: InFamily(after.sys.db, t, g) <==> InFamily(w.sys.db, t, g);
      assert !InFamily(after.sys.db, t, f);
    }
  }

  lemma ReplyIsMine(w: World)
    requires Owned(w)
    ensures Reply(w).Some? ==> Mine(w.sys.db, w.mine, Reply(w).value)
  {
    if Reply(w).Some? {
      var i := w.tab.refreshInFlight.value;
      var call := w.sys.calls[w.callOf[i]];
      assert w.tab.flights[i].posted.value in w.tab.held;
      assert CallOk(w.sys.db, call);
      var Pair(n, f) := call.pc.outcome;
      MineByFamily(w.sys.db, w.mine, call.token, f);
      MineByFamily(w.sys.db, w.mine, n, f);
    }
  }

  /** The store only ever gains the token a delivery carries. */
  lemma HeldAfter(tab: T.Tab, turn: T.Turn)
    ensures T.Next(tab, turn).held <= tab.held
      + (if turn.RefreshAnswered? then {turn.tokens.refresh} else {})
      + (if turn.SignedIn? then {turn.tokens.refresh} else {})
  {}

  lemma TabEventKeepsOwned(w: World, e: Event)
    requires Owned(w)
    requires e.Turn? || e.RefreshReply? || e.RefreshLost? || e.LoginReply? || e.LogoutFinished? || e.Reload?
    ensures Owned(Step(w, e))
  {
    StepKeepsLinked(w, e);
    match e {
      case Turn(turn) => HeldAfter(w.tab, turn);
      case RefreshReply(access) =>
        if Reply(w).Some? {
          ReplyIsMine(w);
          HeldAfter(w.tab, T.RefreshAnswered(T.Tokens(access, Reply(w).value)));
        }
      case RefreshLost => HeldAfter(w.tab, T.RefreshFailed);
      case LoginReply(access, token) => HeldAfter(w.tab, T.SignedIn(T.Tokens(access, token)));
      case Reload => HeldAfter(w.tab, T.Reload);
      case _ => HeldAfter(w.tab, T.SignedOut);
    }
  }

  lemma UnauthorizedKeepsOwned(w: World, r: nat)
    requires Owned(w)
    ensures Owned(Step(w, RequestUnauthorized(r)))
  {
    StepKeepsLinked(w, RequestUnauthorized(r));
    UnauthorizedFlights(w.tab, r);
    if w.tab.store.Some? {
      NextKeepsCaused(w.sys, Present(Rotation, w.tab.store.value.refresh));
    }
  }

  lemma StepKeepsOwned(w: World, e: Event)
    requires Owned(w) && Alone(w, e)
    ensures Owned(Step(w, e))
  {
    match e
    case RequestUnauthorized(r) => UnauthorizedKeepsOwned(w, r);
    case LoginServed(user) => LoginKeepsOwned(w, user);
    case LogoutPosted(token) =>
      if token in w.tab.held {
        SysStepKeepsOwned(w, Present(Logout, token));
      }
    case Serve(c, userFound) => SysStepKeepsOwned(w, Advance(c, userFound));
    case OthersLogin(user) => SysStepKeepsOwned(w, Login(user));
    case OthersPresent(kind, token) => SysStepKeepsOwned(w, Present(kind, token));
    case PurgeRuns => SysStepKeepsOwned(w, RunPurge);
    case Passes(ms) => SysStepKeepsOwned(w, Wait(ms));
    case _ => TabEventKeepsOwned(w, e);
  }

  lemma {:induction false} PlayKeepsOwned(w: World, events: seq<Event>)
    requires Owned(w) && AllAlone(w, events)
    ensures Owned(Play(w, events))
    decreases |events|
  {
    if events != [] {
      StepKeepsOwned(w, events[0]);
      PlayKeepsOwned(Step(w, events[0]), events[1..]);
    }
  }

  lemma BeginIsOwned(now: int, ttl: int, grace: int)
    ensures Owned(Begin(now, ttl, grace))
  {
    BeginIsLinked(now, ttl, grace);
  }

  lemma FamiliesStay(s: Sys, a: Action, mine: set<Family>)
    requires Valid(s.db) && forall f | f in mine :: f in s.db.lineage
    ensures forall f | f in mine :: f in RotationCalls.Next(s, a).db.lineage
  {}

  // ---------- The exact condition ----------

  /** Two rotations of one token of the family have been started. */
  ghost predicate Reposted(s: Sys, f: Family) {
    exists c, d :: 0 <= c < d < |s.calls| && s.calls[c].kind == Rotation && s.calls[d].kind == Rotation
      && s.calls[c].token == s.calls[d].token && InFamily(s.db, s.calls[c].token, f)
  }

  lemma TwoRotationsRepost(s: Sys, c: nat, d: nat, f: Family)
    requires c < |s.calls| && d < |s.calls| && c != d
    requires s.calls[c].kind == Rotation && s.calls[d].kind == Rotation
    requires s.calls[c].token == s.calls[d].token && InFamily(s.db, s.calls[c].token, f)
    ensures Reposted(s, f)
  {
    var first, second := if c < d then c else d, if c < d then d else c;
    assert s.calls[first].token == s.calls[second].token;
  }

  /** A rotation the tab has under way presents a token nobody else has presented, unless it is an orphan. */
  lemma OneRotationPerToken(w: World, c: nat, d: nat)
    requires Owned(w) && c < |w.sys.calls| && d < |w.sys.calls| && c != d
    requires w.sys.calls[c].kind == Rotation && w.sys.calls[d].kind == Rotation
    requires w.sys.calls[c].token == w.sys.calls[d].token && Mine(w.sys.db, w.mine, w.sys.calls[c].token)
    ensures w.sys.calls[c].token in w.tab.orphans
  {
    var i :| 0 <= i < |w.callOf| && w.callOf[i] == c;
    var j :| 0 <= j < |w.callOf| && w.callOf[j] == d;
    assert w.tab.flights[i].posted == w.tab.flights[j].posted;
  }

  /** Only a token whose refresh was pending at a reload is posted again. */
  lemma RepostedIsOrphan(w: World, f: Family)
    requires Owned(w) && f in w.mine && Reposted(w.sys, f)
    ensures exists t :: t in w.tab.orphans && InFamily(w.sys.db, t, f)
  {
    var c, d :| 0 <= c < d < |w.sys.calls| && w.sys.calls[c].kind == Rotation && w.sys.calls[d].kind == Rotation
      && w.sys.calls[c].token == w.sys.calls[d].token && InFamily(w.sys.db, w.sys.calls[c].token, f);
    MineByFamily(w.sys.db, w.mine, w.sys.calls[c].token, f);
    OneRotationPerToken(w, c, d);
  }

  /** A token spent by another rotation has been posted twice. */
  lemma SpentMeansReposted(w: World, c: nat, f: Family)
    requires Owned(w) && c < |w.sys.calls| && w.sys.calls[c].kind == Rotation && !HasPair(w.sys.calls[c])
    requires InFamily(w.sys.db, w.sys.calls[c].token, f) && f in w.mine && Spent(w.sys, w.sys.calls[c].token)
    ensures Reposted(w.sys, f) && w.sys.calls[c].token in w.tab.orphans
  {
    var t := w.sys.calls[c].token;
    var d :| 0 <= d < |w.sys.calls| && w.sys.calls[d].token == t && HasPair(w.sys.calls[d]);
    assert KindOk(w.sys.calls[d]);
    MineByFamily(w.sys.db, w.mine, t, f);
    TwoRotationsRepost(w.sys, c, d, f);
    OneRotationPerToken(w, c, d);
  }

  lemma BurnedMeansRevoked(s: Sys, t: Token, f: Family)
    requires SysValid(s) && t in s.db.rows && s.db.rows[t].family == f && Burned(s, f)
    ensures s.db.rows[t].revokedAt.Some?
  {
    var d :| 0 <= d < |s.calls| && s.calls[d].pc in {Done(LoggedOut(f)), Done(Reused(f))};
    assert CallOk(s.db, s.calls[d]);
    assert !Live(s.db, t, f);
  }

  lemma SpentMeansRevoked(s: Sys, t: Token)
    requires SysValid(s) && t in s.db.rows && Spent(s, t)
    ensures s.db.rows[t].revokedAt.Some?
  {
    var d :| 0 <= d < |s.calls| && s.calls[d].token == t && HasPair(s.calls[d]);
    assert CallOk(s.db, s.calls[d]);
    var Pair(n, f) := s.calls[d].pc.outcome;
    assert InFamily(s.db, t, f) && InFamily(s.db, t, s.db.rows[t].family);
    assert !Live(s.db, t, f);
  }

  /** A row is revoked if and only if it was exchanged or its family was burned. */
  lemma RevokedIff(s: Sys, t: Token)
    requires SysValid(s) && Caused(s) && t in s.db.rows
    ensures s.db.rows[t].revokedAt.Some? <==> Spent(s, t) || Burned(s, s.db.rows[t].family)
  {
    if Spent(s, t) {
      SpentMeansRevoked(s, t);
    } else if Burned(s, s.db.rows[t].family) {
      BurnedMeansRevoked(s, t, s.db.rows[t].family);
    }
  }

  predicate TurnsToReuse(s: Sys, c: nat, userFound: bool)
    requires c < |s.calls|
  {
    !s.calls[c].pc.Revoking? && PcAfter(s.db, s.calls[c], userFound).Revoking?
  }

  /**
   A rotation turns to a reuse branch if and only if it stands before its lookup, its row is there and has
   been exchanged or its family burned; or before its claim, and its row is gone or one of the two.
   */
  lemma ReuseIsExact(w: World, c: nat, userFound: bool)
    requires Owned(w) && c < |w.sys.calls| && w.sys.calls[c].kind == Rotation
    ensures var Call(_, t, pc) := w.sys.calls[c];
      TurnsToReuse(w.sys, c, userFound) <==>
        || (pc.Looking? && t in w.sys.db.rows && (Spent(w.sys, t) || Burned(w.sys, w.sys.db.rows[t].family)))
        || (pc.Claiming? && (t in w.sys.db.rows ==> Spent(w.sys, t) || Burned(w.sys, w.sys.db.rows[t].family)))
  {
    if w.sys.calls[c].token in w.sys.db.rows {
      RevokedIff(w.sys, w.sys.calls[c].token);
    }
  }

  // ---------- What leads there ----------

  /** Some rotation of the family stands in a reuse branch or has answered from one. */
  ghost predicate Turned(s: Sys, f: Family) {
    exists c :: 0 <= c < |s.calls| && s.calls[c].kind == Rotation && s.calls[c].pc in {Revoking(f), Done(Reused(f))}
  }

  /** A purge has taken the row of a rotation that is about to claim it. */
  ghost predicate Overtaken(s: Sys, f: Family) {
    exists c :: 0 <= c < |s.calls| && s.calls[c].kind == Rotation && s.calls[c].pc.Claiming?
      && s.calls[c].pc.row.family == f && s.calls[c].token !in s.db.rows
  }

  /** The tab's families overtaken at some moment of a run. */
  ghost function EverOvertaken(w: World, events: seq<Event>): set<Family>
    decreases |events|
  {
    (set f | f in w.mine && Overtaken(w.sys, f))
    + if events == [] then {} else EverOvertaken(Step(w, events[0]), events[1..])
  }

  ghost predicate Explained(w: World, past: set<Family>) {
    forall f | f in w.mine && Turned(w.sys, f) :: LoggedOutOf(w.sys, f) || f in past || Reposted(w.sys, f)
  }

  /** A call that turns is explained by a burn, which was explained, by a second post, or by a purge. */
  lemma TurningIsExplained(w: World, c: nat, userFound: bool, past: set<Family>)
    requires Owned(w) && c < |w.sys.calls| && w.sys.calls[c].kind == Rotation
    requires Explained(w, past) && forall f | f in w.mine && Overtaken(w.sys, f) :: f in past
    requires TurnsToReuse(w.sys, c, userFound)
    ensures var f := PcAfter(w.sys.db, w.sys.calls[c], userFound).family;
      f in w.mine ==> LoggedOutOf(w.sys, f) || f in past || Reposted(w.sys, f)
  {
    var call := w.sys.calls[c];
    var f := PcAfter(w.sys.db, call, userFound).family;
    assert CallOk(w.sys.db, call);
    if f in w.mine {
      if call.token in w.sys.db.rows {
        assert InFamily(w.sys.db, call.token, w.sys.db.rows[call.token].family);
        MineByFamily(w.sys.db, w.mine, call.token, f);
        ReuseIsExact(w, c, userFound);
        BurnIsExplained(w, f, past);
        if Spent(w.sys, call.token) {
          SpentMeansReposted(w, c, f);
        }
      } else {
        assert Overtaken(w.sys, f);
      }
    }
  }

  lemma BurnIsExplained(w: World, f: Family, past: set<Family>)
    requires Owned(w) && Explained(w, past) && f in w.mine
    ensures Burned(w.sys, f) ==> LoggedOutOf(w.sys, f) || f in past || Reposted(w.sys, f)
  {
    if Burned(w.sys, f) && !LoggedOutOf(w.sys, f) {
      var c :| 0 <= c < |w.sys.calls| && w.sys.calls[c].pc == Done(Reused(f));
      assert KindOk(w.sys.calls[c]);
      assert Turned(w.sys, f);
    }
  }

  /** A family in a reuse branch was there before, unless the call just served has turned. */
  lemma TurnedBefore(s: Sys, c: nat, userFound: bool, f: Family)
    requires c < |s.calls| && Turned(RotationCalls.Next(s, Advance(c, userFound)), f)
    ensures Turned(s, f)
         || (s.calls[c].kind == Rotation && TurnsToReuse(s, c, userFound)
             && PcAfter(s.db, s.calls[c], userFound).family == f)
  {
    var after := RotationCalls.Next(s, Advance(c, userFound));
    var d :| 0 <= d < |after.calls| && after.calls[d].kind == Rotation
      && after.calls[d].pc in {Revoking(f), Done(Reused(f))};
    if d != c {
      assert s.calls[d] == after.calls[d];
    }
  }

  lemma RepostedStays(s: Sys, a: Action, f: Family)
    requires Valid(s.db) && Reposted(s, f)
    ensures Reposted(RotationCalls.Next(s, a), f)
  {
    var after := RotationCalls.Next(s, a);
    var c, d :| 0 <= c < d < |s.calls| && s.calls[c].kind == Rotation && s.calls[d].kind == Rotation
      && s.calls[c].token == s.calls[d].token && InFamily(s.db, s.calls[c].token, f);
    SysStepMovesCalls(s, a);
    assert InFamily(after.db, after.calls[c].token, f);
    assert after.calls[c].token == after.calls[d].token;
  }

  lemma ServeKeepsExplained(w: World, c: nat, userFound: bool, past: set<Family>)
    requires Owned(w) && Explained(w, past) && forall f | f in w.mine && Overtaken(w.sys, f) :: f in past
    ensures Explained(Step(w, Serve(c, userFound)), past)
  {
    var after := Step(w, Serve(c, userFound));
    NextKeepsCauses(w.sys, Advance(c, userFound));
    if c < |w.sys.calls| {
      forall f | f in w.mine && Turned(after.sys, f)
        ensures LoggedOutOf(after.sys, f) || f in past || Reposted(after.sys, f)
      {
        TurnedBefore(w.sys, c, userFound, f);
        if !Turned(w.sys, f) {
          TurningIsExplained(w, c, userFound, past);
        }
        assert LoggedOutOf(w.sys, f) || f in past || Reposted(w.sys, f);
        if Reposted(w.sys, f) {
          RepostedStays(w.sys, Advance(c, userFound), f);
        }
      }
    }
  }

  /** A family just made has no calls yet. */
  lemma NewFamilyIsQuiet(w: World)
    requires Owned(w)
    ensures !Turned(w.sys, w.sys.db.nextFamily)
  {
    forall c | 0 <= c < |w.sys.calls|
      ensures w.sys.calls[c].pc !in {Revoking(w.sys.db.nextFamily), Done(Reused(w.sys.db.nextFamily))}
    {
      assert CallOk(w.sys.db, w.sys.calls[c]);
    }
  }

  lemma StepKeepsExplained(w: World, e: Event, past: set<Family>)
    requires Owned(w) && Explained(w, past) && forall f | f in w.mine && Overtaken(w.sys, f) :: f in past
    ensures Explained(Step(w, e), past)
  {
    if e.Serve? {
      ServeKeepsExplained(w, e.call, e.userFound, past);
    } else {
      var after := Step(w, e);
      NewFamilyIsQuiet(w);
      assert |w.sys.calls| <= |after.sys.calls|;
      assert forall c | 0 <= c < |w.sys.calls| :: after.sys.calls[c] == w.sys.calls[c];
      assert forall c | |w.sys.calls| <= c < |after.sys.calls| :: after.sys.calls[c].pc == Looking;
      ServerStep(w, e);
      forall f | f in after.mine && Turned(after.sys, f)
        ensures LoggedOutOf(after.sys, f) || f in past || Reposted(after.sys, f)
      {
        assert Turned(w.sys, f);
        if Reposted(w.sys, f) && ServerAction(w, e).Some? {
          RepostedStays(w.sys, ServerAction(w, e).value, f);
        }
        if LoggedOutOf(w.sys, f) {
          var c :| 0 <= c < |w.sys.calls| && w.sys.calls[c].pc == Done(LoggedOut(f));
          assert after.sys.calls[c].pc == Done(LoggedOut(f));
        }
      }
    }
  }

  lemma {:induction false} PlayKeepsExplained(w: World, events: seq<Event>, past: set<Family>)
    requires Owned(w) && AllAlone(w, events) && Explained(w, past)
    ensures Explained(Play(w, events), past + EverOvertaken(w, events))
    decreases |events|
  {
    if events != [] {
      var now := past + set f | f in w.mine && Overtaken(w.sys, f);
      StepKeepsOwned(w, events[0]);
      StepKeepsExplained(w, events[0], now);
      PlayKeepsExplained(Step(w, events[0]), events[1..], now);
      assert now + EverOvertaken(Step(w, events[0]), events[1..]) == past + EverOvertaken(w, events);
    }
  }

  /**
   In every run in which nobody else presents the tab's tokens, whatever is lost, late or logged out: a
   rotation for a family of the tab is in a reuse branch, or has answered from one, only if a logout of
   that family has been served, or a purge took the row of one of its rotations before its claim, or a
   token of it, its refresh pending at a reload, has been posted again.
   */
  lemma ReuseMeansLogoutPurgeOrReload(now: int, ttl: int, grace: int, events: seq<Event>, f: Family)
    requires AllAlone(Begin(now, ttl, grace), events)
    ensures var w := Play(Begin(now, ttl, grace), events);
      && (f in w.mine && Turned(w.sys, f) ==>
            LoggedOutOf(w.sys, f) || f in EverOvertaken(Begin(now, ttl, grace), events) || Reposted(w.sys, f))
      && (f in w.mine && Reposted(w.sys, f) ==> exists t :: t in w.tab.orphans && InFamily(w.sys.db, t, f))
  {
    BeginIsOwned(now, ttl, grace);
    PlayKeepsExplained(Begin(now, ttl, grace), events, {});
    PlayKeepsOwned(Begin(now, ttl, grace), events);
    var w := Play(Begin(now, ttl, grace), events);
    if f in w.mine && Reposted(w.sys, f) {
      RepostedIsOrphan(w, f);
    }
  }

  /**
   The exact condition at every moment of every such run, with purges and reloads at any time; and a
   refresh finds its token exchanged by another only if the token's refresh was pending at a reload.
   */
  lemma ReuseIffSpentBurnedOrOvertaken(now: int, ttl: int, grace: int, events: seq<Event>, c: nat, userFound: bool)
    requires AllAlone(Begin(now, ttl, grace), events)
    requires var w := Play(Begin(now, ttl, grace), events);
      c < |w.sys.calls| && w.sys.calls[c].kind == Rotation && Mine(w.sys.db, w.mine, w.sys.calls[c].token)
    ensures var w := Play(Begin(now, ttl, grace), events);
      var Call(_, t, pc) := w.sys.calls[c];
      && (TurnsToReuse(w.sys, c, userFound) <==>
            || (pc.Looking? && t in w.sys.db.rows && (Spent(w.sys, t) || Burned(w.sys, w.sys.db.rows[t].family)))
            || (pc.Claiming? && (t in w.sys.db.rows ==> Spent(w.sys, t) || Burned(w.sys, w.sys.db.rows[t].family))))
      && (Spent(w.sys, t) && !HasPair(w.sys.calls[c]) ==> t in w.tab.orphans)
  {
    BeginIsOwned(now, ttl, grace);
    PlayKeepsOwned(Begin(now, ttl, grace), events);
    var w := Play(Begin(now, ttl, grace), events);
    ReuseIsExact(w, c, userFound);
    if Spent(w.sys, w.sys.calls[c].token) && !HasPair(w.sys.calls[c]) {
      var f :| f in w.mine && InFamily(w.sys.db, w.sys.calls[c].token, f);
      SpentMeansReposted(w, c, f);
    }
  }

  // ---------- With timely purges ----------

  /** No purge runs more than the grace period after a rotation of the tab still under way looked its row up. */
  ghost predicate Timely(w: World, e: Event) {
    e.PurgeRuns? ==>
      forall c | 0 <= c < |w.sys.calls| && InRotation(w.sys.calls[c]) && Mine(w.sys.db, w.mine, w.sys.calls[c].token) ::
        w.sys.db.now - w.sys.calls[c].pc.lookedAt <= w.sys.db.grace
  }

  predicate InRotation(call: Call) {
    call.pc.FindingUser? || call.pc.Claiming?
  }

  ghost predicate AllTimely(w: World, events: seq<Event>)
    decreases |events|
  {
    events == [] || (Timely(w, events[0]) && AllTimely(Step(w, events[0]), events[1..]))
  }

  /** The server action behind an event, if it has one. */
  function ServerAction(w: World, e: Event): Option<Action> {
    match e
    case RequestUnauthorized(r) =>
      var flights := T.Next(w.tab, T.Unauthorized(r)).flights;
      if |flights| > |w.tab.flights| && flights[|w.tab.flights|].posted.Some? then
        Some(Present(Rotation, flights[|w.tab.flights|].posted.value))
      else None
    case LoginServed(user) => Some(Login(user))
    case _ => SysAction(w, e)
  }

  lemma ServerStep(w: World, e: Event)
    ensures Step(w, e).sys == match ServerAction(w, e) case Some(a) => RotationCalls.Next(w.sys, a) case None => w.sys
    ensures ServerAction(w, e) == Some(RunPurge) ==> e.PurgeRuns?
  {}

  predicate HoldsRow(s: Sys, c: nat)
    requires c < |s.calls|
  {
    InRotation(s.calls[c]) ==>
      s.calls[c].token in s.db.rows && s.db.rows[s.calls[c].token].expiresAt > s.calls[c].pc.lookedAt
  }

  lemma NextKeepsRow(s: Sys, a: Action, c: nat)
    requires c < |s.calls| && HoldsRow(s, c) && Valid(s.db)
    requires a.RunPurge? && InRotation(s.calls[c]) ==> s.db.now - s.calls[c].pc.lookedAt <= s.db.grace
    ensures HoldsRow(RotationCalls.Next(s, a), c)
  {
    assert s.db.nextToken in s.db.rows ==> InFamily(s.db, s.db.nextToken, s.db.rows[s.db.nextToken].family);
  }

  /** A rotation of the tab past its lookup finds its row still there. */
  ghost predicate RowsHeld(w: World) {
    forall c | 0 <= c < |w.sys.calls| && Mine(w.sys.db, w.mine, w.sys.calls[c].token) :: HoldsRow(w.sys, c)
  }

  lemma StepKeepsRowsHeld(w: World, e: Event)
    requires Owned(w) && Alone(w, e) && RowsHeld(w) && Timely(w, e)
    ensures RowsHeld(Step(w, e))
  {
    var after := Step(w, e);
    ServerStep(w, e);
    forall c | 0 <= c < |after.sys.calls| && Mine(after.sys.db, after.mine, after.sys.calls[c].token)
      ensures HoldsRow(after.sys, c)
    {
      if c < |w.sys.calls| {
        WasMine(w, e, w.sys.calls[c].token);
        if ServerAction(w, e).Some? {
          NextKeepsRow(w.sys, ServerAction(w, e).value, c);
        }
      }
    }
  }

  lemma WasMine(w: World, e: Event, token: Token)
    requires Owned(w) && token < w.sys.db.nextToken
    requires Mine(Step(w, e).sys.db, Step(w, e).mine, token)
    ensures Mine(w.sys.db, w.mine, token)
  {
    match e
    case LoginServed(user) =>
      var f :| f in Step(w, e).mine && InFamily(Step(w, e).sys.db, token, f);
      assert InFamily(w.sys.db, token, f);
    case Serve(c, userFound) => MineIsStable(w.sys, Advance(c, userFound), w.mine, token);
    case OthersLogin(user) => MineIsStable(w.sys, Login(user), w.mine, token);
    case _ =>
  }

  lemma HeldMeansNotOvertaken(w: World, f: Family)
    requires Owned(w) && RowsHeld(w) && f in w.mine
    ensures !Overtaken(w.sys, f)
  {
    forall c | 0 <= c < |w.sys.calls| && w.sys.calls[c].pc.Claiming? && w.sys.calls[c].pc.row.family == f
      ensures w.sys.calls[c].token in w.sys.db.rows
    {
      assert CallOk(w.sys.db, w.sys.calls[c]);
      MineByFamily(w.sys.db, w.mine, w.sys.calls[c].token, f);
      assert HoldsRow(w.sys, c);
    }
  }

  ghost predicate Clear(w: World) {
    Owned(w) && RowsHeld(w) && Explained(w, {})
  }

  lemma StepKeepsClear(w: World, e: Event)
    requires Clear(w) && Alone(w, e) && Timely(w, e)
    ensures Clear(Step(w, e))
  {
    forall f | f in w.mine ensures !Overtaken(w.sys, f) {
      HeldMeansNotOvertaken(w, f);
    }
    StepKeepsOwned(w, e);
    StepKeepsRowsHeld(w, e);
    StepKeepsExplained(w, e, {});
  }

  lemma {:induction false} PlayKeepsClear(w: World, events: seq<Event>)
    requires Clear(w) && AllAlone(w, events) && AllTimely(w, events)
    ensures Clear(Play(w, events))
    decreases |events|
  {
    if events != [] {
      StepKeepsClear(w, events[0]);
      PlayKeepsClear(Step(w, events[0]), events[1..]);
    }
  }

  lemma BeginIsClear(now: int, ttl: int, grace: int)
    ensures Clear(Begin(now, ttl, grace))
  {
    BeginIsOwned(now, ttl, grace);
  }

  /**
   With timely purges, at every moment of every run in which nobody else presents the tab's tokens:
   a rotation of the tab that turns to a reuse branch, or is in one, does so because a logout of its
   family has been served; and once one has, every rotation of the family that still finds its row, at
   its lookup or at its claim, turns to one. No token of the family has been posted twice, as one can
   only be after a reload during its refresh.
   */
  lemma ReuseIffLogoutServed(now: int, ttl: int, grace: int, events: seq<Event>, c: nat, userFound: bool)
    requires AllAlone(Begin(now, ttl, grace), events) && AllTimely(Begin(now, ttl, grace), events)
    requires var w := Play(Begin(now, ttl, grace), events);
      && c < |w.sys.calls| && w.sys.calls[c].kind == Rotation && Mine(w.sys.db, w.mine, w.sys.calls[c].token)
      && forall f | InFamily(w.sys.db, w.sys.calls[c].token, f) :: !Reposted(w.sys, f)
    ensures var w := Play(Begin(now, ttl, grace), events);
      var Call(_, t, pc) := w.sys.calls[c];
      && (TurnsToReuse(w.sys, c, userFound) <==>
            (pc.Looking? || pc.Claiming?) && t in w.sys.db.rows && LoggedOutOf(w.sys, w.sys.db.rows[t].family))
      && (forall f | pc in {Revoking(f), Done(Reused(f))} :: LoggedOutOf(w.sys, f))
  {
    BeginIsClear(now, ttl, grace);
    PlayKeepsClear(Begin(now, ttl, grace), events);
    ClearReuse(Play(Begin(now, ttl, grace), events), c, userFound);
  }

  lemma ClearReuse(w: World, c: nat, userFound: bool)
    requires Clear(w) && c < |w.sys.calls| && w.sys.calls[c].kind == Rotation
    requires Mine(w.sys.db, w.mine, w.sys.calls[c].token)
    requires forall f | InFamily(w.sys.db, w.sys.calls[c].token, f) :: !Reposted(w.sys, f)
    ensures var Call(_, t, pc) := w.sys.calls[c];
      && (TurnsToReuse(w.sys, c, userFound) <==>
            (pc.Looking? || pc.Claiming?) && t in w.sys.db.rows && LoggedOutOf(w.sys, w.sys.db.rows[t].family))
      && (forall f | pc in {Revoking(f), Done(Reused(f))} :: LoggedOutOf(w.sys, f))
  {
    var Call(_, t, pc) := w.sys.calls[c];
    ReuseIsExact(w, c, userFound);
    if t in w.sys.db.rows {
      var f := w.sys.db.rows[t].family;
      assert InFamily(w.sys.db, t, f);
      MineByRow(w.sys.db, w.mine, t);
      BurnIsExplained(w, f, {});
      if Spent(w.sys, t) && !HasPair(w.sys.calls[c]) {
        SpentMeansReposted(w, c, f);
      }
    }
    assert HoldsRow(w.sys, c);
    forall f | pc in {Revoking(f), Done(Reused(f))} ensures LoggedOutOf(w.sys, f) {
      assert CallOk(w.sys.db, w.sys.calls[c]);
      MineByFamily(w.sys.db, w.mine, t, f);
      assert Turned(w.sys, f);
    }
  }

  // ---------- Without a logout ----------

  ghost predicate NoLogout(events: seq<Event>) {
    forall i | 0 <= i < |events| :: !events[i].LogoutPosted?
  }

  /** Every call that presents a token of the tab is a rotation. */
  ghost predicate OnlyRotations(w: World) {
    forall c | 0 <= c < |w.sys.calls| && Mine(w.sys.db, w.mine, w.sys.calls[c].token) :: w.sys.calls[c].kind == Rotation
  }

  lemma StepKeepsOnlyRotations(w: World, e: Event)
    requires Owned(w) && Alone(w, e) && OnlyRotations(w) && !e.LogoutPosted?
    ensures OnlyRotations(Step(w, e))
  {
    var after := Step(w, e);
    ServerStep(w, e);
    if ServerAction(w, e).Some? {
      var a := ServerAction(w, e).value;
      SysStepMovesCalls(w.sys, a);
      if e.OthersPresent? {
        MineIsStable(w.sys, a, w.mine, e.token);
      }
      forall c | 0 <= c < |w.sys.calls| && Mine(after.sys.db, after.mine, after.sys.calls[c].token)
        ensures after.sys.calls[c].kind == Rotation
      {
        WasMine(w, e, w.sys.calls[c].token);
      }
    }
  }

  lemma {:induction false} PlayKeepsOnlyRotations(w: World, events: seq<Event>)
    requires Owned(w) && AllAlone(w, events) && OnlyRotations(w) && NoLogout(events)
    ensures OnlyRotations(Play(w, events))
    decreases |events|
  {
    if events != [] {
      assert !events[0].LogoutPosted?;
      assert forall i | 0 <= i < |events[1..]| :: events[1..][i] == events[i + 1];
      StepKeepsOwned(w, events[0]);
      StepKeepsOnlyRotations(w, events[0]);
      PlayKeepsOnlyRotations(Step(w, events[0]), events[1..]);
    }
  }

  lemma NobodyLoggedOut(w: World, f: Family)
    requires Owned(w) && OnlyRotations(w) && f in w.mine
    ensures !LoggedOutOf(w.sys, f)
  {
    forall c | 0 <= c < |w.sys.calls| ensures w.sys.calls[c].pc != Done(LoggedOut(f)) {
      assert CallOk(w.sys.db, w.sys.calls[c]) && KindOk(w.sys.calls[c]);
      if InFamily(w.sys.db, w.sys.calls[c].token, f) {
        MineByFamily(w.sys.db, w.mine, w.sys.calls[c].token, f);
      }
    }
  }

  /**
   However many requests meet a 401 at once, and whatever replies are lost: as long as the tab does
   not log out, no rotation outlasts the purge grace and no token of the family is posted twice after a
   reload, neither reuse branch of `rotate` is ever reached, by any call, for that family of the tab, and
   its tokens are spent by its own rotations only.
   */
  lemma TabNeverBurnsItsOwnFamily(now: int, ttl: int, grace: int, events: seq<Event>, c: nat, f: Family)
    requires AllAlone(Begin(now, ttl, grace), events) && AllTimely(Begin(now, ttl, grace), events) && NoLogout(events)
    requires c < |Play(Begin(now, ttl, grace), events).sys.calls|
    requires f in Play(Begin(now, ttl, grace), events).mine && !Reposted(Play(Begin(now, ttl, grace), events).sys, f)
    ensures var w := Play(Begin(now, ttl, grace), events);
      && w.sys.calls[c].pc != Revoking(f)
      && w.sys.calls[c].pc != Done(Reused(f))
      && forall t | t in w.sys.db.rows && w.sys.db.rows[t].family == f && w.sys.db.rows[t].revokedAt.Some? ::
           Spent(w.sys, t)
  {
    BeginIsClear(now, ttl, grace);
    PlayKeepsClear(Begin(now, ttl, grace), events);
    PlayKeepsOnlyRotations(Begin(now, ttl, grace), events);
    var w := Play(Begin(now, ttl, grace), events);
    NobodyLoggedOut(w, f);
    BurnIsExplained(w, f, {});
    assert CallOk(w.sys.db, w.sys.calls[c]);
    if w.sys.calls[c].pc in {Revoking(f), Done(Reused(f))} {
      MineByFamily(w.sys.db, w.mine, w.sys.calls[c].token, f);
      ClearReuse(w, c, true);
    }
  }

  // ---------- The three ways to fail ----------

  lemma PlayFirst(w: World, e: Event, rest: seq<Event>)
    ensures Play(w, [e] + rest) == Play(Step(w, e), rest)
    ensures AllAlone(w, [e] + rest) <==> Alone(w, e) && AllAlone(Step(w, e), rest)
    ensures AllTimely(w, [e] + rest) <==> Timely(w, e) && AllTimely(Step(w, e), rest)
  {
    assert ([e] + rest)[1..] == rest;
  }

  /** Events without purges, and without anybody presenting the tab's tokens. */
  lemma {:induction false} QuietEvents(w: World, events: seq<Event>)
    requires forall i | 0 <= i < |events| :: !events[i].OthersPresent? && !events[i].PurgeRuns?
    ensures AllAlone(w, events) && AllTimely(w, events)
    decreases |events|
  {
    if events != [] {
      assert forall i | 0 <= i < |events[1..]| :: events[1..][i] == events[i + 1];
      QuietEvents(Step(w, events[0]), events[1..]);
    }
  }

  /** Serving calls moves the server and leaves the tab alone. */
  lemma ServeTwice(w: World, c: nat, events: seq<Event>)
    requires events == [Serve(c, true)] + ([Serve(c, true)] + [])
    ensures Play(w, events)
         == w.(sys := RotationCalls.Next(RotationCalls.Next(w.sys, Advance(c, true)), Advance(c, true)))
  {
    var once := Step(w, Serve(c, true));
    PlayFirst(w, Serve(c, true), [Serve(c, true)] + []);
    PlayFirst(once, Serve(c, true), []);
    assert Play(Step(once, Serve(c, true)), []) == Step(once, Serve(c, true));
  }

  /** A logout of row 0's family, served to its end, and then the lookup and the burn of a rotation of row 0. */
  lemma ServeLogoutFirst(s: Sys, row: Row)
    requires s.calls == [Call(Rotation, 0, Looking), Call(Logout, 0, Looking)]
    requires s.db.rows == map[0 := row] && row.revokedAt.None?
    ensures var out := RotationCalls.Next(RotationCalls.Next(s, Advance(1, true)), Advance(1, true));
      RotationCalls.Next(RotationCalls.Next(out, Advance(0, true)), Advance(0, true)).calls
        == [Call(Rotation, 0, Done(Reused(row.family))), Call(Logout, 0, Done(LoggedOut(row.family)))]
  {
    var found := RotationCalls.Next(s, Advance(1, true));
    assert found.calls == [Call(Rotation, 0, Looking), Call(Logout, 0, Revoking(row.family))];
    var out := RotationCalls.Next(found, Advance(1, true));
    assert out.db.rows == map[0 := Revoke(row, s.db.now)];
    assert out.calls == [Call(Rotation, 0, Looking), Call(Logout, 0, Done(LoggedOut(row.family)))];
  }

  /** A login, and a request whose 401 starts a refresh: call 0. */
  lemma RefreshStarts(user: User, now: int, ttl: int, grace: int) returns (events: seq<Event>, w: World)
    ensures w == Play(Begin(now, ttl, grace), events)
    ensures forall i | 0 <= i < |events| ::
      !events[i].OthersPresent? && !events[i].PurgeRuns? && !events[i].LogoutPosted?
    ensures w.sys.calls == [Call(Rotation, 0, Looking)]
    ensures w.sys.db == Db(map[0 := Row(user, 0, now + ttl, None)], now, 1, 1, ttl, grace, map[0 := [0]])
    ensures w.mine == {0} && w.tab.held == {0} && w.tab.store == Some(T.Tokens(0, 0))
    ensures T.Pending(w.tab) && w.tab.flights[w.tab.refreshInFlight.value].posted == Some(0)
  {
    var w0 := Begin(now, ttl, grace);
    var w1 := Step(w0, LoginServed(user));
    var w2 := Step(w1, LoginReply(0, 0));
    var w3 := Step(w2, Turn(T.Send));
    w := Step(w3, RequestUnauthorized(0));
    events := [LoginServed(user)] + ([LoginReply(0, 0)] + ([Turn(T.Send)] + ([RequestUnauthorized(0)] + [])));
    assert [] + [0] == [0];
    assert w2.tab.store == Some(T.Tokens(0, 0)) && w2.sys.calls == [];
    PlayFirst(w0, LoginServed(user), [LoginReply(0, 0)] + ([Turn(T.Send)] + ([RequestUnauthorized(0)] + [])));
    PlayFirst(w1, LoginReply(0, 0), [Turn(T.Send)] + ([RequestUnauthorized(0)] + []));
    PlayFirst(w2, Turn(T.Send), [RequestUnauthorized(0)] + []);
    PlayFirst(w3, RequestUnauthorized(0), []);
    assert Play(w, []) == w;
  }

  /** A logout posted meanwhile and served before the refresh makes the refresh look reused. */
  lemma LogoutMakesARefreshLookReused(user: User, now: int, ttl: int, grace: int)
    returns (before: seq<Event>, logout: seq<Event>, w: World)
    ensures w == Play(Begin(now, ttl, grace), before) && w.mine == {0}
    ensures AllAlone(Begin(now, ttl, grace), before) && AllTimely(Begin(now, ttl, grace), before) && NoLogout(before)
    ensures AllAlone(w, logout) && AllTimely(w, logout)
    ensures Play(w, logout).sys.calls == [Call(Rotation, 0, Done(Reused(0))), Call(Logout, 0, Done(LoggedOut(0)))]
  {
    before, w := RefreshStarts(user, now, ttl, grace);
    QuietEvents(Begin(now, ttl, grace), before);
    var own, out := [Serve(0, true)] + ([Serve(0, true)] + []), [Serve(1, true)] + ([Serve(1, true)] + []);
    logout := [LogoutPosted(0)] + (out + own);
    QuietEvents(w, logout);
    PlayFirst(w, LogoutPosted(0), out + own);
    var posted := Step(w, LogoutPosted(0));
    assert posted.sys.calls == [Call(Rotation, 0, Looking), Call(Logout, 0, Looking)];
    PlayConcat(posted, out, own);
    ServeTwice(posted, 1, out);
    ServeTwice(Play(posted, out), 0, own);
    ServeLogoutFirst(posted.sys, Row(user, 0, now + ttl, None));
  }

  lemma {:induction false} PlayConcat(w: World, a: seq<Event>, b: seq<Event>)
    ensures Play(w, a + b) == Play(Play(w, a), b)
    decreases |a|
  {
    if a == [] {
      assert a + b == b;
    } else {
      assert (a + b)[1..] == a[1..] + b;
      PlayConcat(Step(w, a[0]), a[1..], b);
    }
  }

  /** One rotation, about to claim a row that a purge is about to take. */
  lemma ClaimAfterPurge(s: Sys, row: Row, at: int)
    requires s.calls == [Call(Rotation, 0, Claiming(row, at))] && s.db.rows == map[0 := row]
    requires row.expiresAt + s.db.grace < s.db.now
    ensures var purged := RotationCalls.Next(s, RunPurge);
      RotationCalls.Next(RotationCalls.Next(purged, Advance(0, true)), Advance(0, true)).calls
        == [Call(Rotation, 0, Done(Reused(row.family)))]
  {
    var purged := RotationCalls.Next(s, RunPurge);
    assert purged.db.rows == map[];
    assert RotationCalls.Next(purged, Advance(0, true)).calls == [Call(Rotation, 0, Revoking(row.family))];
  }

  lemma PurgeIsLate(w: World, row: Row, at: int)
    requires w.sys.calls == [Call(Rotation, 0, Claiming(row, at))] && w.sys.db.now - at > w.sys.db.grace
    requires w.mine == {row.family} && InFamily(w.sys.db, 0, row.family)
    ensures !Timely(w, PurgeRuns)
  {
    assert Mine(w.sys.db, w.mine, 0);
    assert InRotation(w.sys.calls[0]);
  }

  lemma ServeLookup(s: Sys, row: Row)
    requires s.calls == [Call(Rotation, 0, Looking)] && s.db.rows == map[0 := row]
    requires row.revokedAt.None? && row.expiresAt > s.db.now
    ensures RotationCalls.Next(RotationCalls.Next(s, Advance(0, true)), Advance(0, true))
         == Sys(s.db, [Call(Rotation, 0, Claiming(row, s.db.now))])
  {
    var found := RotationCalls.Next(s, Advance(0, true));
    assert found == Sys(s.db, [Call(Rotation, 0, FindingUser(row, s.db.now))]);
  }

  /** A refresh has found its row, and waits at its claim past the row's expiry and the grace period. */
  lemma RefreshWaits(user: User, now: int, ttl: int, grace: int) returns (events: seq<Event>, claiming: World)
    requires ttl > 0
    ensures claiming == Play(Begin(now, ttl, grace), events) && claiming.mine == {0}
    ensures forall i | 0 <= i < |events| ::
      !events[i].OthersPresent? && !events[i].PurgeRuns? && !events[i].LogoutPosted?
    ensures claiming.sys.calls == [Call(Rotation, 0, Claiming(Row(user, 0, now + ttl, None), now))]
    ensures claiming.sys.db == Db(map[0 := Row(user, 0, now + ttl, None)], now, 1, 1, ttl, grace, map[0 := [0]])
  {
    var start, w := RefreshStarts(user, now, ttl, grace);
    var serves := [Serve(0, true)] + ([Serve(0, true)] + []);
    events := start + serves;
    PlayConcat(Begin(now, ttl, grace), start, serves);
    ServeTwice(w, 0, serves);
    ServeLookup(w.sys, Row(user, 0, now + ttl, None));
    claiming := Play(w, serves);
  }

  /** Quiet events, then `ms` of silence. */
  lemma ThenWait(begin: World, events: seq<Event>, ms: nat) returns (before: seq<Event>, late: World)
    requires forall i | 0 <= i < |events| ::
      !events[i].OthersPresent? && !events[i].PurgeRuns? && !events[i].LogoutPosted?
    ensures late == Play(begin, before) && late == Play(begin, events).(sys := late.sys)
    ensures late.sys == RotationCalls.Next(Play(begin, events).sys, Wait(ms))
    ensures AllAlone(begin, before) && AllTimely(begin, before) && NoLogout(before)
  {
    before := events + [Passes(ms)];
    late := Play(begin, before);
    QuietEvents(begin, before);
    PlayConcat(begin, events, [Passes(ms)]);
    PassesIs(Play(begin, events), ms);
  }

  /**
   With nobody logging out and no other purge: a refresh that has found its row waits past the row's
   expiry and the grace period, a purge takes the row, and the claim, which counts 0 rows, takes that
   for reuse.
   */
  lemma LatePurgeMakesARefreshLookReused(user: User, now: int, ttl: int, grace: int)
    returns (before: seq<Event>, late: World, serves: seq<Event>)
    requires ttl > 0 && grace >= 0
    ensures late == Play(Begin(now, ttl, grace), before) && late.mine == {0}
    ensures AllAlone(Begin(now, ttl, grace), before) && AllTimely(Begin(now, ttl, grace), before) && NoLogout(before)
    ensures !Timely(late, PurgeRuns) && NoLogout(serves)
    ensures Play(Step(late, PurgeRuns), serves).sys.calls == [Call(Rotation, 0, Done(Reused(0)))]
  {
    var events, claiming := RefreshWaits(user, now, ttl, grace);
    before, late := ThenWait(Begin(now, ttl, grace), events, ttl + grace + 1);
    serves := [Serve(0, true)] + ([Serve(0, true)] + []);
    PurgeIsLate(late, Row(user, 0, now + ttl, None), now);
    ClaimAfterPurge(late.sys, Row(user, 0, now + ttl, None), now);
    ServeTwice(Step(late, PurgeRuns), 0, serves);
  }

  lemma PassesIs(w: World, ms: nat)
    ensures Play(w, [Passes(ms)]) == w.(sys := RotationCalls.Next(w.sys, Wait(ms)))
  {
    PlayFirst(w, Passes(ms), []);
    assert [Passes(ms)] + [] == [Passes(ms)];
    assert Play(Step(w, Passes(ms)), []) == Step(w, Passes(ms));
  }

  /** Two rotations of row 0: the first is served to its pair, and the second then finds the row revoked. */
  lemma ServeTheOrphanFirst(s: Sys, row: Row)
    requires s.calls == [Call(Rotation, 0, Looking), Call(Rotation, 0, Looking)]
    requires s.db.rows == map[0 := row] && row.revokedAt.None? && row.expiresAt > s.db.now && s.db.nextToken == 1
    requires row.family in s.db.lineage
    ensures var claimed := RotationCalls.Next(RotationCalls.Next(RotationCalls.Next(s, Advance(0, true)),
                             Advance(0, true)), Advance(0, true));
      RotationCalls.Next(RotationCalls.Next(claimed, Advance(1, true)), Advance(1, true)).calls
        == [Call(Rotation, 0, Done(Pair(1, row.family))), Call(Rotation, 0, Done(Reused(row.family)))]
  {
    var second := Call(Rotation, 0, Looking);
    var found := RotationCalls.Next(s, Advance(0, true));
    assert found == Sys(s.db, [Call(Rotation, 0, FindingUser(row, s.db.now)), second]);
    var claiming := RotationCalls.Next(found, Advance(0, true));
    assert claiming == Sys(s.db, [Call(Rotation, 0, Claiming(row, s.db.now)), second]);
    var claimed := RotationCalls.Next(claiming, Advance(0, true));
    assert claimed.calls == [Call(Rotation, 0, Done(Pair(1, row.family))), second];
    assert 0 in claimed.db.rows && claimed.db.rows[0] == Revoke(row, s.db.now);
  }

  /** The page is reloaded during its refresh, and a request of the new page starts another: call 1. */
  lemma RefreshStartsAgain(w: World)
    requires w.sys.calls == [Call(Rotation, 0, Looking)] && w.tab.store == Some(T.Tokens(0, 0))
    requires T.Pending(w.tab) && w.tab.flights[w.tab.refreshInFlight.value].posted == Some(0)
    ensures var again := Play(w, [Reload] + ([Turn(T.Send)] + ([RequestUnauthorized(0)] + [])));
      && again.sys == w.sys.(calls := [Call(Rotation, 0, Looking), Call(Rotation, 0, Looking)])
      && 0 in again.tab.orphans
  {
    var reloaded := Step(w, Reload);
    var sent := Step(reloaded, Turn(T.Send));
    assert sent.tab.requests == [T.Request(1, false, Some(0), T.Sent)];
    assert sent.sys == w.sys && sent.tab.store == Some(T.Tokens(0, 0));
    PlayFirst(w, Reload, [Turn(T.Send)] + ([RequestUnauthorized(0)] + []));
    PlayFirst(reloaded, Turn(T.Send), [RequestUnauthorized(0)] + []);
    PlayFirst(sent, RequestUnauthorized(0), []);
  }

  /** With nobody logging out and no purge: a reload during a refresh makes the next refresh look reused. */
  lemma ReloadMakesARefreshLookReused(user: User, now: int, ttl: int, grace: int)
    returns (before: seq<Event>, w: World, after: seq<Event>)
    requires ttl > 0
    ensures w == Play(Begin(now, ttl, grace), before) && w.mine == {0}
    ensures AllAlone(Begin(now, ttl, grace), before) && AllTimely(Begin(now, ttl, grace), before) && NoLogout(before)
    ensures AllAlone(w, after) && AllTimely(w, after) && NoLogout(after)
    ensures Play(w, after).sys.calls == [Call(Rotation, 0, Done(Pair(1, 0))), Call(Rotation, 0, Done(Reused(0)))]
  {
    before, w := RefreshStarts(user, now, ttl, grace);
    QuietEvents(Begin(now, ttl, grace), before);
    RefreshStartsAgain(w);
    var again, serves := [Reload] + ([Turn(T.Send)] + ([RequestUnauthorized(0)] + [])), FirstThenSecond();
    after := again + serves;
    QuietEvents(w, after);
    PlayConcat(w, again, serves);
    ServeFirstThenSecond(Play(w, again), Row(user, 0, now + ttl, None));
  }

  /** Call 0 served to its claim, and then call 1 to its burn. */
  function FirstThenSecond(): seq<Event> {
    ([Serve(0, true)] + ([Serve(0, true)] + [])) + ([Serve(0, true)] + ([Serve(1, true)] + ([Serve(1, true)] + [])))
  }

  lemma ServeFirstThenSecond(w: World, row: Row)
    requires w.sys.calls == [Call(Rotation, 0, Looking), Call(Rotation, 0, Looking)]
    requires w.sys.db.rows == map[0 := row] && row.revokedAt.None? && row.expiresAt > w.sys.db.now
    requires w.sys.db.nextToken == 1 && row.family in w.sys.db.lineage
    ensures Play(w, FirstThenSecond()).sys.calls
         == [Call(Rotation, 0, Done(Pair(1, row.family))), Call(Rotation, 0, Done(Reused(row.family)))]
  {
    var first, second := [Serve(0, true)] + ([Serve(0, true)] + []), [Serve(1, true)] + ([Serve(1, true)] + []);
    PlayConcat(w, first, [Serve(0, true)] + second);
    ServeTwice(w, 0, first);
    PlayFirst(Play(w, first), Serve(0, true), second);
    ServeTwice(Step(Play(w, first), Serve(0, true)), 1, second);
    ServeTheOrphanFirst(w.sys, row);
  }
}
