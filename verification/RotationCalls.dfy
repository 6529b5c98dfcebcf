/**
 Any number of `rotate` and `revokeByToken` calls in flight at once, beside logins, the purge job
 and the clock. A call's program counter stands at one of its awaits; between two steps of one call
 every other call may take any number of its own.
 */
module RotationCalls {
  import opened Wrappers
  import opened TokenTable

  datatype Kind = Rotation | Logout

  datatype Outcome =
    | Pair(refresh: Token, family: Family)  // rotated: a new pair was returned
    | Reused(family: Family)                // "Refresh token reuse detected"
    | Expired
    | Unknown                               // no such row
    | NoUser                                // the row's user is gone
    | LoggedOut(family: Family)

  datatype Pc =
    | Looking
    | FindingUser(row: Row, lookedAt: int)
    | Claiming(row: Row, lookedAt: int)
    | Revoking(family: Family)
    | Done(outcome: Outcome)

  datatype Call = Call(kind: Kind, token: Token, pc: Pc)

  datatype Sys = Sys(db: Db, calls: seq<Call>)

  // ---------- One step of one call ----------

  /** The lookup by hash and the checks made on its result before the next await. */
  function AfterLookup(db: Db, kind: Kind, token: Token): Pc {
    if token !in db.rows then Done(Unknown)
    else
      var row := db.rows[token];
      if kind == Logout then Revoking(row.family)
      else if row.revokedAt.Some? then Revoking(row.family)
      else if row.expiresAt <= db.now then Done(Expired)
      else FindingUser(row, db.now)
  }

  /** The statement a call is about to issue, if it writes. */
  function WriteOf(call: Call): Option<Op> {
    match call.pc
    case Claiming(_, _) => Some(Claim(call.token))
    case Revoking(family) => Some(RevokeFamily(family))
    case _ => None
  }

  function PcAfter(db: Db, call: Call, userFound: bool): Pc {
    match call.pc
    case Looking => AfterLookup(db, call.kind, call.token)
    case FindingUser(row, at) => if userFound then Claiming(row, at) else Done(NoUser)
    case Claiming(row, at) =>
      if Claimable(db, call.token) then Done(Pair(db.nextToken, row.family)) else Revoking(row.family)
    case Revoking(family) => Done(if call.kind == Logout then LoggedOut(family) else Reused(family))
    case Done(_) => call.pc
  }

  function DbAfter(db: Db, call: Call): Db {
    match WriteOf(call)
    case Some(op) => Apply(db, op)
    case None => db
  }

  // ---------- The system ----------

  datatype Action =
    | Present(kind: Kind, token: Token)   // someone presents a token; any value at all
    | Advance(call: nat, userFound: bool) // a call runs up to its next await
    | Login(user: User)
    | RunPurge
    | Wait(ms: nat)

  function Next(s: Sys, a: Action): Sys {
    match a
    case Present(kind, token) => s.(calls := s.calls + [Call(kind, token, Looking)])
    case Advance(c, userFound) =>
      if c < |s.calls| then
        var call := s.calls[c];
        Sys(DbAfter(s.db, call), s.calls[c := call.(pc := PcAfter(s.db, call, userFound))])
      else s
    case Login(user) => s.(db := Apply(s.db, Issue(user)))
    case RunPurge => s.(db := Apply(s.db, Purge))
    case Wait(ms) => s.(db := Apply(s.db, Tick(ms)))
  }

  function RunAll(s: Sys, actions: seq<Action>): Sys
    decreases |actions|
  {
    if actions == [] then s else RunAll(Next(s, actions[0]), actions[1..])
  }

  function Start(now: int, ttl: int, grace: int): Sys {
    Sys(Empty(now, ttl, grace), [])
  }

  // ---------- Invariant ----------

  ghost predicate CallOk(db: Db, call: Call) {
    match call.pc
    case Looking => true
    case FindingUser(row, _) => InFamily(db, call.token, row.family)
    case Claiming(row, _) => InFamily(db, call.token, row.family)
    case Revoking(family) => InFamily(db, call.token, family)
    case Done(Pair(refresh, family)) => Follows(db, call.token, refresh, family)
    case Done(Reused(family)) => InFamily(db, call.token, family) && Dead(db, family)
    case Done(LoggedOut(family)) => InFamily(db, call.token, family) && Dead(db, family)
    case Done(_) => true
  }

  ghost predicate Returned(call: Call, refresh: Token, family: Family) {
    call.pc == Done(Pair(refresh, family))
  }

  ghost predicate SysValid(s: Sys) {
    && Valid(s.db)
    && (forall c | 0 <= c < |s.calls| :: CallOk(s.db, s.calls[c]))
    // every token after a family's first was returned by some call
    && (forall t: Token, n: Token, f | Follows(s.db, t, n, f) ::
          exists c :: 0 <= c < |s.calls| && s.calls[c].token == t && Returned(s.calls[c], n, f))
    // and no token was returned twice
    && (forall c, d, n: Token, f, g | 0 <= c < |s.calls| && 0 <= d < |s.calls|
          && Returned(s.calls[c], n, f) && Returned(s.calls[d], n, g) :: c == d)
  }

  /** What one write leaves of everything the other calls rely on. */
  lemma ApplyKeepsCall(db: Db, op: Op, call: Call)
    requires Valid(db) && CallOk(db, call)
    ensures CallOk(Apply(db, op), call)
  {
    ApplyKeepsValid(db, op);
    assert Run(db, [op]) == Apply(db, op);
    forall f | f in db.lineage ensures f in Apply(db, op).lineage && db.lineage[f] <= Apply(db, op).lineage[f] {
      LineageGrows(db, [op], f);
    }
    match call.pc
    case Done(Reused(family)) => ApplyKeepsDead(db, op, family);
    case Done(LoggedOut(family)) => ApplyKeepsDead(db, op, family);
    case _ =>
  }

  /** A write that issues no successor leaves the invariant to the calls alone. */
  lemma OtherWriteKeepsSysValid(s: Sys, op: Op)
    requires SysValid(s) && !op.Claim?
    ensures SysValid(s.(db := Apply(s.db, op)))
    ensures forall t: Token, n: Token, f :: Follows(s.db, t, n, f) <==> Follows(Apply(s.db, op), t, n, f)
  {
    var after := Apply(s.db, op);
    ApplyKeepsValid(s.db, op);
    forall c | 0 <= c < |s.calls| ensures CallOk(after, s.calls[c]) {
      ApplyKeepsCall(s.db, op, s.calls[c]);
    }
    if op.Issue? {
      assert s.db.nextFamily !in s.db.lineage;
      assert after.lineage == s.db.lineage[s.db.nextFamily := [] + [s.db.nextToken]];
    }
    assert forall t: Token, n: Token, f :: Follows(s.db, t, n, f) <==> Follows(after, t, n, f);
  }

  /** A call that neither returns a pair nor changes the table only moves its program counter. */
  lemma MoveKeepsSysValid(s: Sys, c: nat, pc: Pc)
    requires SysValid(s) && c < |s.calls|
    requires CallOk(s.db, s.calls[c].(pc := pc))
    requires !s.calls[c].pc.Done? && !(pc.Done? && pc.outcome.Pair?)
    ensures SysValid(s.(calls := s.calls[c := s.calls[c].(pc := pc)]))
  {
    var after := s.(calls := s.calls[c := s.calls[c].(pc := pc)]);
    forall t: Token, n: Token, f | Follows(s.db, t, n, f)
      ensures exists d :: 0 <= d < |after.calls| && after.calls[d].token == t && Returned(after.calls[d], n, f)
    {
      var d :| 0 <= d < |s.calls| && s.calls[d].token == t && Returned(s.calls[d], n, f);
      assert after.calls[d] == s.calls[d];
    }
  }

  lemma ClaimStepKeepsSysValid(s: Sys, c: nat, userFound: bool)
    requires SysValid(s) && c < |s.calls| && s.calls[c].pc.Claiming? && Claimable(s.db, s.calls[c].token)
    ensures SysValid(Next(s, Advance(c, userFound)))
  {
    var call := s.calls[c];
    var after := Next(s, Advance(c, userFound));
    var f, n := call.pc.row.family, s.db.nextToken;
    ApplyKeepsValid(s.db, Claim(call.token));
    assert s.db.rows[call.token].family == f;
    assert Live(s.db, call.token, f);
    assert after.db.lineage == s.db.lineage[f := s.db.lineage[f] + [n]];
    var last := |s.db.lineage[f]|;
    assert 0 < last < |after.db.lineage[f]|;
    assert after.db.lineage[f][last - 1] == call.token && after.db.lineage[f][last] == n;
    assert Follows(after.db, call.token, n, f);
    forall d | 0 <= d < |after.calls| ensures CallOk(after.db, after.calls[d]) {
      ApplyKeepsCall(s.db, Claim(call.token), s.calls[d]);
    }
    forall t: Token, m: Token, g | Follows(after.db, t, m, g)
      ensures exists d :: 0 <= d < |after.calls| && after.calls[d].token == t && Returned(after.calls[d], m, g)
    {
      if m == n {
        assert InFamily(after.db, n, f) && InFamily(after.db, m, g);
        assert after.calls[c].token == t && Returned(after.calls[c], m, g);
      } else {
        assert Follows(s.db, t, m, g);
        var d :| 0 <= d < |s.calls| && s.calls[d].token == t && Returned(s.calls[d], m, g);
        assert after.calls[d] == s.calls[d];
      }
    }
    forall d, m: Token, g | 0 <= d < |s.calls| && Returned(s.calls[d], m, g) ensures m != n {
      assert CallOk(s.db, s.calls[d]);
      assert InFamily(s.db, m, g);
    }
  }

  lemma AdvanceKeepsSysValid(s: Sys, c: nat, userFound: bool)
    requires SysValid(s) && c < |s.calls|
    ensures SysValid(Next(s, Advance(c, userFound)))
  {
    var call := s.calls[c];
    var pc := PcAfter(s.db, call, userFound);
    match call.pc
    case Claiming(row, _) =>
      if Claimable(s.db, call.token) {
        ClaimStepKeepsSysValid(s, c, userFound);
      } else {
        MoveKeepsSysValid(s, c, pc);
      }
    case Revoking(family) =>
      var op := RevokeFamily(family);
      OtherWriteKeepsSysValid(s, op);
      assert forall t: Token :: !Live(Apply(s.db, op), t, family);
      MoveKeepsSysValid(s.(db := Apply(s.db, op)), c, pc);
    case Done(_) =>
      assert s.calls[c := call] == s.calls;
    case _ =>
      MoveKeepsSysValid(s, c, pc);
  }

  lemma NextKeepsSysValid(s: Sys, a: Action)
    requires SysValid(s)
    ensures SysValid(Next(s, a))
  {
    match a
    case Advance(c, userFound) =>
      if c < |s.calls| {
        AdvanceKeepsSysValid(s, c, userFound);
      }
    case Present(kind, token) =>
      var after := Next(s, a);
      forall t: Token, n: Token, f | Follows(s.db, t, n, f)
        ensures exists d :: 0 <= d < |after.calls| && after.calls[d].token == t && Returned(after.calls[d], n, f)
      {
        var d :| 0 <= d < |s.calls| && s.calls[d].token == t && Returned(s.calls[d], n, f);
        assert after.calls[d] == s.calls[d];
      }
    case Login(user) => OtherWriteKeepsSysValid(s, Issue(user));
    case RunPurge => OtherWriteKeepsSysValid(s, Purge);
    case Wait(ms) => OtherWriteKeepsSysValid(s, Tick(ms));
  }

  lemma {:induction false} RunKeepsSysValid(s: Sys, actions: seq<Action>)
    requires SysValid(s)
    ensures SysValid(RunAll(s, actions))
    decreases |actions|
  {
    if actions != [] {
      NextKeepsSysValid(s, actions[0]);
      RunKeepsSysValid(Next(s, actions[0]), actions[1..]);
    }
  }

  lemma StartIsValid(now: int, ttl: int, grace: int)
    ensures SysValid(Start(now, ttl, grace))
  {}

  ghost predicate Reachable(s: Sys) {
    exists now, ttl, grace, actions :: s == RunAll(Start(now, ttl, grace), actions)
  }

  lemma ReachableIsValid(s: Sys)
    requires Reachable(s)
    ensures SysValid(s)
  {
    var now, ttl, grace, actions :| s == RunAll(Start(now, ttl, grace), actions);
    StartIsValid(now, ttl, grace);
    RunKeepsSysValid(Start(now, ttl, grace), actions);
  }

  // ---------- Theorems over every run ----------

  /** However many calls present one token, at most one of them gets a new pair. */
  lemma OneWinner(s: Sys, c: nat, d: nat)
    requires Reachable(s) && c < |s.calls| && d < |s.calls| && s.calls[c].token == s.calls[d].token
    requires s.calls[c].pc.Done? && s.calls[c].pc.outcome.Pair?
    requires s.calls[d].pc.Done? && s.calls[d].pc.outcome.Pair?
    ensures c == d
  {
    ReachableIsValid(s);
    var Pair(n, f) := s.calls[c].pc.outcome;
    var Pair(m, g) := s.calls[d].pc.outcome;
    assert CallOk(s.db, s.calls[c]) && CallOk(s.db, s.calls[d]);
    assert InFamily(s.db, s.calls[c].token, f) && InFamily(s.db, s.calls[c].token, g);
    assert n == m;
    assert Returned(s.calls[c], n, f) && Returned(s.calls[d], n, g);
  }

  /**
   A family's rows form one chain: each token after the first was returned by exactly one call,
   which presented its predecessor, and every token but the newest is spent.
   */
  lemma FamilyIsOneChain(s: Sys, family: Family, i: nat)
    requires Reachable(s) && family in s.db.lineage && 0 < i < |s.db.lineage[family]|
    ensures var chain := s.db.lineage[family];
      && !Live(s.db, chain[i - 1], family)
      && exists c :: 0 <= c < |s.calls| && s.calls[c].token == chain[i - 1] && Returned(s.calls[c], chain[i], family)
                     && forall d | 0 <= d < |s.calls| && d != c :: !Returned(s.calls[d], chain[i], family)
    ensures forall t | t in s.db.rows && s.db.rows[t].family == family :: t in s.db.lineage[family]
  {
    ReachableIsValid(s);
    var chain := s.db.lineage[family];
    assert Follows(s.db, chain[i - 1], chain[i], family);
    var c :| 0 <= c < |s.calls| && s.calls[c].token == chain[i - 1] && Returned(s.calls[c], chain[i], family);
    forall t | t in s.db.rows && s.db.rows[t].family == family ensures t in chain {
      assert InFamily(s.db, t, family);
    }
  }

  lemma NextKeepsDead(s: Sys, a: Action, family: Family)
    requires SysValid(s) && Dead(s.db, family)
    ensures Dead(Next(s, a).db, family)
    ensures Next(s, a).db.lineage[family] == s.db.lineage[family]
  {
    var op := match a
      case Advance(c, _) => if c < |s.calls| then WriteOf(s.calls[c]) else None
      case Login(user) => Some(Issue(user))
      case RunPurge => Some(Purge)
      case Wait(ms) => Some(Tick(ms))
      case Present(_, _) => None;
    if op.Some? {
      ApplyKeepsDead(s.db, op.value, family);
      if op.value.Claim? && Claimable(s.db, op.value.token) {
        assert Live(s.db, op.value.token, s.db.rows[op.value.token].family);
      }
    }
  }

  /**
   Once a family has no unrevoked row it never has one again, and no call issues in it again: a
   burn or a logout holds even against a rotation already past its checks.
   */
  lemma {:induction false} DeadFamilyIssuesNothing(s: Sys, actions: seq<Action>, family: Family)
    requires SysValid(s) && Dead(s.db, family)
    ensures Dead(RunAll(s, actions).db, family)
    ensures RunAll(s, actions).db.lineage[family] == s.db.lineage[family]
    decreases |actions|
  {
    if actions != [] {
      NextKeepsSysValid(s, actions[0]);
      NextKeepsDead(s, actions[0], family);
      DeadFamilyIssuesNothing(Next(s, actions[0]), actions[1..], family);
    }
  }

  /**
   After any call has answered "reuse detected", or a logout has finished, every token of that
   family is dead for good, the replacement some winner holds among them.
   */
  lemma ReuseKillsTheFamily(mid: Sys, after: seq<Action>, c: nat, family: Family)
    requires Reachable(mid) && c < |mid.calls|
    requires mid.calls[c].pc in {Done(Reused(family)), Done(LoggedOut(family))}
    ensures var s := RunAll(mid, after);
      && Dead(s.db, family)
      && forall d, n: Token | 0 <= d < |s.calls| && Returned(s.calls[d], n, family) ::
           n in s.db.rows ==> s.db.rows[n].revokedAt.Some?
  {
    ReachableIsValid(mid);
    assert CallOk(mid.db, mid.calls[c]);
    DeadFamilyIssuesNothing(mid, after, family);
    RunKeepsSysValid(mid, after);
    var s := RunAll(mid, after);
    forall d, n: Token | 0 <= d < |s.calls| && Returned(s.calls[d], n, family) && n in s.db.rows
      ensures s.db.rows[n].revokedAt.Some?
    {
      assert CallOk(s.db, s.calls[d]);
      assert InFamily(s.db, n, family) && InFamily(s.db, n, s.db.rows[n].family);
      assert !Live(s.db, n, family);
    }
  }

  // ---------- Why a row is revoked ----------

  /** Only a rotation returns a pair or detects reuse, and only a logout logs out. */
  predicate KindOk(call: Call) {
    match call.kind
    case Rotation => !(call.pc.Done? && call.pc.outcome.LoggedOut?)
    case Logout =>
      || call.pc.Looking? || call.pc.Revoking?
      || (call.pc.Done? && (call.pc.outcome.Unknown? || call.pc.outcome.LoggedOut?))
  }

  predicate HasPair(call: Call) {
    call.pc.Done? && call.pc.outcome.Pair?
  }

  /** Some call exchanged this very token for a new one. */
  ghost predicate Spent(s: Sys, token: Token) {
    exists c :: 0 <= c < |s.calls| && s.calls[c].token == token && HasPair(s.calls[c])
  }

  /** Some logout of the family has been served. */
  ghost predicate LoggedOutOf(s: Sys, family: Family) {
    exists c :: 0 <= c < |s.calls| && s.calls[c].pc == Done(LoggedOut(family))
  }

  /** Some call has revoked the whole family. */
  ghost predicate Burned(s: Sys, family: Family) {
    LoggedOutOf(s, family) || exists c :: 0 <= c < |s.calls| && s.calls[c].pc == Done(Reused(family))
  }

  ghost predicate Caused(s: Sys) {
    && (forall c | 0 <= c < |s.calls| :: KindOk(s.calls[c]))
    && (forall t | t in s.db.rows && s.db.rows[t].revokedAt.Some? :: Spent(s, t) || Burned(s, s.db.rows[t].family))
  }

  /** What has been spent or burned stays so. */
  lemma NextKeepsCauses(s: Sys, a: Action)
    ensures forall t :: Spent(s, t) ==> Spent(Next(s, a), t)
    ensures forall f :: LoggedOutOf(s, f) ==> LoggedOutOf(Next(s, a), f)
    ensures forall f :: Burned(s, f) ==> Burned(Next(s, a), f)
  {
    var after := Next(s, a);
    assert |s.calls| <= |after.calls|;
    assert forall c | 0 <= c < |s.calls| && s.calls[c].pc.Done? :: after.calls[c] == s.calls[c];
    forall t | Spent(s, t) ensures Spent(after, t) {
      var c :| 0 <= c < |s.calls| && s.calls[c].token == t && HasPair(s.calls[c]);
      assert after.calls[c] == s.calls[c];
    }
  }

  lemma NextKeepsCaused(s: Sys, a: Action)
    requires Caused(s)
    ensures Caused(Next(s, a))
  {
    var after := Next(s, a);
    NextKeepsCauses(s, a);
    forall c | 0 <= c < |after.calls| ensures KindOk(after.calls[c]) {
      assert c < |s.calls| ==> KindOk(s.calls[c]);
    }
    forall t | t in after.db.rows && after.db.rows[t].revokedAt.Some?
      ensures Spent(after, t) || Burned(after, after.db.rows[t].family)
    {
      if t in s.db.rows && s.db.rows[t].revokedAt.Some? {
        assert Spent(s, t) || Burned(s, s.db.rows[t].family);
      } else {
        assert a.Advance? && a.call < |s.calls|;
        var call := after.calls[a.call];
        assert (call.token == t && HasPair(call)) || call.pc == Done(LoggedOut(after.db.rows[t].family))
            || call.pc == Done(Reused(after.db.rows[t].family));
      }
    }
  }

  lemma {:induction false} RunKeepsCaused(s: Sys, actions: seq<Action>)
    requires Caused(s)
    ensures Caused(RunAll(s, actions))
    decreases |actions|
  {
    if actions != [] {
      NextKeepsCaused(s, actions[0]);
      RunKeepsCaused(Next(s, actions[0]), actions[1..]);
    }
  }

  /** Nothing else ever revokes a row: it was exchanged for its successor, or its family was burned or logged out. */
  lemma RevocationHasACause(s: Sys, token: Token)
    requires Reachable(s) && token in s.db.rows && s.db.rows[token].revokedAt.Some?
    ensures Spent(s, token) || Burned(s, s.db.rows[token].family)
  {
    var now, ttl, grace, actions :| s == RunAll(Start(now, ttl, grace), actions);
    RunKeepsCaused(Start(now, ttl, grace), actions);
  }

  // ---------- How one call ends ----------

  /**
   A rotation that others' statements move the table under: `seen` at its lookup, `atClaim` at its claim. A
   call that reads no row, a used row or an expired one, finds no user or loses the claim ends accordingly,
   and only one that does none of these returns a pair.
   */
  lemma RotationEnds(seen: Db, mid: Db, atClaim: Db, atBurn: Db, token: Token, userFound: bool)
    ensures var looked := Call(Rotation, token, PcAfter(seen, Call(Rotation, token, Looking), userFound));
      var asked := looked.(pc := PcAfter(mid, looked, userFound));
      var claimed := asked.(pc := PcAfter(atClaim, asked, userFound));
      var end := PcAfter(atBurn, claimed, userFound);
      var ready := Claimable(seen, token) && seen.now < seen.rows[token].expiresAt;
      && end.Done?
      && (end.outcome.Unknown? <==> token !in seen.rows)
      && (end.outcome.Expired? <==> Claimable(seen, token) && seen.rows[token].expiresAt <= seen.now)
      && (end.outcome.NoUser? <==> ready && !userFound)
      && (end.outcome.Pair? <==> ready && userFound && Claimable(atClaim, token))
      && (end.outcome.Pair? ==> end.outcome == Pair(atClaim.nextToken, seen.rows[token].family))
      && (end.outcome.Reused? <==>
            token in seen.rows && (!Claimable(seen, token) || (ready && userFound && !Claimable(atClaim, token))))
      && (end.outcome.Reused? ==> end.outcome.family == seen.rows[token].family)
      && !end.outcome.LoggedOut?
  {}

  /** A logout knows its token or not, whatever the row's state. */
  lemma LogoutEnds(seen: Db, atBurn: Db, token: Token, userFound: bool)
    ensures var looked := Call(Logout, token, PcAfter(seen, Call(Logout, token, Looking), userFound));
      PcAfter(atBurn, looked, userFound)
        == Done(if token in seen.rows then LoggedOut(seen.rows[token].family) else Unknown)
  {}

  // ---------- Replay is always noticed ----------

  lemma NextRetainsRow(s: Sys, a: Action, token: Token)
    requires SysValid(s) && token in s.db.rows
    requires Next(s, a).db.now <= s.db.rows[token].expiresAt + s.db.grace
    ensures token in Next(s, a).db.rows && SameRow(s.db.rows[token], Next(s, a).db.rows[token])
    ensures Next(s, a).db.grace == s.db.grace
  {
    var op := match a
      case Advance(c, _) => if c < |s.calls| then WriteOf(s.calls[c]) else None
      case Login(user) => Some(Issue(user))
      case RunPurge => Some(Purge)
      case Wait(ms) => Some(Tick(ms))
      case Present(_, _) => None;
    if op.Some? {
      assert Run(s.db, [op.value]) == Apply(s.db, op.value);
      ClockIsMonotone(s.db, [op.value]);
      RowIsRetained(s.db, [op.value], token);
    }
  }

  lemma {:induction false} SysClockIsMonotone(s: Sys, actions: seq<Action>)
    ensures s.db.now <= RunAll(s, actions).db.now
    decreases |actions|
  {
    if actions != [] {
      SysClockIsMonotone(Next(s, actions[0]), actions[1..]);
    }
  }

  lemma {:induction false} RunRetainsRow(s: Sys, actions: seq<Action>, token: Token)
    requires SysValid(s) && token in s.db.rows
    requires RunAll(s, actions).db.now <= s.db.rows[token].expiresAt + s.db.grace
    ensures token in RunAll(s, actions).db.rows
    ensures SameRow(s.db.rows[token], RunAll(s, actions).db.rows[token])
    decreases |actions|
  {
    if actions != [] {
      SysClockIsMonotone(Next(s, actions[0]), actions[1..]);
      NextRetainsRow(s, actions[0], token);
      NextKeepsSysValid(s, actions[0]);
      RunRetainsRow(Next(s, actions[0]), actions[1..], token);
    }
  }

  lemma {:induction false} RevokingEndsInReuse(s: Sys, actions: seq<Action>, c: nat, family: Family)
    requires c < |s.calls| && s.calls[c].kind == Rotation
    requires s.calls[c].pc in {Revoking(family), Done(Reused(family))}
    ensures c < |RunAll(s, actions).calls|
    ensures RunAll(s, actions).calls[c].pc in {Revoking(family), Done(Reused(family))}
    decreases |actions|
  {
    if actions != [] {
      RevokingEndsInReuse(Next(s, actions[0]), actions[1..], c, family);
    }
  }

  /**
   A spent token presented at any time up to its expiry plus the grace period is recognised,
   whatever purges ran in between: the call burns the family, and by the time it answers no
   unrevoked row of the family is left.
   */
  lemma ReplayIsDetected(s: Sys, token: Token, before: seq<Action>, c: nat, userFound: bool, after: seq<Action>)
    requires SysValid(s) && token in s.db.rows && s.db.rows[token].revokedAt.Some?
    requires var mid := RunAll(s, before);
             && c < |mid.calls| && mid.calls[c] == Call(Rotation, token, Looking)
             && mid.db.now <= s.db.rows[token].expiresAt + s.db.grace
    ensures var family := s.db.rows[token].family;
            var looked := Next(RunAll(s, before), Advance(c, userFound));
            var end := RunAll(looked, after);
            && looked.calls[c].pc == Revoking(family)
            && c < |end.calls|
            && (end.calls[c].pc.Done? ==> end.calls[c].pc.outcome == Reused(family) && Dead(end.db, family))
  {
    RunRetainsRow(s, before, token);
    RunKeepsSysValid(s, before);
    var family := s.db.rows[token].family;
    var looked := Next(RunAll(s, before), Advance(c, userFound));
    NextKeepsSysValid(RunAll(s, before), Advance(c, userFound));
    RevokingEndsInReuse(looked, after, c, family);
    RunKeepsSysValid(looked, after);
    var end := RunAll(looked, after);
    assert CallOk(end.db, end.calls[c]);
  }
}
