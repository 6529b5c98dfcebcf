/**
 The refresh-token table (`RefreshToken` in schema.prisma) and the five statements that ever
 change it: the insert of a new session, the claim-and-reissue transaction, the family revocation,
 the purge, and the passing of time.

 A raw token, its SHA-256 hash and the row's id identify the same row and never change, so one
 number stands for all three; `nextToken` and `nextFamily` stand for the CSPRNG and randomUUID,
 which never repeat a value.
 */
module TokenTable {
  import opened Wrappers

  type Token = nat
  type Family = nat
  type User = nat

  datatype Row = Row(user: User, family: Family, expiresAt: int, revokedAt: Option<int>)

  /**
   `lineage` is a history variable: for each family, the tokens ever issued in it, oldest first.
   No operation reads it.
   */
  datatype Db = Db(
    rows: map<Token, Row>,
    now: int,
    nextToken: nat,
    nextFamily: nat,
    ttl: int,
    grace: int,
    lineage: map<Family, seq<Token>>)

  function Empty(now: int, ttl: int, grace: int): Db {
    Db(map[], now, 0, 0, ttl, grace, map[])
  }

  // ---------- The statements ----------

  datatype Op =
    | Issue(user: User)
    | Claim(token: Token)
    | RevokeFamily(family: Family)
    | Purge
    | Tick(ms: nat)

  function Insert(db: Db, user: User, family: Family): Db {
    db.(rows := db.rows[db.nextToken := Row(user, family, db.now + db.ttl, None)],
        nextToken := db.nextToken + 1,
        lineage := db.lineage[family := (if family in db.lineage then db.lineage[family] else []) + [db.nextToken]])
  }

  predicate Claimable(db: Db, token: Token) {
    token in db.rows && db.rows[token].revokedAt.None?
  }

  function Revoke(row: Row, now: int): Row {
    if row.revokedAt.None? then row.(revokedAt := Some(now)) else row
  }

  function Apply(db: Db, op: Op): Db {
    match op
    case Issue(user) =>
      Insert(db, user, db.nextFamily).(nextFamily := db.nextFamily + 1)
    case Claim(token) =>
      if Claimable(db, token) then
        var row := db.rows[token];
        Insert(db.(rows := db.rows[token := Revoke(row, db.now)]), row.user, row.family)
      else db
    case RevokeFamily(family) =>
      db.(rows := map t | t in db.rows ::
        if db.rows[t].family == family then Revoke(db.rows[t], db.now) else db.rows[t])
    case Purge =>
      db.(rows := map t | t in db.rows && !(db.rows[t].expiresAt < db.now - db.grace) :: db.rows[t])
    case Tick(ms) =>
      db.(now := db.now + ms)
  }

  function Run(db: Db, ops: seq<Op>): Db
    decreases |ops|
  {
    if ops == [] then db else Run(Apply(db, ops[0]), ops[1..])
  }

  // ---------- Family invariant ----------

  ghost predicate InFamily(db: Db, token: Token, family: Family) {
    family in db.lineage && token in db.lineage[family]
  }

  ghost predicate Live(db: Db, token: Token, family: Family) {
    token in db.rows && db.rows[token].family == family && db.rows[token].revokedAt.None?
  }

  /** No unrevoked row: what a burn or a logout leaves behind. */
  ghost predicate Dead(db: Db, family: Family) {
    family in db.lineage && forall t :: !Live(db, t, family)
  }

  /** No token is issued twice, within a family or across two. */
  ghost predicate NoRepeats(db: Db) {
    && (forall f, i, j | f in db.lineage && 0 <= i < j < |db.lineage[f]| :: db.lineage[f][i] != db.lineage[f][j])
    && (forall t: Token, f, g | InFamily(db, t, f) && InFamily(db, t, g) :: f == g)
  }

  ghost predicate IsNewest(db: Db, token: Token, family: Family) {
    InFamily(db, token, family) && token == db.lineage[family][|db.lineage[family]| - 1]
  }

  ghost predicate Valid(db: Db) {
    && (forall f: Family :: f in db.lineage <==> f < db.nextFamily)
    && (forall t: Token, f | InFamily(db, t, f) :: t < db.nextToken)
    && (forall t | t in db.rows :: InFamily(db, t, db.rows[t].family))
    && (forall t: Token, f | Live(db, t, f) :: IsNewest(db, t, f))
    && NoRepeats(db)
  }

  /** Token `next` was issued by the rotation that consumed `token`. */
  ghost predicate Follows(db: Db, token: Token, next: Token, family: Family) {
    && family in db.lineage
    && exists i :: 0 < i < |db.lineage[family]| && db.lineage[family][i - 1] == token && db.lineage[family][i] == next
  }

  /** Statements that only revoke or delete rows keep the invariant. */
  lemma FewerLiveKeepsValid(db: Db, after: Db)
    requires Valid(db) && after.lineage == db.lineage
    requires after.nextToken == db.nextToken && after.nextFamily == db.nextFamily
    requires forall t | t in after.rows :: t in db.rows && after.rows[t].family == db.rows[t].family
    requires forall t | t in after.rows && after.rows[t].revokedAt.None? :: db.rows[t].revokedAt.None?
    ensures Valid(after)
  {
    assert forall t: Token, g | Live(after, t, g) :: Live(db, t, g);
    assert forall t: Token, g :: InFamily(after, t, g) <==> InFamily(db, t, g);
  }

  lemma InsertKeepsValid(db: Db, user: User, family: Family)
    requires Valid(db) && Dead(db, family)
    ensures Valid(Insert(db, user, family))
  {
    var after := Insert(db, user, family);
    var old', new' := db.lineage[family], after.lineage[family];
    assert new' == old' + [db.nextToken];
    forall i | 0 <= i < |old'| ensures old'[i] < db.nextToken {
      assert InFamily(db, old'[i], family);
    }
    assert forall t: Token, g :: InFamily(after, t, g) <==> InFamily(db, t, g) || (t == db.nextToken && g == family);
    assert forall t: Token, g | Live(after, t, g) :: Live(db, t, g) || (t == db.nextToken && g == family);
  }

  lemma IssueKeepsValid(db: Db, user: User)
    requires Valid(db)
    ensures Valid(Apply(db, Issue(user)))
  {
    var after := Apply(db, Issue(user));
    assert db.nextFamily !in db.lineage;
    assert [] + [db.nextToken] == [db.nextToken];
    assert after.lineage == db.lineage[db.nextFamily := [db.nextToken]];
    assert forall t: Token, g ::
      InFamily(after, t, g) <==> InFamily(db, t, g) || (t == db.nextToken && g == db.nextFamily);
    assert forall t: Token, g | Live(after, t, g) :: Live(db, t, g) || (t == db.nextToken && g == db.nextFamily);
  }

  lemma ClaimKeepsValid(db: Db, token: Token)
    requires Valid(db) && Claimable(db, token)
    ensures Valid(Apply(db, Claim(token)))
  {
    var row := db.rows[token];
    var claimed := db.(rows := db.rows[token := Revoke(row, db.now)]);
    FewerLiveKeepsValid(db, claimed);
    assert Live(db, token, row.family);
    assert forall t: Token | Live(claimed, t, row.family) :: Live(db, t, row.family);
    InsertKeepsValid(claimed, row.user, row.family);
  }

  lemma ApplyKeepsValid(db: Db, op: Op)
    requires Valid(db)
    ensures Valid(Apply(db, op))
  {
    match op
    case Issue(user) => IssueKeepsValid(db, user);
    case Claim(token) =>
      if Claimable(db, token) {
        ClaimKeepsValid(db, token);
      }
    case _ => FewerLiveKeepsValid(db, Apply(db, op));
  }

  lemma {:induction false} RunKeepsValid(db: Db, ops: seq<Op>)
    requires Valid(db)
    ensures Valid(Run(db, ops))
    decreases |ops|
  {
    if ops != [] {
      ApplyKeepsValid(db, ops[0]);
      RunKeepsValid(Apply(db, ops[0]), ops[1..]);
    }
  }

  lemma {:induction false} RunConcat(db: Db, first: seq<Op>, second: seq<Op>)
    ensures Run(db, first + second) == Run(Run(db, first), second)
    decreases |first|
  {
    if first == [] {
      assert first + second == second;
    } else {
      assert (first + second)[1..] == first[1..] + second;
      RunConcat(Apply(db, first[0]), first[1..], second);
    }
  }

  /**
   For every interleaving of issues, rotations, logouts, burns and purges, from an empty table:
   a family never has two unrevoked rows, and the one it may have is the newest token it issued.
   */
  lemma FamilyHasAtMostOneLiveToken(now: int, ttl: int, grace: int, ops: seq<Op>, family: Family, t: Token, u: Token)
    requires Live(Run(Empty(now, ttl, grace), ops), t, family)
    requires Live(Run(Empty(now, ttl, grace), ops), u, family)
    ensures t == u
    ensures IsNewest(Run(Empty(now, ttl, grace), ops), t, family)
  {
    RunKeepsValid(Empty(now, ttl, grace), ops);
  }

  lemma ApplyKeepsDead(db: Db, op: Op, family: Family)
    requires Valid(db) && Dead(db, family)
    ensures Dead(Apply(db, op), family)
  {
    var after := Apply(db, op);
    forall t: Token ensures !Live(after, t, family) {
      assert !Live(db, t, family);
      if op.Claim? && Claimable(db, op.token) {
        assert Live(db, op.token, db.rows[op.token].family);
      }
    }
  }

  /** A burn or a logout is permanent: no later statement of anyone revives the family. */
  lemma {:induction false} DeadFamilyStaysDead(db: Db, ops: seq<Op>, family: Family)
    requires Valid(db) && Dead(db, family)
    ensures Dead(Run(db, ops), family)
    decreases |ops|
  {
    if ops != [] {
      ApplyKeepsValid(db, ops[0]);
      ApplyKeepsDead(db, ops[0], family);
      DeadFamilyStaysDead(Apply(db, ops[0]), ops[1..], family);
    }
  }

  // ---------- What later statements may do to a row ----------

  /** `later` is `row` with at most a revocation added; a revocation already there is kept as it is. */
  predicate SameRow(row: Row, later: Row) {
    && later.user == row.user && later.family == row.family && later.expiresAt == row.expiresAt
    && (row.revokedAt.Some? ==> later.revokedAt == row.revokedAt)
  }

  /** A token that a statement puts into the table is unrevoked and expires `ttl` after that statement. */
  lemma NewRowsLiveTheirTtl(db: Db, op: Op, token: Token)
    requires token in Apply(db, op).rows && token !in db.rows
    ensures var row := Apply(db, op).rows[token];
      && row.revokedAt.None? && row.expiresAt == db.now + db.ttl
      && (op.Issue? || op.Claim?)
      && (op.Issue? ==> row.user == op.user && row.family == db.nextFamily)
      && (op.Claim? ==>
            && op.token in db.rows && db.rows[op.token].revokedAt.None?
            && row.user == db.rows[op.token].user && row.family == db.rows[op.token].family)
  {}

  /**
   A row already there goes only in a purge, past its expiry plus the grace period; and changes only by its
   revocation, at the clock of the statement that claims it or revokes its family.
   */
  lemma OldRowsAreRevokedOrPurged(db: Db, op: Op, token: Token)
    requires Valid(db) && token in db.rows
    ensures var row, after := db.rows[token], Apply(db, op).rows;
      && (token !in after <==> op.Purge? && db.now > row.expiresAt + db.grace)
      && (token in after ==>
            if row.revokedAt.None? && (op == Claim(token) || op == RevokeFamily(row.family))
            then after[token] == row.(revokedAt := Some(db.now)) else after[token] == row)
    ensures Apply(db, op).now == db.now + if op.Tick? then op.ms else 0
  {
    assert InFamily(db, token, db.rows[token].family);
  }

  /** Every row expires `ttl` after the statement of the run that inserted it. */
  lemma {:induction false} RowsExpireAfterTheirTtl(now: int, ttl: int, grace: int, ops: seq<Op>, token: Token)
    requires token in Run(Empty(now, ttl, grace), ops).rows
    ensures exists i ::
      && 0 <= i < |ops| && IssuedAt(Empty(now, ttl, grace), ops, i, token)
      && Run(Empty(now, ttl, grace), ops).rows[token].expiresAt == Run(Empty(now, ttl, grace), ops[..i]).now + ttl
  {
    var empty := Empty(now, ttl, grace);
    var front := ops[..|ops| - 1];
    assert ops == front + [ops[|ops| - 1]];
    RunLast(empty, front, ops[|ops| - 1]);
    RunKeepsValid(empty, front);
    var before := Run(empty, front);
    ClockIsMonotone(empty, front);
    if token in before.rows {
      OldRowsAreRevokedOrPurged(before, ops[|ops| - 1], token);
      RowsExpireAfterTheirTtl(now, ttl, grace, front, token);
      var i :| 0 <= i < |front| && IssuedAt(empty, front, i, token)
        && before.rows[token].expiresAt == Run(empty, front[..i]).now + ttl;
      assert front[..i] == ops[..i] && front[..i + 1] == ops[..i + 1];
      assert IssuedAt(empty, ops, i, token);
    } else {
      NewRowsLiveTheirTtl(before, ops[|ops| - 1], token);
      assert ops[..|ops|] == ops;
      assert IssuedAt(empty, ops, |front|, token);
    }
  }

  /** The i-th statement of the run inserts the token. */
  ghost predicate IssuedAt(db: Db, ops: seq<Op>, i: nat, token: Token) {
    i < |ops| && token !in Run(db, ops[..i]).rows && token in Run(db, ops[..i + 1]).rows
  }

  lemma RunLast(db: Db, front: seq<Op>, last: Op)
    ensures Run(db, front + [last]) == Apply(Run(db, front), last)
  {
    RunConcat(db, front, [last]);
    assert [last][1..] == [];
    assert Run(Run(db, front), [last]) == Run(Apply(Run(db, front), last), []);
  }

  lemma {:induction false} ClockIsMonotone(db: Db, ops: seq<Op>)
    ensures db.now <= Run(db, ops).now
    ensures Run(db, ops).grace == db.grace && Run(db, ops).ttl == db.ttl
    decreases |ops|
  {
    if ops != [] {
      ClockIsMonotone(Apply(db, ops[0]), ops[1..]);
    }
  }

  /**
   Purges at any points never remove a row before its expiry plus the grace period, and nothing
   un-revokes it.
   */
  lemma {:induction false} RowIsRetained(db: Db, ops: seq<Op>, token: Token)
    requires Valid(db) && token in db.rows
    requires Run(db, ops).now <= db.rows[token].expiresAt + db.grace
    ensures token in Run(db, ops).rows && SameRow(db.rows[token], Run(db, ops).rows[token])
    decreases |ops|
  {
    if ops != [] {
      var next := Apply(db, ops[0]);
      ClockIsMonotone(next, ops[1..]);
      ApplyKeepsValid(db, ops[0]);
      assert InFamily(db, token, db.rows[token].family);
      assert token < db.nextToken;
      RowIsRetained(next, ops[1..], token);
    }
  }

  /** Lineages only grow at the end. */
  lemma {:induction false} LineageGrows(db: Db, ops: seq<Op>, family: Family)
    requires Valid(db) && family in db.lineage
    ensures family in Run(db, ops).lineage && db.lineage[family] <= Run(db, ops).lineage[family]
    decreases |ops|
  {
    if ops != [] {
      ApplyKeepsValid(db, ops[0]);
      LineageGrows(Apply(db, ops[0]), ops[1..], family);
    }
  }
}
