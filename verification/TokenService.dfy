/**
 `TokenService` and `RefreshTokenPurgeService` as they are written: awaited statements against a
 shared table. What other requests do to the table while this one waits is the `Interference`
 argument: one list of statements per await, any statements at all.
 */
module TokenService {
  import opened Wrappers
  import opened TokenTable

  class Database {
    var rows: map<Token, Row>
    var now: int
    var nextToken: nat
    var nextFamily: nat
    const ttl: int
    const grace: int
    ghost var lineage: map<Family, seq<Token>>

    ghost function View(): Db
      reads this
    {
      Db(rows, now, nextToken, nextFamily, ttl, grace, lineage)
    }

    constructor (now: int, ttl: int, grace: int)
      ensures View() == Empty(now, ttl, grace)
    {
      this.rows, this.now, this.nextToken, this.nextFamily := map[], now, 0, 0;
      this.ttl, this.grace, this.lineage := ttl, grace, map[];
    }

    /** `refreshToken.create`, with the raw token generated just before it. */
    method CreateRow(user: User, family: Family) returns (raw: Token)
      modifies this
      ensures raw == old(nextToken) && View() == Insert(old(View()), user, family)
    {
      raw := nextToken;
      nextToken := nextToken + 1;
      rows := rows[raw := Row(user, family, now + ttl, None)];
      lineage := lineage[family := (if family in lineage then lineage[family] else []) + [raw]];
    }

    /** `updateMany({ id, revokedAt: null })`: the compare-and-swap. */
    method ClaimRow(token: Token) returns (count: nat)
      modifies this`rows
      ensures count == if Claimable(old(View()), token) then 1 else 0
      ensures count == 0 ==> rows == old(rows)
      ensures count == 1 ==> rows == old(rows)[token := Revoke(old(rows)[token], now)]
    {
      count := 0;
      if token in rows && rows[token].revokedAt.None? {
        rows := rows[token := rows[token].(revokedAt := Some(now))];
        count := 1;
      }
    }

    /** The interactive transaction of `rotate`; null when another request won the claim. */
    method ClaimAndReissue(token: Token, existing: Row) returns (reissued: Option<Token>)
      requires token in rows ==> SameRow(existing, rows[token])
      modifies this
      ensures View() == Apply(old(View()), Claim(token))
      ensures reissued == if Claimable(old(View()), token) then Some(old(nextToken)) else None
      ensures reissued.Some? ==>
        && rows.Keys == old(rows).Keys + {reissued.value}
        && rows[reissued.value] == Row(existing.user, existing.family, now + ttl, None)
        && (token != reissued.value ==> rows[token] == old(rows)[token].(revokedAt := Some(now)))
    {
      var claimed := ClaimRow(token);
      if claimed == 0 {
        return None;
      }
      var raw := CreateRow(existing.user, existing.family);
      return Some(raw);
    }

    /** `revokeFamily`: every unrevoked row of the family, in one `updateMany`. */
    method RevokeAll(family: Family)
      modifies this`rows
      ensures View() == Apply(old(View()), RevokeFamily(family))
    {
      rows := map t | t in rows :: if rows[t].family == family then Revoke(rows[t], now) else rows[t];
    }

    /** `deleteMany({ expiresAt: { lt: cutoff } })`. */
    method DeleteExpired(cutoff: int) returns (count: nat)
      modifies this`rows
      ensures rows == map t | t in old(rows) && !(old(rows)[t].expiresAt < cutoff) :: old(rows)[t]
      ensures count == |set t | t in old(rows) && old(rows)[t].expiresAt < cutoff|
    {
      count := |set t | t in rows && rows[t].expiresAt < cutoff|;
      rows := map t | t in rows && !(rows[t].expiresAt < cutoff) :: rows[t];
    }

    /** One statement of some other request. */
    method Serve(op: Op)
      modifies this
      ensures View() == Apply(old(View()), op)
    {
      match op
      case Issue(user) =>
        var family := nextFamily;
        nextFamily := nextFamily + 1;
        var _ := CreateRow(user, family);
      case Claim(token) =>
        if token in rows {
          var _ := ClaimAndReissue(token, rows[token]);
        }
      case RevokeFamily(family) => RevokeAll(family);
      case Purge => var _ := DeleteExpired(now - grace);
      case Tick(ms) => now := now + ms;
    }

    /** Other requests run while this one awaits. */
    method Others(ops: seq<Op>)
      modifies this
      ensures View() == Run(old(View()), ops)
    {
      for i := 0 to |ops|
        invariant Run(old(View()), ops) == Run(View(), ops[i..])
      {
        Serve(ops[i]);
      }
    }
  }

  class PurgeService {
    const prisma: Database

    constructor (prisma: Database)
      ensures this.prisma == prisma
    {
      this.prisma := prisma;
    }

    /** Deletes exactly the rows more than the grace period past expiry, revoked or not. */
    method PurgeExpired() returns (count: nat)
      modifies prisma
      ensures prisma.View() == Apply(old(prisma.View()), Purge)
      ensures forall t :: t in old(prisma.rows) ==>
        (t !in prisma.rows <==> prisma.now > old(prisma.rows)[t].expiresAt + prisma.grace)
      ensures count == |old(prisma.rows)| - |prisma.rows|
    {
      var cutoff := prisma.now - prisma.grace;
      ghost var before := prisma.rows;
      count := prisma.DeleteExpired(cutoff);
      SplitByCutoff(before, cutoff);
    }
  }

  lemma SplitByCutoff(rows: map<Token, Row>, cutoff: int)
    ensures |set t | t in rows && rows[t].expiresAt < cutoff|
         == |rows| - |map t | t in rows && !(rows[t].expiresAt < cutoff) :: rows[t]|
  {
    var gone := set t | t in rows && rows[t].expiresAt < cutoff;
    var kept := map t | t in rows && !(rows[t].expiresAt < cutoff) :: rows[t];
    assert rows.Keys == gone + kept.Keys && gone !! kept.Keys;
  }

  datatype Interference = Interference(
    beforeLookup: seq<Op>,
    beforeUser: seq<Op>,
    beforeClaim: seq<Op>,
    beforeBurn: seq<Op>)

  /** A row of the user table, as far as a session needs it. */
  datatype Account = Account(id: User, email: string)

  /** A signed access token stands for the claims it carries. */
  datatype JwtPayload = JwtPayload(sub: User, email: string)

  datatype AuthTokens = AuthTokens(access: JwtPayload, refresh: Token)

  datatype RotateResult = Pair(user: Account, tokens: AuthTokens) | InvalidToken | ReuseDetected | TokenExpired

  function SignAccessToken(user: Account): JwtPayload {
    JwtPayload(user.id, user.email)
  }

  class Service {
    const prisma: Database

    constructor (prisma: Database)
      ensures this.prisma == prisma
    {
      this.prisma := prisma;
    }

    /** A new session is a new family, whose only token is the one returned; both tokens are the user's. */
    method IssueForNewSession(user: Account) returns (tokens: AuthTokens)
      requires Valid(prisma.View())
      modifies prisma
      ensures prisma.View() == Apply(old(prisma.View()), Issue(user.id))
      ensures Valid(prisma.View()) && Live(prisma.View(), tokens.refresh, old(prisma.nextFamily))
      ensures prisma.lineage[old(prisma.nextFamily)] == [tokens.refresh]
      ensures prisma.rows[tokens.refresh]
           == Row(user.id, old(prisma.nextFamily), old(prisma.now) + prisma.ttl, None)
      ensures tokens.access == JwtPayload(user.id, user.email)
    {
      ApplyKeepsValid(prisma.View(), Issue(user.id));
      var familyId := prisma.nextFamily;
      prisma.nextFamily := familyId + 1;
      var refresh := prisma.CreateRow(user.id, familyId);
      tokens := AuthTokens(SignAccessToken(user), refresh);
    }

    /**
     The four outcomes, each with the exact condition that leads to it whatever others did in
     between, and what holds of the family when the call returns. `found` is what the lookup of the row's
     user answers.
     */
    method Rotate(rawToken: Token, found: Option<Account>, env: Interference) returns (result: RotateResult)
      requires Valid(prisma.View())
      requires var rows := Run(prisma.View(), env.beforeLookup).rows;
        found.Some? && rawToken in rows ==> found.value.id == rows[rawToken].user
      modifies prisma
      ensures Valid(prisma.View())
      ensures var seen := Run(old(prisma.View()), env.beforeLookup);
              var atClaim := Run(seen, env.beforeUser + env.beforeClaim);
              var ready := rawToken in seen.rows && seen.rows[rawToken].revokedAt.None?
                && seen.now < seen.rows[rawToken].expiresAt;
              && (result.InvalidToken? <==> rawToken !in seen.rows || (ready && found.None?))
              && (result.TokenExpired? <==> Claimable(seen, rawToken) && seen.rows[rawToken].expiresAt <= seen.now)
              && (result.Pair? <==> ready && found.Some? && Claimable(atClaim, rawToken))
              && (result.Pair? ==>
                    && prisma.View() == Apply(atClaim, Claim(rawToken))
                    && result.user == found.value && result.tokens.refresh in prisma.rows
                    && prisma.rows[result.tokens.refresh]
                       == Row(seen.rows[rawToken].user, seen.rows[rawToken].family, atClaim.now + prisma.ttl, None)
                    && result.tokens.access == JwtPayload(seen.rows[rawToken].user, found.value.email)
                    && Follows(prisma.View(), rawToken, result.tokens.refresh, seen.rows[rawToken].family)
                    && forall t: Token ::
                         Live(prisma.View(), t, seen.rows[rawToken].family) <==> t == result.tokens.refresh)
              && (result.TokenExpired? ==> prisma.View() == seen)
              && (result.InvalidToken? ==> prisma.View() == if ready then Run(seen, env.beforeUser) else seen)
              && (result.ReuseDetected? ==>
                    && rawToken in seen.rows
                    && Dead(prisma.View(), seen.rows[rawToken].family)
                    && prisma.View() == Apply(Run(if ready then atClaim else seen, env.beforeBurn),
                                              RevokeFamily(seen.rows[rawToken].family)))
    {
      prisma.Others(env.beforeLookup);
      RunKeepsValid(old(prisma.View()), env.beforeLookup);
      ghost var seen := prisma.View();
      if rawToken !in prisma.rows {
        return InvalidToken;
      }
      var existing := prisma.rows[rawToken];
      assert InFamily(seen, rawToken, existing.family);
      if existing.revokedAt.Some? {
        BurnAfter(existing.family, env.beforeBurn);
        return ReuseDetected;
      }
      if existing.expiresAt <= prisma.now {
        return TokenExpired;
      }

      prisma.Others(env.beforeUser);
      RunKeepsValid(seen, env.beforeUser);
      ghost var mid := prisma.View();
      if found.None? {
        return InvalidToken;
      }

      prisma.Others(env.beforeClaim);
      RunKeepsValid(mid, env.beforeClaim);
      RunConcat(seen, env.beforeUser, env.beforeClaim);
      ghost var atClaim := prisma.View();
      RowNeverMoves(seen, env.beforeUser + env.beforeClaim, rawToken);
      LineageGrows(seen, env.beforeUser + env.beforeClaim, existing.family);
      ApplyKeepsValid(atClaim, Claim(rawToken));
      var newRawToken := prisma.ClaimAndReissue(rawToken, existing);
      if newRawToken.None? {
        assert InFamily(prisma.View(), rawToken, existing.family);
        BurnAfter(existing.family, env.beforeBurn);
        return ReuseDetected;
      }
      ClaimReplacesTheLiveToken(atClaim, rawToken);
      return Pair(found.value, AuthTokens(SignAccessToken(found.value), newRawToken.value));
    }

    method BurnAfter(family: Family, others: seq<Op>)
      requires Valid(prisma.View()) && family in prisma.lineage
      modifies prisma
      ensures prisma.View() == Apply(Run(old(prisma.View()), others), RevokeFamily(family))
      ensures Valid(prisma.View()) && Dead(prisma.View(), family)
    {
      prisma.Others(others);
      RunKeepsValid(old(prisma.View()), others);
      LineageGrows(old(prisma.View()), others, family);
      ApplyKeepsValid(prisma.View(), RevokeFamily(family));
      prisma.RevokeAll(family);
    }

    /** Logout ends the whole family of the presented token; an unknown token changes nothing. */
    method RevokeByToken(rawToken: Token, env: Interference)
      requires Valid(prisma.View())
      modifies prisma
      ensures Valid(prisma.View())
      ensures var seen := Run(old(prisma.View()), env.beforeLookup);
              if rawToken in seen.rows then
                && Dead(prisma.View(), seen.rows[rawToken].family)
                && prisma.View() == Apply(Run(seen, env.beforeBurn), RevokeFamily(seen.rows[rawToken].family))
              else prisma.View() == seen
    {
      prisma.Others(env.beforeLookup);
      RunKeepsValid(old(prisma.View()), env.beforeLookup);
      if rawToken in prisma.rows {
        var existing := prisma.rows[rawToken];
        assert InFamily(prisma.View(), rawToken, existing.family);
        BurnAfter(existing.family, env.beforeBurn);
      }
    }
  }

  /** A row may be revoked or purged while a call waits, but never changes hands. */
  lemma {:induction false} RowNeverMoves(db: Db, ops: seq<Op>, token: Token)
    requires Valid(db) && token in db.rows
    ensures token in Run(db, ops).rows ==> SameRow(db.rows[token], Run(db, ops).rows[token])
    decreases |ops|
  {
    if ops != [] {
      var next := Apply(db, ops[0]);
      ApplyKeepsValid(db, ops[0]);
      assert InFamily(db, token, db.rows[token].family);
      if token in next.rows {
        RowNeverMoves(next, ops[1..], token);
      } else {
        StaysGone(next, ops[1..], token);
      }
    }
  }

  lemma {:induction false} StaysGone(db: Db, ops: seq<Op>, token: Token)
    requires Valid(db) && token !in db.rows && token < db.nextToken
    ensures token !in Run(db, ops).rows
    decreases |ops|
  {
    if ops != [] {
      ApplyKeepsValid(db, ops[0]);
      StaysGone(Apply(db, ops[0]), ops[1..], token);
    }
  }

  /** After a successful claim the family's one live token is the replacement. */
  lemma ClaimReplacesTheLiveToken(db: Db, token: Token)
    requires Valid(db) && Claimable(db, token)
    ensures var after := Apply(db, Claim(token));
            && Follows(after, token, db.nextToken, db.rows[token].family)
            && forall t: Token :: Live(after, t, db.rows[token].family) <==> t == db.nextToken
  {
    var after := Apply(db, Claim(token));
    var f := db.rows[token].family;
    assert Live(db, token, f);
    var last := |db.lineage[f]|;
    assert after.lineage[f] == db.lineage[f] + [db.nextToken];
    assert 0 < last < |after.lineage[f]| && after.lineage[f][last - 1] == token;
    assert after.lineage[f][last] == db.nextToken;
    forall t: Token | Live(after, t, f) ensures t == db.nextToken {
      if t != db.nextToken {
        assert Live(db, t, f);
      }
    }
  }
}
