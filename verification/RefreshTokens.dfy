/** Refresh tokens under issue, rotation, revocation and reuse detection, a transaction
    at a time. A raw token is named by its hash, the column with the unique index. */
module RefreshTokens {
  import opened Sets

  type Id = nat
  type Hash = nat

  datatype Row = Row(userId: Id, expiresAt: int, revoked: bool)

  type Table = map<Hash, Row>

  datatype Result = Invalid | Expired | ReuseDetected(userId: Id) | Rotated(userId: Id, newToken: Hash)

  function Issued(t: Table, u: Id, token: Hash, expiresAt: int): Table { t[token := Row(u, expiresAt, false)] }

  function RevokedOne(t: Table, token: Hash): Table {
    if token in t then t[token := t[token].(revoked := true)] else t
  }

  function RevokedAll(t: Table, u: Id): Table {
    map h | h in t :: if t[h].userId == u then t[h].(revoked := true) else t[h]
  }

  function RotateResult(t: Table, token: Hash, newToken: Hash, now: int): Result {
    if token !in t then Invalid
    else if t[token].revoked then ReuseDetected(t[token].userId)
    else if t[token].expiresAt < now then Expired
    else Rotated(t[token].userId, newToken)
  }

  function AfterRotate(t: Table, token: Hash, newToken: Hash, now: int, ttl: int): Table {
    match RotateResult(t, token, newToken, now)
    case ReuseDetected(u) => RevokedAll(t, u)
    case Rotated(u, _) => Issued(RevokedOne(t, token), u, newToken, now + ttl)
    case _ => t
  }

  class TokenStore {
    const refreshTokenTtlMs: int
    var rows: Table

    constructor (refreshTokenTtlMs: int)
      ensures rows == map[] && this.refreshTokenTtlMs == refreshTokenTtlMs
    {
      this.refreshTokenTtlMs := refreshTokenTtlMs;
      rows := map[];
    }

    /** `token` is the hash of the fresh random bytes. */
    method IssueRefreshToken(u: Id, token: Hash, now: int)
      modifies this`rows
      ensures rows == Issued(old(rows), u, token, now + refreshTokenTtlMs)
    {
      rows := rows[token := Row(u, now + refreshTokenTtlMs, false)];
    }

    /** The transaction reports what happened and commits in every case, so that the
        revocations of a detected reuse survive the error that is thrown afterwards. */
    method RotateRefreshToken(token: Hash, newToken: Hash, now: int) returns (result: Result)
      modifies this`rows
      ensures result == RotateResult(old(rows), token, newToken, now)
      ensures rows == AfterRotate(old(rows), token, newToken, now, refreshTokenTtlMs)
    {
      if token !in rows { return Invalid; }
      var row := rows[token];
      if row.revoked {
        RevokeAllRefreshTokensForUser(row.userId);
        return ReuseDetected(row.userId);
      }
      if row.expiresAt < now { return Expired; }
      rows := rows[token := row.(revoked := true)];
      IssueRefreshToken(row.userId, newToken, now);
      return Rotated(row.userId, newToken);
    }

    /** Whose token it was, if it was known and live. */
    method RevokeRefreshToken(token: Hash) returns (known: bool, userId: Id)
      modifies this`rows
      ensures rows == RevokedOne(old(rows), token)
      ensures known == (token in old(rows) && !old(rows)[token].revoked)
      ensures known ==> userId == old(rows)[token].userId
    {
      if token !in rows || rows[token].revoked {
        assert token in rows ==> rows[token].(revoked := true) == rows[token];
        return false, 0;
      }
      userId := rows[token].userId;
      rows := rows[token := rows[token].(revoked := true)];
      return true, userId;
    }

    method RevokeAllRefreshTokensForUser(u: Id)
      modifies this`rows
      ensures rows == RevokedAll(old(rows), u)
    {
      rows := map h | h in rows :: if rows[h].userId == u && !rows[h].revoked then rows[h].(revoked := true) else rows[h];
    }
  }

  // -------------------------------------------------------------------- runs

  datatype Step =
    | Issue(userId: Id, token: Hash, now: int)
    | Rotate(token: Hash, newToken: Hash, now: int)
    | Revoke(token: Hash)
    | RevokeAll(userId: Id)

  /** New tokens are random: their hash has not been seen. */
  predicate IsFresh(t: Table, step: Step) {
    (step.Issue? ==> step.token !in t) && (step.Rotate? ==> step.newToken !in t && step.newToken != step.token)
  }

  function Next(t: Table, step: Step, ttl: int): Table {
    if !IsFresh(t, step) then t else
    match step
    case Issue(u, token, now) => Issued(t, u, token, now + ttl)
    case Rotate(token, newToken, now) => AfterRotate(t, token, newToken, now, ttl)
    case Revoke(token) => RevokedOne(t, token)
    case RevokeAll(u) => RevokedAll(t, u)
  }

  function Run(t: Table, steps: seq<Step>, ttl: int): Table {
    if steps == [] then t else Next(Run(t, steps[..|steps| - 1], ttl), steps[|steps| - 1], ttl)
  }

  /** A known token that is live and has not run out rotates: it is revoked, and a fresh one
      of its user that lives as long as any is there; nothing else changes. Presented again
      it revokes what its user has; an unknown or expired one changes nothing. */
  lemma RotateExactly(t: Table, token: Hash, newToken: Hash, now: int, ttl: int)
    requires newToken !in t && newToken != token
    ensures var r, u := RotateResult(t, token, newToken, now), AfterRotate(t, token, newToken, now, ttl);
      if token !in t then r == Invalid && u == t
      else if t[token].revoked then
        && r == ReuseDetected(t[token].userId) && u.Keys == t.Keys
        && forall h :: h in t ==> u[h] == if t[h].userId == t[token].userId then Row(t[h].userId, t[h].expiresAt, true) else t[h]
      else if now > t[token].expiresAt then r == Expired && u == t
      else
        && r == Rotated(t[token].userId, newToken) && u.Keys == t.Keys + {newToken}
        && u[newToken] == Row(t[token].userId, now + ttl, false)
        && u[token] == Row(t[token].userId, t[token].expiresAt, true)
        && forall h :: h in t && h != token ==> u[h] == t[h]
  {
  }

  lemma OthersExactly(t: Table, u: Id, token: Hash, now: int, ttl: int)
    requires token !in t
    ensures var i := Next(t, Issue(u, token, now), ttl);
      i.Keys == t.Keys + {token} && i[token] == Row(u, now + ttl, false) && forall h :: h in t ==> i[h] == t[h]
    ensures forall h: Hash :: var r := Next(t, Revoke(h), ttl);
      r.Keys == t.Keys && forall k :: k in t ==> r[k] == Row(t[k].userId, t[k].expiresAt, t[k].revoked || k == h)
    ensures var a := Next(t, RevokeAll(u), ttl);
      a.Keys == t.Keys && forall k :: k in t ==> a[k] == Row(t[k].userId, t[k].expiresAt, t[k].revoked || t[k].userId == u)
  {
  }

  predicate IsRevoked(t: Table, token: Hash) { token in t && t[token].revoked }

  function Live(t: Table, u: Id): set<Hash> { set h | h in t && t[h].userId == u && !t[h].revoked }

  predicate Succeeds(t: Table, step: Step, token: Hash) {
    step.Rotate? && step.token == token && IsFresh(t, step) && RotateResult(t, token, step.newToken, step.now).Rotated?
  }

  /** Revoked once is revoked for good, and still belongs to the same user. */
  lemma {:induction false} RevokedForever(t: Table, steps: seq<Step>, ttl: int, token: Hash)
    requires IsRevoked(t, token)
    ensures IsRevoked(Run(t, steps, ttl), token) && Run(t, steps, ttl)[token].userId == t[token].userId
  {
    if steps == [] {
    } else {
      RevokedForever(t, steps[..|steps| - 1], ttl, token);
    }
  }

  /** Presenting a revoked token, rotated or logged out, leaves its user with no live one. */
  lemma ReuseLeavesNone(t: Table, step: Step, ttl: int)
    requires step.Rotate? && IsRevoked(t, step.token) && IsFresh(t, step)
    ensures RotateResult(t, step.token, step.newToken, step.now) == ReuseDetected(t[step.token].userId)
    ensures Live(Next(t, step, ttl), t[step.token].userId) == {}
    ensures forall u :: u != t[step.token].userId ==> Live(Next(t, step, ttl), u) == Live(t, u)
  {
  }

  /** A raw token rotates successfully at most once in any run: presented again, however
      much later, it is reported as reused and its user is left without a live token. */
  lemma {:induction false} RotatesOnce(t: Table, first: Step, between: seq<Step>, again: Step, ttl: int, token: Hash)
    requires Succeeds(t, first, token) && again.Rotate? && again.token == token
    ensures var t' := Run(Next(t, first, ttl), between, ttl);
      && !Succeeds(t', again, token)
      && RotateResult(t', token, again.newToken, again.now) == ReuseDetected(t[token].userId)
      && (IsFresh(t', again) ==> Live(Next(t', again, ttl), t[token].userId) == {})
  {
    RevokedForever(Next(t, first, ttl), between, ttl, token);
  }

  /** A successful rotation trades one live token for another. */
  lemma RotationConserves(t: Table, step: Step, ttl: int, token: Hash)
    requires Succeeds(t, step, token)
    ensures var t', u := Next(t, step, ttl), t[token].userId;
      && Live(t', u) == Live(t, u) - {token} + {step.newToken}
      && |Live(t', u)| == |Live(t, u)|
  {
  }

  predicate Creates(step: Step, token: Hash) {
    (step.Issue? && step.token == token) || (step.Rotate? && step.newToken == token)
  }

  /** Every row was issued by a login or a rotation, and expires one lifetime later. */
  lemma {:induction false} RowIssued(steps: seq<Step>, ttl: int, token: Hash) returns (k: nat)
    requires token in Run(map[], steps, ttl)
    ensures k < |steps| && Creates(steps[k], token)
    ensures (steps[k].Issue? || steps[k].Rotate?) && Run(map[], steps, ttl)[token].expiresAt == steps[k].now + ttl
  {
    var n := |steps| - 1;
    var before := Run(map[], steps[..n], ttl);
    if token in before { k := RowIssued(steps[..n], ttl, token); } else { k := n; }
  }

  /** In any run a token rotates within one lifetime of its own issue only; each rotation
      starts a new lifetime for the token it gives out. */
  lemma RotatesWithinLifetime(steps: seq<Step>, step: Step, ttl: int, token: Hash) returns (k: nat)
    requires Succeeds(Run(map[], steps, ttl), step, token)
    ensures k < |steps| && Creates(steps[k], token)
    ensures (steps[k].Issue? || steps[k].Rotate?) && step.now <= steps[k].now + ttl
  {
    k := RowIssued(steps, ttl, token);
  }

  predicate Concerns(t: Table, step: Step, u: Id) {
    match step
    case Issue(v, _, _) => v == u
    case RevokeAll(v) => v == u
    case Rotate(token, _, _) => token in t && t[token].userId == u
    case Revoke(token) => token in t && t[token].userId == u
  }

  /** A step for one user leaves the others' live tokens alone. */
  lemma OthersUntouched(t: Table, step: Step, ttl: int, u: Id)
    requires !Concerns(t, step, u)
    ensures Live(Next(t, step, ttl), u) == Live(t, u)
  {
  }

  /** How often the user logged in. */
  function Logins(t: Table, steps: seq<Step>, ttl: int, u: Id): nat {
    if steps == [] then 0 else
    var last := steps[|steps| - 1];
    Logins(t, steps[..|steps| - 1], ttl, u) +
    if last.Issue? && last.userId == u && IsFresh(Run(t, steps[..|steps| - 1], ttl), last) then 1 else 0
  }

  lemma StepLive(t: Table, step: Step, ttl: int, u: Id)
    ensures |Live(Next(t, step, ttl), u)| <= |Live(t, u)| + if step.Issue? && step.userId == u && IsFresh(t, step) then 1 else 0
  {
    hide Live, Next, RotateResult;
    if !Concerns(t, step, u) {
      OthersUntouched(t, step, ttl, u);
    } else if step.Rotate? && Succeeds(t, step, step.token) {
      RotationConserves(t, step, ttl, step.token);
    } else if step.Issue? && IsFresh(t, step) {
      IssueLive(t, step, ttl, u);
    } else {
      NothingNew(t, step, ttl, u);
      SubsetSize(Live(Next(t, step, ttl), u), Live(t, u));
    }
  }

  lemma IssueLive(t: Table, step: Step, ttl: int, u: Id)
    requires step.Issue? && step.userId == u && IsFresh(t, step)
    ensures |Live(Next(t, step, ttl), u)| == |Live(t, u)| + 1
  {
    assert Live(Next(t, step, ttl), u) == Live(t, u) + {step.token};
    assert step.token !in Live(t, u);
  }

  lemma NothingNew(t: Table, step: Step, ttl: int, u: Id)
    requires !(step.Rotate? && Succeeds(t, step, step.token)) && !(step.Issue? && IsFresh(t, step))
    ensures Live(Next(t, step, ttl), u) <= Live(t, u)
  {
  }

  /** Rotation never multiplies sessions: a user has no more live tokens than logins. */
  lemma {:induction false} LiveWithinLogins(steps: seq<Step>, ttl: int, u: Id)
    ensures |Live(Run(map[], steps, ttl), u)| <= Logins(map[], steps, ttl, u)
  {
    hide Next, Live;
    if steps != [] {
      LiveWithinLogins(steps[..|steps| - 1], ttl, u);
      StepLive(Run(map[], steps[..|steps| - 1], ttl), steps[|steps| - 1], ttl, u);
    } else {
      NobodyLive(u);
    }
  }

  lemma NobodyLive(u: Id)
    ensures Live(map[], u) == {}
  {
  }
}
