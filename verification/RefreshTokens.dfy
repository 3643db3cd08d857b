/**
 Refresh-token families: issue, rotate, revoke. A token stands for its own hash (hashing is
 injective), fresh tokens and family ids are numbers never handed out before, and each
 operation is atomic. Instants are integer milliseconds, but for the expiry signed into a token,
 which is in whole seconds (section 4.1.4 of RFC 7519).
 */
module RefreshTokens {
  import opened Wrappers

  type Token = nat
  type Family = nat

  /** `signedUntil`, in seconds, is in the token and not in the table. */
  datatype Row = Row(userId: int, family: Family, signedUntil: int, expiresAt: int, revokedAt: Option<int>,
                     consumedAt: Option<int>)

  /**
   The making of a token: signed at `signedAt` for `signed` seconds, stored at `storedAt` for `stored`
   milliseconds. Both lifetimes are read from one setting, by two parsers.
   */
  datatype Mint = Mint(signedAt: int, storedAt: int, signed: nat, stored: nat)

  datatype Store = Store(rows: map<Token, Row>, nextToken: Token, nextFamily: Family)

  const EMPTY := Store(map[], 0, 0)

  predicate Live(r: Row) {
    r.revokedAt.None? && r.consumedAt.None?
  }

  /** The signature is accepted before the second it expires in. */
  predicate Verifies(r: Row, now: int) {
    now / 1000 < r.signedUntil
  }

  function Minted(userId: int, family: Family, m: Mint): Row {
    Row(userId, family, m.signedAt / 1000 + m.signed, m.storedAt + m.stored, None, None)
  }

  // ─── Specification of each operation ───────────────────────────────────────────────

  function Ended(r: Row, now: int): Row {
    r.(revokedAt := Some(now), consumedAt := Some(now))
  }

  function EndFamily(rows: map<Token, Row>, f: Family, now: int): map<Token, Row> {
    map t | t in rows :: if rows[t].family == f && rows[t].revokedAt.None? then Ended(rows[t], now) else rows[t]
  }

  function EndUser(rows: map<Token, Row>, userId: int, now: int): map<Token, Row> {
    map t | t in rows :: if rows[t].userId == userId && Live(rows[t]) then Ended(rows[t], now) else rows[t]
  }

  datatype Op =
    | Issue(userId: int, mint: Mint)
    | Rotate(token: Token, now: int, mint: Mint)
    | Revoke(token: Token, now: int)
    | RevokeAll(userId: int, now: int)

  /** A known, unrevoked token whose signature still stands. */
  predicate Presentable(s: Store, token: Token, now: int) {
    token in s.rows && s.rows[token].revokedAt.None? && Verifies(s.rows[token], now)
  }

  /** Such a token that was already used, or whose row's time is over. */
  predicate Replay(s: Store, token: Token, now: int) {
    Presentable(s, token, now) && (s.rows[token].expiresAt < now || s.rows[token].consumedAt.Some?)
  }

  predicate Rotates(s: Store, op: Op) {
    op.Rotate? && Presentable(s, op.token, op.now) && !Replay(s, op.token, op.now)
  }

  function Apply(s: Store, op: Op): Store {
    match op
    case Issue(u, mint) =>
      Store(s.rows[s.nextToken := Minted(u, s.nextFamily, mint)], s.nextToken + 1, s.nextFamily + 1)
    case Rotate(t, now, mint) =>
      if !Presentable(s, t, now) then s
      else
        var r := s.rows[t];
        if Replay(s, t, now) then s.(rows := EndFamily(s.rows, r.family, now))
        else
          s.(rows := s.rows[t := r.(consumedAt := Some(now))][s.nextToken := Minted(r.userId, r.family, mint)],
             nextToken := s.nextToken + 1)
    case Revoke(t, now) =>
      if t in s.rows && Live(s.rows[t]) then s.(rows := s.rows[t := Ended(s.rows[t], now)]) else s
    case RevokeAll(u, now) =>
      s.(rows := EndUser(s.rows, u, now))
  }

  function After(ops: seq<Op>): Store {
    if ops == [] then EMPTY else Apply(After(ops[..|ops| - 1]), ops[|ops| - 1])
  }

  // ─── The service ───────────────────────────────────────────────────────────────────

  class RefreshTokenService {
    var rows: map<Token, Row>
    var nextToken: Token
    var nextFamily: Family

    ghost function Abstract(): Store
      reads this
    {
      Store(rows, nextToken, nextFamily)
    }

    constructor ()
      ensures Abstract() == EMPTY
    {
      rows, nextToken, nextFamily := map[], 0, 0;
    }

    method IssueRefreshToken(userId: int, mint: Mint) returns (token: Token)
      modifies this
      ensures Abstract() == Apply(old(Abstract()), Issue(userId, mint))
      ensures token == old(nextToken)
    {
      token := nextToken;
      nextToken := nextToken + 1;
      var familyId := nextFamily;
      nextFamily := nextFamily + 1;
      rows := rows[token :=
                   Row(userId, familyId, mint.signedAt / 1000 + mint.signed, mint.storedAt + mint.stored, None, None)];
    }

    method RevokeFamily(family: Family, now: int)
      modifies this`rows
      ensures rows == EndFamily(old(rows), family, now)
    {
      rows := map t | t in rows ::
        var r := rows[t];
        if r.family == family && r.revokedAt.None? then r.(revokedAt := Some(now), consumedAt := Some(now)) else r;
    }

    /** A token that was never stored is refused whether its signature stands or not. */
    method RotateRefreshToken(oldToken: Token, now: int, mint: Mint) returns (newToken: Option<Token>)
      modifies this
      ensures Abstract() == Apply(old(Abstract()), Rotate(oldToken, now, mint))
      ensures newToken == if Rotates(old(Abstract()), Rotate(oldToken, now, mint)) then Some(old(nextToken)) else None
    {
      if oldToken !in rows || rows[oldToken].signedUntil <= now / 1000 {
        return None;
      }
      var record := rows[oldToken];
      if record.revokedAt.Some? {
        return None;
      }
      if record.expiresAt < now {
        RevokeFamily(record.family, now);
        return None;
      }
      if record.consumedAt.Some? {
        RevokeFamily(record.family, now);
        return None;
      }
      var minted := nextToken;
      nextToken := nextToken + 1;
      rows := rows[oldToken := record.(consumedAt := Some(now))];
      rows := rows[minted :=
                   Row(record.userId, record.family, mint.signedAt / 1000 + mint.signed, mint.storedAt + mint.stored,
                       None, None)];
      return Some(minted);
    }

    method RevokeRefreshToken(token: Token, now: int)
      modifies this`rows
      ensures Abstract() == Apply(old(Abstract()), Revoke(token, now))
    {
      if token in rows && rows[token].revokedAt.None? && rows[token].consumedAt.None? {
        rows := rows[token := rows[token].(revokedAt := Some(now), consumedAt := Some(now))];
      }
    }

    method RevokeAllUserTokens(userId: int, now: int)
      modifies this`rows
      ensures Abstract() == Apply(old(Abstract()), RevokeAll(userId, now))
    {
      rows := map t | t in rows ::
        var r := rows[t];
        if r.userId == userId && r.revokedAt.None? && r.consumedAt.None?
        then r.(revokedAt := Some(now), consumedAt := Some(now)) else r;
    }
  }

  // ─── What every operation keeps ────────────────────────────────────────────────────

  ghost predicate Numbered(s: Store) {
    forall t <- s.rows :: t < s.nextToken && s.rows[t].family < s.nextFamily
  }

  ghost predicate OneOwner(s: Store) {
    forall t <- s.rows, u <- s.rows :: s.rows[t].family == s.rows[u].family ==> s.rows[t].userId == s.rows[u].userId
  }

  ghost predicate OneLive(s: Store) {
    forall t <- s.rows, u <- s.rows ::
      s.rows[t].family == s.rows[u].family && Live(s.rows[t]) && Live(s.rows[u]) ==> t == u
  }

  ghost predicate Inv(s: Store) {
    Numbered(s) && OneOwner(s) && OneLive(s)
  }

  /** Rows only ever lose life and keep their family and owner, except the one row an operation adds. */
  lemma RowsKeep(s: Store, op: Op, t: Token)
    requires Numbered(s) && t in Apply(s, op).rows
    ensures t in s.rows ==>
              var r, r' := s.rows[t], Apply(s, op).rows[t];
              r'.family == r.family && r'.userId == r.userId && (Live(r') ==> Live(r))
              && r'.signedUntil == r.signedUntil && r'.expiresAt == r.expiresAt
    ensures t !in s.rows ==> t == s.nextToken && (op.Issue? || Rotates(s, op))
    ensures t !in s.rows && op.Issue? ==> Apply(s, op).rows[t].family == s.nextFamily
    ensures t !in s.rows && op.Rotate? ==>
              var r, r' := s.rows[op.token], Apply(s, op).rows[t];
              r'.family == r.family && r'.userId == r.userId && Live(r) && !Live(Apply(s, op).rows[op.token])
  {}

  lemma InvStep(s: Store, op: Op)
    requires Inv(s)
    ensures Inv(Apply(s, op))
  {
    var s' := Apply(s, op);
    forall t, u | t in s'.rows && u in s'.rows && s'.rows[t].family == s'.rows[u].family
      ensures s'.rows[t].userId == s'.rows[u].userId
      ensures Live(s'.rows[t]) && Live(s'.rows[u]) ==> t == u
    {
      RowsKeep(s, op, t);
      RowsKeep(s, op, u);
    }
  }

  lemma {:induction false} InvAlways(ops: seq<Op>)
    ensures Inv(After(ops))
  {
    if ops != [] {
      InvAlways(ops[..|ops| - 1]);
      InvStep(After(ops[..|ops| - 1]), ops[|ops| - 1]);
    }
  }

  /** In any run, a family has at most one live token. */
  lemma AtMostOneLive(ops: seq<Op>, t: Token, u: Token)
    requires var rows := After(ops).rows;
             t in rows && u in rows && rows[t].family == rows[u].family && Live(rows[t]) && Live(rows[u])
    ensures t == u
  {
    InvAlways(ops);
  }

  // ─── Families end for good ─────────────────────────────────────────────────────────

  /** No token of the family is live: it was never issued, or it is over. */
  ghost predicate Over(s: Store, f: Family) {
    f < s.nextFamily && forall t <- s.rows :: s.rows[t].family == f ==> !Live(s.rows[t])
  }

  lemma OverStep(s: Store, op: Op, f: Family)
    requires Inv(s) && Over(s, f)
    ensures Over(Apply(s, op), f)
  {}

  lemma {:induction false} OverForever(earlier: seq<Op>, later: seq<Op>, f: Family)
    requires Over(After(earlier), f)
    ensures Over(After(earlier + later), f)
    decreases |later|
  {
    if later == [] {
      assert earlier + later == earlier;
    } else {
      var n := |later| - 1;
      OverForever(earlier, later[..n], f);
      InvAlways(earlier + later[..n]);
      assert (earlier + later)[..|earlier| + n] == earlier + later[..n];
      OverStep(After(earlier + later[..n]), later[n], f);
    }
  }

  /** A family that is over refuses every rotation. */
  lemma OverRefuses(s: Store, op: Op)
    requires op.Rotate? && op.token in s.rows && Over(s, s.rows[op.token].family)
    ensures !Rotates(s, op)
  {}

  /**
   Presenting a used member, while its signature stands, ends its whole family at once and in every
   continuation; none of its tokens is ever rotated again.
   */
  lemma ReplayEndsFamily(ops: seq<Op>, token: Token, now: int, mint: Mint, later: seq<Op>)
    requires Replay(After(ops), token, now)
    ensures var f := After(ops).rows[token].family;
            var seen := Apply(After(ops), Rotate(token, now, mint));
            var after := After(ops + [Rotate(token, now, mint)] + later);
            && (forall t <- seen.rows :: seen.rows[t].family == f ==> seen.rows[t].revokedAt.Some?)
            && Over(after, f)
            && forall again: Op ::
                 again.Rotate? && again.token in after.rows && after.rows[again.token].family == f ==>
                   !Rotates(after, again)
  {
    var op := Rotate(token, now, mint);
    var f := After(ops).rows[token].family;
    assert (ops + [op])[..|ops|] == ops;
    InvAlways(ops);
    OverForever(ops + [op], later, f);
    var after := After(ops + [op] + later);
    forall again: Op | again.Rotate? && again.token in after.rows && after.rows[again.token].family == f
      ensures !Rotates(after, again)
    {
      OverRefuses(after, again);
    }
  }

  // ─── Two clocks ────────────────────────────────────────────────────────────────────

  /** The setting is read as no longer for the signature than for the row, which is stored after signing. */
  predicate InStep(m: Mint) {
    m.signedAt <= m.storedAt && 1000 * m.signed <= m.stored
  }

  predicate MintsInStep(op: Op) {
    op.Issue? || op.Rotate? ==> InStep(op.mint)
  }

  /** The signature expires no later than the row. */
  ghost predicate SignedWithin(s: Store) {
    forall t <- s.rows :: 1000 * s.rows[t].signedUntil <= s.rows[t].expiresAt
  }

  lemma SignedWithinStep(s: Store, op: Op)
    requires Numbered(s) && SignedWithin(s) && MintsInStep(op)
    ensures SignedWithin(Apply(s, op))
  {
    forall t | t in Apply(s, op).rows
      ensures 1000 * Apply(s, op).rows[t].signedUntil <= Apply(s, op).rows[t].expiresAt
    {
      RowsKeep(s, op, t);
    }
  }

  lemma {:induction false} SignedWithinAlways(ops: seq<Op>)
    requires forall op <- ops :: MintsInStep(op)
    ensures SignedWithin(After(ops))
  {
    if ops != [] {
      var n := |ops| - 1;
      assert ops[n] in ops && forall op <- ops[..n] :: op in ops;
      SignedWithinAlways(ops[..n]);
      InvAlways(ops[..n]);
      SignedWithinStep(After(ops[..n]), ops[n]);
    }
  }

  /**
   When a row's expiry can end a family, exactly: some instant finds the row past and the signature
   standing if and only if the signature outlasts the row by more than a millisecond.
   */
  lemma ExpiryEndsFamily(r: Row)
    ensures (exists now: int :: r.expiresAt < now && Verifies(r, now)) <==> r.expiresAt + 1 < 1000 * r.signedUntil
  {
    if r.expiresAt + 1 < 1000 * r.signedUntil {
      assert Verifies(r, r.expiresAt + 1);
    }
  }

  /**
   So while the setting is read in step, presenting an expired token changes nothing at all, used
   before or not; and a family ends for one reason only: a used member whose signature stands.
   */
  lemma ExpiredChangesNothing(ops: seq<Op>, token: Token, now: int, mint: Mint)
    requires forall op <- ops :: MintsInStep(op)
    requires token in After(ops).rows
    ensures var s, r := After(ops), After(ops).rows[token];
            && (r.expiresAt <= now ==> Apply(s, Rotate(token, now, mint)) == s && !Rotates(s, Rotate(token, now, mint)))
            && (Replay(s, token, now) <==> r.revokedAt.None? && r.consumedAt.Some? && Verifies(r, now))
  {
    SignedWithinAlways(ops);
  }

  /**
   What an operation may change: rotation its token's family, revocation its token, signing out
   everywhere that user's rows.
   */
  lemma OthersUntouched(s: Store, op: Op, t: Token)
    requires Numbered(s) && t in s.rows && Apply(s, op).rows[t] != s.rows[t]
    ensures s.rows[t].revokedAt.None?
    ensures match op
            case Issue(_, _) => false
            case Rotate(token, _, _) =>
              token in s.rows && s.rows[t].family == s.rows[token].family && (Rotates(s, op) ==> t == token)
            case Revoke(token, _) => t == token && Live(s.rows[t])
            case RevokeAll(userId, _) => s.rows[t].userId == userId && Live(s.rows[t])
  {}

  /** Signing out everywhere leaves the user no live token, and ends nobody else's. */
  lemma SignedOutEverywhere(s: Store, userId: int, now: int, t: Token)
    requires t in s.rows
    ensures var after := Apply(s, RevokeAll(userId, now)).rows;
            t in after && (Live(after[t]) <==> Live(s.rows[t]) && s.rows[t].userId != userId)
  {}

  /** A token that is handed out was never one before. */
  lemma FreshToken(s: Store, op: Op)
    requires Numbered(s) && (op.Issue? || Rotates(s, op))
    ensures var after := Apply(s, op);
            && s.nextToken !in s.rows && s.nextToken in after.rows && after.nextToken == s.nextToken + 1
            && after.rows.Keys == s.rows.Keys + {s.nextToken} && Live(after.rows[s.nextToken])
            && (op.Issue? ==> after.nextFamily == s.nextFamily + 1 && after.rows[s.nextToken].family == s.nextFamily)
  {}

  // ─── Sizes ─────────────────────────────────────────────────────────────────────────

  function Members(s: Store, f: Family): set<Token> {
    set t | t in s.rows && s.rows[t].family == f
  }

  /** Successful rotations within the family during a run. */
  function Rotations(ops: seq<Op>, f: Family): nat {
    if ops == [] then 0
    else
      var n := |ops| - 1;
      var s := After(ops[..n]);
      Rotations(ops[..n], f) + if Rotates(s, ops[n]) && s.rows[ops[n].token].family == f then 1 else 0
  }

  lemma MembersStep(s: Store, op: Op, f: Family)
    requires Inv(s)
    ensures var grown := Members(Apply(s, op), f);
            var joins := (op.Issue? && s.nextFamily == f) || (Rotates(s, op) && s.rows[op.token].family == f);
            grown == Members(s, f) + if joins then {s.nextToken} else {}
    ensures s.nextToken !in Members(s, f)
  {}

  /** A family is its first token and one more for every successful rotation. */
  lemma {:induction false} FamilySize(ops: seq<Op>, f: Family)
    ensures |Members(After(ops), f)| == Rotations(ops, f) + if f < After(ops).nextFamily then 1 else 0
  {
    if ops != [] {
      var n := |ops| - 1;
      FamilySize(ops[..n], f);
      InvAlways(ops[..n]);
      MembersStep(After(ops[..n]), ops[n], f);
    }
  }

  // ─── Agreement with what an operator is shown ──────────────────────────────────────

  datatype SessionState = Active | Revoked | Rotated | Expired

  function StateOf(r: Row, now: int): SessionState {
    if r.revokedAt.Some? then Revoked
    else if r.consumedAt.Some? then Rotated
    else if r.expiresAt <= now then Expired
    else Active
  }

  /**
   Rotation and console: rotation accepts what the console calls active and the signature still
   carries, and besides only a row at its very last instant, where the signature outlasts it.
   */
  lemma RotatesWhatIsActive(s: Store, op: Op)
    requires op.Rotate? && op.token in s.rows
    ensures var r := s.rows[op.token];
            Rotates(s, op) <==>
              Verifies(r, op.now) && (StateOf(r, op.now) == Active || (Live(r) && r.expiresAt == op.now))
  {}

  /** While the setting is read in step that last instant is never accepted, so the console's word is necessary. */
  lemma RotatesOnlyActive(ops: seq<Op>, token: Token, now: int, mint: Mint)
    requires forall op <- ops :: MintsInStep(op)
    requires token in After(ops).rows
    ensures var r := After(ops).rows[token];
            Rotates(After(ops), Rotate(token, now, mint)) <==> StateOf(r, now) == Active && Verifies(r, now)
  {
    SignedWithinAlways(ops);
  }

  /** A live row the console still calls active although rotation refuses it. */
  predicate ActiveButRefused(r: Row, now: int) {
    Live(r) && StateOf(r, now) == Active && !Verifies(r, now)
  }

  /**
   But it is not sufficient: a fresh token is refused while still shown as active during the last part
   of its row's life, exactly as long as the row's end lies behind the signature's, whole seconds
   rounded down. With one lifetime for both it never is only if the token was signed on a full
   second and stored in the same millisecond.
   */
  lemma ActiveToTheEnd(userId: int, family: Family, m: Mint)
    ensures var r := Minted(userId, family, m);
            && (forall now: int ::
                  ActiveButRefused(r, now) <==> 1000 * (m.signedAt / 1000 + m.signed) <= now < m.storedAt + m.stored)
            && (InStep(m) && m.stored == 1000 * m.signed ==>
                  ((forall now: int :: !ActiveButRefused(r, now))
                   <==> m.storedAt == m.signedAt && m.signedAt % 1000 == 0))
  {
    var r := Minted(userId, family, m);
    var end := 1000 * r.signedUntil;
    assert ActiveButRefused(r, end) <==> end < r.expiresAt;
  }
}
