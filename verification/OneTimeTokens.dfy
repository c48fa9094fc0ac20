/** Verification and password-reset tokens: single-use tokens of which only the
    newest is redeemable. */
module OneTimeTokens {
  import opened Outcomes
  import opened Credentials

  datatype Token = Token(user: Id, hash: Digest, expiresAt: int, usedAt: Option<int>)

  type TokenTable = map<Id, Token>

  predicate Unused(t: Token) { t.usedAt.None? }

  predicate Valid(t: Token, now: int) { Unused(t) && t.expiresAt > now }

  function WithHash(rows: TokenTable, hash: Digest, now: int): set<Id> {
    set i | i in rows && rows[i].hash == hash && Valid(rows[i], now)
  }

  /** Issue invalidates what the user still has before it inserts. */
  datatype Change = Unchanged | Issue(id: Id, user: Id, hash: Digest, expiresAt: int) | Redeem(id: Id)

  function Invalidated(rows: TokenTable, user: Id, now: int): TokenTable {
    map i | i in rows ::
      if rows[i].user == user && rows[i].usedAt.None? then rows[i].(usedAt := Some(now)) else rows[i]
  }

  function After(rows: TokenTable, c: Change, now: int): TokenTable {
    match c
    case Unchanged => rows
    case Issue(id, user, hash, expiresAt) => Invalidated(rows, user, now)[id := Token(user, hash, expiresAt, None)]
    case Redeem(id) => if id in rows then rows[id := rows[id].(usedAt := Some(now))] else rows
  }

  /** How AuthService reaches each: fresh rows and tokens, and only a valid token is redeemed. */
  predicate Legal(rows: TokenTable, issued: set<Digest>, c: Change, now: int) {
    match c
    case Unchanged => true
    case Issue(id, _, hash, _) => id !in rows && hash !in issued
    case Redeem(id) => id in rows && Valid(rows[id], now)
  }

  function Hashes(c: Change): set<Digest> { if c.Issue? then {c.hash} else {} }

  class TokenRepository {
    var rows: TokenTable

    constructor ()
      ensures rows == map[]
    {
      rows := map[];
    }

    method GetValidByHash(hash: Digest, now: int) returns (r: Result<Option<Id>, AuthError>)
      ensures r == ScalarOneOrNone(WithHash(rows, hash, now))
    {
      r := Scalar(WithHash(rows, hash, now));
    }

    method InvalidateForUser(user: Id, now: int)
      modifies this
      ensures rows == Invalidated(old(rows), user, now)
    {
      rows := map i | i in rows ::
        if rows[i].user == user && rows[i].usedAt.None? then rows[i].(usedAt := Some(now)) else rows[i];
    }

    method Create(id: Id, user: Id, hash: Digest, expiresAt: int) returns (ok: bool)
      modifies this
      ensures ok <==> id !in old(rows)
      ensures rows == if ok then old(rows)[id := Token(user, hash, expiresAt, None)] else old(rows)
    {
      ok := id !in rows;
      if ok { rows := rows[id := Token(user, hash, expiresAt, None)]; }
    }

    method MarkUsed(id: Id, now: int)
      modifies this
      ensures rows == After(old(rows), Redeem(id), now)
    {
      if id in rows { rows := rows[id := rows[id].(usedAt := Some(now))]; }
    }
  }

  // ---- What every change keeps --------------------------------------------------------

  /** Every hash was issued, no two rows share one, and a user has at most one unused token. */
  ghost predicate OneEach(rows: TokenTable, issued: set<Digest>) {
    && (forall i :: i in rows ==> rows[i].hash in issued)
    && (forall i, j :: i in rows && j in rows && rows[i].hash == rows[j].hash ==> i == j)
    && (forall i, j ::
        i in rows && j in rows && rows[i].user == rows[j].user && Unused(rows[i]) && Unused(rows[j]) ==> i == j)
  }

  lemma KeepsOneEach(rows: TokenTable, issued: set<Digest>, c: Change, now: int, issued': set<Digest>)
    requires OneEach(rows, issued) && Legal(rows, issued, c, now) && issued + Hashes(c) <= issued'
    ensures OneEach(After(rows, c, now), issued')
  {
    var rows' := After(rows, c, now);
    forall i | i in rows' && !(c.Issue? && i == c.id)
      ensures i in rows && rows'[i].hash == rows[i].hash && rows'[i].user == rows[i].user
      ensures Unused(rows'[i]) ==> Unused(rows[i]) && (c.Issue? ==> rows[i].user != c.user)
    {
    }
  }

  lemma LookupIsUnambiguous(rows: TokenTable, issued: set<Digest>, hash: Digest, now: int)
    requires OneEach(rows, issued)
    ensures ScalarOneOrNone(WithHash(rows, hash, now)).Ok?
  {
    OneOrNone(WithHash(rows, hash, now));
  }

  /** Issued, and every row that carries it has been used or invalidated. */
  ghost predicate Spent(rows: TokenTable, issued: set<Digest>, hash: Digest) {
    hash in issued && forall i :: i in rows && rows[i].hash == hash ==> !Unused(rows[i])
  }

  lemma SpentStays(rows: TokenTable, issued: set<Digest>, c: Change, now: int, issued': set<Digest>, hash: Digest)
    requires Spent(rows, issued, hash) && Legal(rows, issued, c, now) && issued <= issued'
    ensures Spent(After(rows, c, now), issued', hash)
  {
    var rows' := After(rows, c, now);
    forall i | i in rows' && rows'[i].hash == hash ensures !Unused(rows'[i]) {
      assert i in rows && rows[i].hash == hash && !Unused(rows[i]);
    }
  }

  lemma RedemptionSpends(rows: TokenTable, issued: set<Digest>, c: Change, now: int, issued': set<Digest>)
    requires OneEach(rows, issued) && c.Redeem? && Legal(rows, issued, c, now) && issued <= issued'
    ensures Spent(After(rows, c, now), issued', rows[c.id].hash)
  {
  }

  /** A new token leaves every earlier token of the user spent. */
  lemma IssueSpendsOlder(rows: TokenTable, issued: set<Digest>, c: Change, now: int, issued': set<Digest>, id: Id)
    requires OneEach(rows, issued) && c.Issue? && Legal(rows, issued, c, now) && issued <= issued'
    requires id in rows && rows[id].user == c.user
    ensures Spent(After(rows, c, now), issued', rows[id].hash)
  {
    var rows' := After(rows, c, now);
    assert forall i :: i in rows' && rows'[i].hash == rows[id].hash ==> i == id;
  }
}
