/** Sessions: what the statements of SessionRepository do to the session table. */
module Sessions {
  import opened Outcomes
  import opened Credentials

  datatype Session = Session(user: Id, tokenHash: Digest, expiresAt: int, revokedAt: Option<int>)

  type SessionTable = map<Id, Session>

  predicate Active(s: Session, now: int) { s.revokedAt.None? && s.expiresAt > now }

  predicate IsActive(rows: SessionTable, id: Id, now: int) { id in rows && Active(rows[id], now) }

  function WithHash(rows: SessionTable, hash: Digest, now: int): set<Id> {
    set i | i in rows && rows[i].tokenHash == hash && Active(rows[i], now)
  }

  // ---- Changes -------------------------------------------------------------------------

  datatype Change =
    | Unchanged
    | Issue(id: Id, user: Id, hash: Digest, expiresAt: int)
    | Rotate(id: Id, hash: Digest, expiresAt: int)
    | Revoke(id: Id)
    | RevokeAll(user: Id)
    | RevokeOthers(user: Id, keep: Id)

  function Revoked(s: Session, now: int): Session { s.(revokedAt := Some(now)) }

  function After(rows: SessionTable, c: Change, now: int): SessionTable {
    match c
    case Unchanged => rows
    case Issue(id, user, hash, expiresAt) => rows[id := Session(user, hash, expiresAt, None)]
    case Rotate(id, hash, expiresAt) =>
      if id in rows then rows[id := rows[id].(tokenHash := hash, expiresAt := expiresAt)] else rows
    case Revoke(id) => if id in rows then rows[id := Revoked(rows[id], now)] else rows
    case RevokeAll(user) =>
      map i | i in rows ::
        if rows[i].user == user && rows[i].revokedAt.None? then Revoked(rows[i], now) else rows[i]
    case RevokeOthers(user, keep) =>
      map i | i in rows ::
        if rows[i].user == user && i != keep && rows[i].revokedAt.None? then Revoked(rows[i], now) else rows[i]
  }

  /** How AuthService reaches each statement: new rows and rotations carry a
      token never issued before, and only an active session is rotated. */
  predicate Legal(rows: SessionTable, issued: set<Digest>, c: Change, now: int) {
    match c
    case Issue(id, _, hash, _) => id !in rows && hash !in issued
    case Rotate(id, hash, _) => IsActive(rows, id, now) && hash !in issued
    case _ => true
  }

  function Hashes(c: Change): set<Digest> {
    match c
    case Issue(_, _, hash, _) => {hash}
    case Rotate(_, hash, _) => {hash}
    case _ => {}
  }

  class SessionRepository {
    var rows: SessionTable

    constructor ()
      ensures rows == map[]
    {
      rows := map[];
    }

    method GetActive(id: Id, now: int) returns (found: bool)
      ensures found <==> IsActive(rows, id, now)
    {
      found := id in rows && rows[id].revokedAt.None? && rows[id].expiresAt > now;
    }

    method GetActiveByTokenHash(hash: Digest, now: int) returns (r: Result<Option<Id>, AuthError>)
      ensures r == ScalarOneOrNone(WithHash(rows, hash, now))
    {
      r := Scalar(WithHash(rows, hash, now));
    }

    method Create(id: Id, user: Id, hash: Digest, expiresAt: int) returns (ok: bool)
      modifies this
      ensures ok <==> id !in old(rows)
      ensures rows == if ok then After(old(rows), Issue(id, user, hash, expiresAt), 0) else old(rows)
    {
      ok := id !in rows;
      if ok { rows := rows[id := Session(user, hash, expiresAt, None)]; }
    }

    method SetRevoked(id: Id, now: int)
      modifies this
      ensures rows == After(old(rows), Revoke(id), now)
    {
      if id in rows { rows := rows[id := rows[id].(revokedAt := Some(now))]; }
    }

    method RevokeAllForUser(user: Id, now: int)
      modifies this
      ensures rows == After(old(rows), RevokeAll(user), now)
    {
      rows := map i | i in rows ::
        if rows[i].user == user && rows[i].revokedAt.None? then rows[i].(revokedAt := Some(now)) else rows[i];
    }

    method RevokeAllForUserExcept(user: Id, keep: Id, now: int)
      modifies this
      ensures rows == After(old(rows), RevokeOthers(user, keep), now)
    {
      rows := map i | i in rows ::
        if rows[i].user == user && i != keep && rows[i].revokedAt.None?
        then rows[i].(revokedAt := Some(now)) else rows[i];
    }

    method SetToken(id: Id, hash: Digest, expiresAt: int, now: int)
      modifies this
      ensures rows == After(old(rows), Rotate(id, hash, expiresAt), now)
    {
      if id in rows { rows := rows[id := rows[id].(tokenHash := hash, expiresAt := expiresAt)]; }
    }
  }

  // ---- What every change keeps ------------------------------------------------------------

  /** Every stored hash was issued, and no two sessions share one. */
  ghost predicate TokensApart(rows: SessionTable, issued: set<Digest>) {
    && (forall i :: i in rows ==> rows[i].tokenHash in issued)
    && (forall i, j :: i in rows && j in rows && rows[i].tokenHash == rows[j].tokenHash ==> i == j)
  }

  lemma KeepsTokensApart(rows: SessionTable, issued: set<Digest>, c: Change, now: int, issued': set<Digest>)
    requires TokensApart(rows, issued) && Legal(rows, issued, c, now) && issued + Hashes(c) <= issued'
    ensures TokensApart(After(rows, c, now), issued')
  {
    var rows' := After(rows, c, now);
    assert forall i ::
      i in rows' ==> rows'[i].tokenHash in Hashes(c) || (i in rows && rows'[i].tokenHash == rows[i].tokenHash);
  }

  /** A presented token matches at most one session. */
  lemma LookupIsUnambiguous(rows: SessionTable, issued: set<Digest>, hash: Digest, now: int)
    requires TokensApart(rows, issued)
    ensures ScalarOneOrNone(WithHash(rows, hash, now)).Ok?
  {
    OneOrNone(WithHash(rows, hash, now));
  }

  /** Issued once, but no longer the token of any session. */
  ghost predicate Consumed(rows: SessionTable, issued: set<Digest>, hash: Digest) {
    hash in issued && forall i :: i in rows ==> rows[i].tokenHash != hash
  }

  lemma ConsumedStays(rows: SessionTable, issued: set<Digest>, c: Change, now: int, issued': set<Digest>, hash: Digest)
    requires Consumed(rows, issued, hash) && Legal(rows, issued, c, now) && issued <= issued'
    ensures Consumed(After(rows, c, now), issued', hash)
  {
    var rows' := After(rows, c, now);
    assert forall i ::
      i in rows' ==> rows'[i].tokenHash in Hashes(c) || (i in rows && rows'[i].tokenHash == rows[i].tokenHash);
  }

  /** Rotation consumes the token presented. */
  lemma RotationConsumes(rows: SessionTable, issued: set<Digest>, c: Change, now: int, issued': set<Digest>)
    requires TokensApart(rows, issued) && c.Rotate? && Legal(rows, issued, c, now) && issued <= issued'
    ensures Consumed(After(rows, c, now), issued', rows[c.id].tokenHash)
  {
  }

  /** Revoked or expired: no change brings the session back. */
  lemma InactiveStays(rows: SessionTable, issued: set<Digest>, c: Change, now: int, id: Id, later: int)
    requires Legal(rows, issued, c, now) && id in rows && !Active(rows[id], now) && now <= later
    ensures id in After(rows, c, now) && !Active(After(rows, c, now)[id], later)
  {
  }

  ghost predicate NoneActive(rows: SessionTable, user: Id, now: int) {
    forall i :: i in rows && rows[i].user == user ==> !Active(rows[i], now)
  }

  lemma RevokeAllEnds(rows: SessionTable, user: Id, now: int, later: int)
    ensures NoneActive(After(rows, RevokeAll(user), now), user, later)
  {
  }

  lemma RevokeOthersKeepsOne(rows: SessionTable, user: Id, keep: Id, now: int, later: int)
    ensures forall i :: i in After(rows, RevokeOthers(user, keep), now) && rows[i].user == user && i != keep
              ==> !Active(After(rows, RevokeOthers(user, keep), now)[i], later)
    ensures keep in rows ==> After(rows, RevokeOthers(user, keep), now)[keep] == rows[keep]
    ensures forall i :: i in rows && rows[i].user != user ==> After(rows, RevokeOthers(user, keep), now)[i] == rows[i]
  {
  }
}
