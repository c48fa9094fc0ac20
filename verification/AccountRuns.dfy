/** What the account state machine promises along every run. */
module AccountRuns {
  import opened Outcomes
  import opened Credentials
  import opened Lifecycle
  import opened AccountMoves
  import opened AccountSafety
  import Accounts
  import Sessions
  import OneTimeTokens
  import Workspaces

  // ---- What the invariant says of a reachable state ------------------------------------------

  /** Addresses and Google identities belong to one live account each, every live
      account can sign in, and no address has two personal workspaces. */
  lemma AccountsStayDistinct(steps: seq<Step>, i: Id, j: Id)
    requires Accounts.Live(Run(EMPTY, steps).users, i) && Accounts.Live(Run(EMPTY, steps).users, j)
    ensures
      var users := Run(EMPTY, steps).users;
      && (users[i].email == users[j].email ==> i == j)
      && (users[i].googleSub.Some? && users[i].googleSub == users[j].googleSub ==> i == j)
      && Accounts.HasCredential(users[i])
  {
    ReachableIsSound(steps);
    hide Run, Accounts.HasCredential;
  }

  lemma OnePersonalWorkspace(steps: seq<Step>, k: nat, l: nat)
    requires k < |Run(EMPTY, steps).workspaces.members| && l < |Run(EMPTY, steps).workspaces.members|
    requires Workspaces.PersonalAt(Run(EMPTY, steps).workspaces, k)
      && Workspaces.PersonalAt(Run(EMPTY, steps).workspaces, l)
    ensures
      var ws := Run(EMPTY, steps).workspaces;
      && ws.members[k].owner
      && (ws.members[k].email == ws.members[l].email || ws.members[k].org == ws.members[l].org ==> k == l)
  {
    ReachableIsSound(steps);
    hide Run;
  }

  /** A user has at most one redeemable verification token and one redeemable reset token. */
  lemma OneRedeemableToken(steps: seq<Step>, i: Id, j: Id, now: int)
    ensures
      var rows := Run(EMPTY, steps).verifications;
      i in rows && j in rows && rows[i].user == rows[j].user && OneTimeTokens.Valid(rows[i], now)
        && OneTimeTokens.Valid(rows[j], now)
      ==> i == j
    ensures
      var rows := Run(EMPTY, steps).resets;
      i in rows && j in rows && rows[i].user == rows[j].user && OneTimeTokens.Valid(rows[i], now)
        && OneTimeTokens.Valid(rows[j], now)
      ==> i == j
  {
    ReachableIsSound(steps);
    hide Run;
  }

  // ---- Refresh tokens --------------------------------------------------------------------------

  lemma NextKeepsConsumed(db: Db, env: Env, c: Call, hash: Digest)
    requires Inv(db) && Sessions.Consumed(db.sessions, db.issued, hash)
    ensures Sessions.Consumed(Next(db, env, c).sessions, Next(db, env, c).issued, hash)
  {
    var m := CallMoves(db, env, c);
    hide Next;
    Sessions.ConsumedStays(db.sessions, db.issued, m.session, env.now, Next(db, env, c).issued, hash);
    hide Inv;
  }

  lemma {:induction false} RunKeepsConsumed(db: Db, steps: seq<Step>, hash: Digest)
    requires Inv(db) && Sessions.Consumed(db.sessions, db.issued, hash)
    ensures Sessions.Consumed(Run(db, steps).sessions, Run(db, steps).issued, hash)
    decreases |steps|
  {
    hide Inv, Next, Sessions.Consumed;
    if steps != [] {
      var before, last := steps[..|steps| - 1], steps[|steps| - 1];
      RunKeepsConsumed(db, before, hash);
      RunKeepsInv(db, before);
      NextKeepsConsumed(Run(db, before), last.env, last.call, hash);
    }
  }

  /** A refresh token that was used once is refused ever after. */
  lemma RefreshTokenWorksOnce(db: Db, env: Env, raw: string, newRaw: string, steps: seq<Step>, env': Env, other: string)
    requires Inv(db) && Refresh(db, env, raw, newRaw).Ok?
    ensures Refresh(Run(Refresh(db, env, raw, newRaw).value.0, steps), env', raw, other) == Err(InvalidToken)
  {
    var db1 := Refresh(db, env, raw, newRaw).value.0;
    var end := Run(db1, steps);
    RefreshConsumes(db, env, raw, newRaw);
    RunKeepsConsumed(db1, steps, Digest(raw));
    ConsumedIsNotFound(end.sessions, end.issued, Digest(raw), env'.now);
    hide Run, Inv, ScalarOneOrNone, Sessions.After;
  }

  lemma RefreshConsumes(db: Db, env: Env, raw: string, newRaw: string)
    requires Inv(db) && Refresh(db, env, raw, newRaw).Ok?
    ensures
      var db1 := Refresh(db, env, raw, newRaw).value.0;
      Inv(db1) && Sessions.Consumed(db1.sessions, db1.issued, Digest(raw))
  {
    RefreshKeepsInv(db, env, raw, newRaw);
    var db1 := Refresh(db, env, raw, newRaw).value.0;
    var m := RefreshMoves(db, env, raw, newRaw);
    hide Refresh, Sessions.Consumed, Sessions.After, OneTimeTokens.After;
    Sessions.RotationConsumes(db.sessions, db.issued, m.session, env.now, db1.issued);
  }

  lemma ConsumedIsNotFound(rows: Sessions.SessionTable, issued: set<Digest>, hash: Digest, now: int)
    requires Sessions.Consumed(rows, issued, hash)
    ensures ScalarOneOrNone(Sessions.WithHash(rows, hash, now)) == Ok(None)
  {
    assert Sessions.WithHash(rows, hash, now) == {};
  }

  // ---- Ended sessions ---------------------------------------------------------------------------

  lemma NextKeepsInactive(db: Db, env: Env, c: Call, id: Id, later: int)
    requires Inv(db) && id in db.sessions && !Sessions.Active(db.sessions[id], env.now) && env.now <= later
    ensures id in Next(db, env, c).sessions && !Sessions.Active(Next(db, env, c).sessions[id], later)
  {
    var m := CallMoves(db, env, c);
    hide Next;
    Sessions.InactiveStays(db.sessions, db.issued, m.session, env.now, id, later);
    hide Inv;
  }

  /** Revoked or expired is for good, as long as the clock does not go back. */
  lemma {:induction false} InactiveForever(db: Db, from: int, steps: seq<Step>, id: Id, later: int)
    requires Inv(db) && id in db.sessions && !Sessions.Active(db.sessions[id], from)
    requires InOrder(from, steps, later)
    ensures id in Run(db, steps).sessions && !Sessions.Active(Run(db, steps).sessions[id], later)
    decreases |steps|
  {
    hide Inv, Next;
    if steps != [] {
      var before, last := steps[..|steps| - 1], steps[|steps| - 1];
      InactiveForever(db, from, before, id, last.env.now);
      RunKeepsInv(db, before);
      NextKeepsInactive(Run(db, before), last.env, last.call, id, later);
    }
  }

  /** Sessions ended by a call stay ended along every later run. */
  lemma EndedStays(db: Db, env: Env, c: Call, steps: seq<Step>, id: Id, later: int)
    requires Inv(db) && InOrder(env.now, steps, later)
    requires id in Next(db, env, c).sessions && !Sessions.Active(Next(db, env, c).sessions[id], env.now)
    ensures
      var end := Run(Next(db, env, c), steps);
      id in end.sessions && !Sessions.Active(end.sessions[id], later)
  {
    hide *;
    NextKeepsInv(db, env, c);
    InactiveForever(Next(db, env, c), env.now, steps, id, later);
  }

  lemma ResetShape(db: Db, env: Env, raw: string, password: string, token: Id)
    requires Inv(db) && ResetPassword(db, env, raw, password).Ok? && token in db.resets
      && db.resets[token].hash == Digest(raw)
    ensures
      var db' := ResetPassword(db, env, raw, password).value.0;
      && Next(db, env, CallResetPassword(raw, password)) == db'
      && db'.sessions == Sessions.After(db.sessions, Sessions.RevokeAll(db.resets[token].user), env.now)
  {
    var m := ResetPasswordMoves(db, env, raw, password);
    hide ResetPassword, Sessions.After, OneTimeTokens.After, Accounts.After, Sessions.Legal, OneTimeTokens.Legal,
      Accounts.Legal;
  }

  /** After a reset every session the user had is over for good. */
  lemma ResetEndsSessions(db: Db, env: Env, raw: string, password: string, token: Id, id: Id, steps: seq<Step>,
                          later: int)
    requires Inv(db) && InOrder(env.now, steps, later)
    requires ResetPassword(db, env, raw, password).Ok?
    requires token in db.resets && db.resets[token].hash == Digest(raw)
    requires id in db.sessions && db.sessions[id].user == db.resets[token].user
    ensures
      var end := Run(ResetPassword(db, env, raw, password).value.0, steps);
      id in end.sessions && !Sessions.Active(end.sessions[id], later)
  {
    hide Run, InOrder, Inv, ResetPassword, Next, Sessions.Active;
    ResetShape(db, env, raw, password, token);
    Sessions.RevokeAllEnds(db.sessions, db.resets[token].user, env.now, env.now);
    EndedStays(db, env, CallResetPassword(raw, password), steps, id, later);
  }

  lemma DeletionShape(db: Db, env: Env, caller: Id, password: string)
    requires DeleteAccount(db, env, caller, password).Ok?
    ensures
      var db' := DeleteAccount(db, env, caller, password).value.0;
      && Next(db, env, CallDeleteAccount(caller, password)) == db'
      && caller in db.sessions
      && db'.sessions == Sessions.After(db.sessions, Sessions.RevokeAll(db.sessions[caller].user), env.now)
  {
    hide CurrentUser, Sessions.After, Workspaces.OwnsShared, Workspaces.OwnedOrgs, Workspaces.Removed;
  }

  /** After a deletion every session the user had is over for good. */
  lemma DeletionEndsSessions(db: Db, env: Env, caller: Id, password: string, id: Id, steps: seq<Step>, later: int)
    requires Inv(db) && InOrder(env.now, steps, later)
    requires DeleteAccount(db, env, caller, password).Ok?
    requires caller in db.sessions && id in db.sessions && db.sessions[id].user == db.sessions[caller].user
    ensures
      var end := Run(DeleteAccount(db, env, caller, password).value.0, steps);
      id in end.sessions && !Sessions.Active(end.sessions[id], later)
  {
    hide Run, InOrder, Inv, DeleteAccount, Next, Sessions.Active;
    DeletionShape(db, env, caller, password);
    Sessions.RevokeAllEnds(db.sessions, db.sessions[caller].user, env.now, env.now);
    EndedStays(db, env, CallDeleteAccount(caller, password), steps, id, later);
  }

  lemma ChangeShape(db: Db, env: Env, caller: Id, current: string, password: string)
    requires ChangePassword(db, env, caller, current, password).Ok?
    ensures
      var db' := ChangePassword(db, env, caller, current, password).value.0;
      && Next(db, env, CallChangePassword(caller, current, password)) == db'
      && caller in db.sessions
      && db'.sessions == Sessions.After(db.sessions, Sessions.RevokeOthers(db.sessions[caller].user, caller), env.now)
  {
    hide CurrentUser, Sessions.After;
  }

  /** After a password change every other session of the user is over for good,
      and the calling session is untouched. */
  lemma PasswordChangeEndsOthers(db: Db, env: Env, caller: Id, current: string, password: string, id: Id,
                                 steps: seq<Step>, later: int)
    requires Inv(db) && InOrder(env.now, steps, later)
    requires ChangePassword(db, env, caller, current, password).Ok?
    requires caller in db.sessions && id in db.sessions && db.sessions[id].user == db.sessions[caller].user
      && id != caller
    ensures
      var end := Run(ChangePassword(db, env, caller, current, password).value.0, steps);
      id in end.sessions && !Sessions.Active(end.sessions[id], later)
    ensures
      var rows := ChangePassword(db, env, caller, current, password).value.0.sessions;
      caller in rows && rows[caller] == db.sessions[caller]
  {
    hide Run, InOrder, Inv, ChangePassword, Next, Sessions.Active;
    ChangeShape(db, env, caller, current, password);
    Sessions.RevokeOthersKeepsOne(db.sessions, db.sessions[caller].user, caller, env.now, env.now);
    EndedStays(db, env, CallChangePassword(caller, current, password), steps, id, later);
  }

  lemma LogoutEndsSession(db: Db, env: Env, id: Id, steps: seq<Step>, later: int)
    requires Inv(db) && InOrder(env.now, steps, later)
    requires id in db.sessions
    ensures
      var end := Run(Logout(db, env, id).value.0, steps);
      id in end.sessions && !Sessions.Active(end.sessions[id], later)
  {
    hide Run, InOrder, Inv;
    var c := CallLogout(id);
    assert Answer(db, env, c) == Logout(db, env, id);
    EndedStays(db, env, c, steps, id, later);
  }

  // ---- Single-use tokens -------------------------------------------------------------------------

  lemma NextKeepsSpent(db: Db, env: Env, c: Call, hash: Digest)
    requires Inv(db)
    ensures OneTimeTokens.Spent(db.verifications, db.issued, hash) ==>
      OneTimeTokens.Spent(Next(db, env, c).verifications, Next(db, env, c).issued, hash)
    ensures OneTimeTokens.Spent(db.resets, db.issued, hash) ==>
      OneTimeTokens.Spent(Next(db, env, c).resets, Next(db, env, c).issued, hash)
  {
    var m := CallMoves(db, env, c);
    var db' := Next(db, env, c);
    hide Next, Inv, OneTimeTokens.Spent;
    if OneTimeTokens.Spent(db.verifications, db.issued, hash) {
      OneTimeTokens.SpentStays(db.verifications, db.issued, m.verification, env.now, db'.issued, hash);
    }
    if OneTimeTokens.Spent(db.resets, db.issued, hash) {
      OneTimeTokens.SpentStays(db.resets, db.issued, m.reset, env.now, db'.issued, hash);
    }
  }

  lemma {:induction false} RunKeepsSpent(db: Db, steps: seq<Step>, hash: Digest)
    requires Inv(db)
    ensures OneTimeTokens.Spent(db.verifications, db.issued, hash) ==>
      OneTimeTokens.Spent(Run(db, steps).verifications, Run(db, steps).issued, hash)
    ensures OneTimeTokens.Spent(db.resets, db.issued, hash) ==>
      OneTimeTokens.Spent(Run(db, steps).resets, Run(db, steps).issued, hash)
    decreases |steps|
  {
    hide Inv, Next, OneTimeTokens.Spent;
    if steps != [] {
      var before, last := steps[..|steps| - 1], steps[|steps| - 1];
      RunKeepsSpent(db, before, hash);
      RunKeepsInv(db, before);
      NextKeepsSpent(Run(db, before), last.env, last.call, hash);
    }
  }

  lemma SpentIsNotFound(rows: OneTimeTokens.TokenTable, issued: set<Digest>, hash: Digest, now: int)
    requires OneTimeTokens.Spent(rows, issued, hash)
    ensures ScalarOneOrNone(OneTimeTokens.WithHash(rows, hash, now)) == Ok(None)
  {
    assert OneTimeTokens.WithHash(rows, hash, now) == {};
  }

  /** A verification link works once. */
  lemma VerificationWorksOnce(db: Db, env: Env, raw: string, steps: seq<Step>, env': Env)
    requires Inv(db) && VerifyEmail(db, env, raw).Ok?
    ensures VerifyEmail(Run(VerifyEmail(db, env, raw).value.0, steps), env', raw) == Err(InvalidToken)
  {
    var db1 := VerifyEmail(db, env, raw).value.0;
    var end := Run(db1, steps);
    VerifyEmailSpends(db, env, raw);
    RunKeepsSpent(db1, steps, Digest(raw));
    SpentIsNotFound(end.verifications, end.issued, Digest(raw), env'.now);
    hide Run, Inv, ScalarOneOrNone, OneTimeTokens.After, Sessions.After;
  }

  lemma VerifyEmailSpends(db: Db, env: Env, raw: string)
    requires Inv(db) && VerifyEmail(db, env, raw).Ok?
    ensures
      var db1 := VerifyEmail(db, env, raw).value.0;
      Inv(db1) && OneTimeTokens.Spent(db1.verifications, db1.issued, Digest(raw))
  {
    VerifyKeepsInv(db, env, raw);
    var db1 := VerifyEmail(db, env, raw).value.0;
    var m := VerifyEmailMoves(db, env, raw);
    hide VerifyEmail, OneTimeTokens.Spent, Sessions.After, OneTimeTokens.After;
    OneTimeTokens.RedemptionSpends(db.verifications, db.issued, m.verification, env.now, db1.issued);
  }

  /** A reset link works once. */
  lemma ResetWorksOnce(db: Db, env: Env, raw: string, password: string, steps: seq<Step>, env': Env, other: string)
    requires Inv(db) && ResetPassword(db, env, raw, password).Ok?
    ensures ResetPassword(Run(ResetPassword(db, env, raw, password).value.0, steps), env', raw, other)
      == Err(InvalidToken)
  {
    var db1 := ResetPassword(db, env, raw, password).value.0;
    var end := Run(db1, steps);
    ResetPasswordSpends(db, env, raw, password);
    RunKeepsSpent(db1, steps, Digest(raw));
    SpentIsNotFound(end.resets, end.issued, Digest(raw), env'.now);
    hide Run, Inv, ScalarOneOrNone, OneTimeTokens.After, Sessions.After;
  }

  lemma ResetPasswordSpends(db: Db, env: Env, raw: string, password: string)
    requires Inv(db) && ResetPassword(db, env, raw, password).Ok?
    ensures
      var db1 := ResetPassword(db, env, raw, password).value.0;
      Inv(db1) && OneTimeTokens.Spent(db1.resets, db1.issued, Digest(raw))
  {
    ResetKeepsInv(db, env, raw, password);
    var db1 := ResetPassword(db, env, raw, password).value.0;
    var m := ResetPasswordMoves(db, env, raw, password);
    hide ResetPassword, OneTimeTokens.Spent, Sessions.After, OneTimeTokens.After;
    OneTimeTokens.RedemptionSpends(db.resets, db.issued, m.reset, env.now, db1.issued);
  }
}
