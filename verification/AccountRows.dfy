/** What one call does to every single row of the account tables. */
module AccountRows {
  import opened Outcomes
  import opened Credentials
  import opened Lifecycle
  import opened AccountMoves
  import opened AccountSafety
  import Accounts
  import Sessions
  import OneTimeTokens

  // ---- Sessions ----------------------------------------------------------------------------

  /** Whose token `raw` is. */
  ghost predicate TokenOf(rows: OneTimeTokens.TokenTable, raw: string, now: int, user: Id) {
    exists t :: Redeemable(rows, t, raw, now) && rows[t].user == user
  }

  lemma OneOwner(rows: OneTimeTokens.TokenTable, issued: set<Digest>, t: Id, raw: string, now: int, user: Id)
    requires OneTimeTokens.OneEach(rows, issued) && Redeemable(rows, t, raw, now)
    ensures TokenOf(rows, raw, now, user) <==> rows[t].user == user
  {
  }

  /** A session row after a successful call: only signing out, changing the password,
      deleting the account, resetting the password and refreshing touch one. */
  ghost function SessionOutcome(db: Db, env: Env, c: Call, id: Id): Sessions.Session
    requires id in db.sessions
  {
    var row, ended := db.sessions[id], db.sessions[id].(revokedAt := Some(env.now));
    match c
    case CallLogout(session) => if id == session then ended else row
    case CallChangePassword(session, _, _) =>
      if session in db.sessions && row.user == db.sessions[session].user && id != session && row.revokedAt == None
      then ended else row
    case CallDeleteAccount(session, _) =>
      if session in db.sessions && row.user == db.sessions[session].user && row.revokedAt == None then ended else row
    case CallResetPassword(raw, _) =>
      if TokenOf(db.resets, raw, env.now, row.user) && row.revokedAt == None then ended else row
    case CallRefresh(raw, newRaw) =>
      if Presented(db.sessions, id, raw, env.now)
      then row.(tokenHash := Digest(newRaw), expiresAt := env.now + env.refreshLifetime) else row
    case _ => row
  }

  lemma SessionRows(db: Db, env: Env, c: Call, id: Id)
    requires Inv(db) && id in db.sessions
    ensures id in Next(db, env, c).sessions
    ensures Next(db, env, c).sessions[id]
            == if Answer(db, env, c).Ok? then SessionOutcome(db, env, c, id) else db.sessions[id]
  {
    if Answer(db, env, c).Ok? {
      var m := CallMoves(db, env, c);
      hide Next, Answer, Explained, SessionOutcome, Sessions.After;
      SessionEffect(db, env, c, m, id);
    }
  }

  lemma SessionEffect(db: Db, env: Env, c: Call, m: Moves, id: Id)
    requires Sessions.TokensApart(db.sessions, db.issued) && OneTimeTokens.OneEach(db.resets, db.issued)
    requires id in db.sessions && Explained(db, env, c, m)
    ensures
      var rows := Sessions.After(db.sessions, m.session, env.now);
      id in rows && (rows[id] == SessionOutcome(db, env, c, id) || (m.session.Issue? && m.session.id == id))
  {
    hide Explained, SessionOutcome, Sessions.After, Sessions.TokensApart, OneTimeTokens.OneEach;
    if c.CallResetPassword? {
      ResetEffect(db, env, c.raw, c.password, m, id);
    } else if c.CallRefresh? {
      RefreshEffect(db, env, c.raw, c.newRaw, m, id);
    } else if c.CallLogout? || c.CallChangePassword? || c.CallDeleteAccount? {
      EndingEffect(db, env, c, m, id);
    } else {
      OtherEffect(db, env, c, m, id);
    }
  }

  lemma ResetEffect(db: Db, env: Env, raw: string, password: string, m: Moves, id: Id)
    requires OneTimeTokens.OneEach(db.resets, db.issued)
    requires id in db.sessions && Explained(db, env, CallResetPassword(raw, password), m)
    ensures id in Sessions.After(db.sessions, m.session, env.now)
    ensures Sessions.After(db.sessions, m.session, env.now)[id]
            == SessionOutcome(db, env, CallResetPassword(raw, password), id)
  {
    hide OneTimeTokens.OneEach, Redeemable;
    OneOwner(db.resets, db.issued, m.reset.id, raw, env.now, db.sessions[id].user);
    hide TokenOf;
  }

  lemma RefreshEffect(db: Db, env: Env, raw: string, newRaw: string, m: Moves, id: Id)
    requires Sessions.TokensApart(db.sessions, db.issued)
    requires id in db.sessions && Explained(db, env, CallRefresh(raw, newRaw), m)
    ensures id in Sessions.After(db.sessions, m.session, env.now)
    ensures Sessions.After(db.sessions, m.session, env.now)[id] == SessionOutcome(db, env, CallRefresh(raw, newRaw), id)
  {
  }

  lemma EndingEffect(db: Db, env: Env, c: Call, m: Moves, id: Id)
    requires c.CallLogout? || c.CallChangePassword? || c.CallDeleteAccount?
    requires id in db.sessions && Explained(db, env, c, m)
    ensures id in Sessions.After(db.sessions, m.session, env.now)
    ensures Sessions.After(db.sessions, m.session, env.now)[id] == SessionOutcome(db, env, c, id)
  {
  }

  lemma OtherEffect(db: Db, env: Env, c: Call, m: Moves, id: Id)
    requires !c.CallResetPassword? && !c.CallRefresh?
    requires !c.CallLogout? && !c.CallChangePassword? && !c.CallDeleteAccount?
    requires id in db.sessions && Explained(db, env, c, m)
    ensures
      var rows := Sessions.After(db.sessions, m.session, env.now);
      id in rows && (rows[id] == SessionOutcome(db, env, c, id) || (m.session.Issue? && m.session.id == id))
  {
    assert m.session == Sessions.Unchanged || m.session.Issue?;
    hide Explained;
  }

  // ---- One-time tokens ------------------------------------------------------------------------

  /** A verification row after a successful call: a newer token of the user or its
      own redemption spends it. */
  ghost function VerificationOutcome(db: Db, env: Env, c: Call, id: Id): OneTimeTokens.Token
    requires id in db.verifications
  {
    var row, spent := db.verifications[id], db.verifications[id].(usedAt := Some(env.now));
    match c
    case CallRegister(_, _, _, _, _, g) => if row.user == g.user && row.usedAt == None then spent else row
    case CallResend(email, _, _) =>
      if Owns(db.users, row.user, email) && !db.users[row.user].emailVerified && row.usedAt == None then spent else row
    case CallVerifyEmail(raw) => if Redeemable(db.verifications, id, raw, env.now) then spent else row
    case _ => row
  }

  ghost function ResetOutcome(db: Db, env: Env, c: Call, id: Id): OneTimeTokens.Token
    requires id in db.resets
  {
    var row, spent := db.resets[id], db.resets[id].(usedAt := Some(env.now));
    match c
    case CallRequestReset(email, _, _) =>
      if Owns(db.users, row.user, email) && row.usedAt == None then spent else row
    case CallResetPassword(raw, _) => if Redeemable(db.resets, id, raw, env.now) then spent else row
    case _ => row
  }

  lemma VerificationRows(db: Db, env: Env, c: Call, id: Id)
    requires Inv(db) && id in db.verifications
    ensures id in Next(db, env, c).verifications
    ensures Next(db, env, c).verifications[id]
            == if Answer(db, env, c).Ok? then VerificationOutcome(db, env, c, id) else db.verifications[id]
  {
    if Answer(db, env, c).Ok? {
      var m := CallMoves(db, env, c);
      hide Next, Answer, Explained, VerificationOutcome, OneTimeTokens.After;
      VerificationEffect(db, env, c, m, id);
    }
  }

  lemma VerificationEffect(db: Db, env: Env, c: Call, m: Moves, id: Id)
    requires Accounts.Sound(db.users) && OneTimeTokens.OneEach(db.verifications, db.issued)
    requires id in db.verifications && Explained(db, env, c, m)
    ensures
      var rows := OneTimeTokens.After(db.verifications, m.verification, env.now);
      && id in rows
      && (rows[id] == VerificationOutcome(db, env, c, id) || (m.verification.Issue? && m.verification.id == id))
  {
    hide Accounts.Sound, OneTimeTokens.OneEach, VerificationOutcome, Explained;
    if c.CallResend? {
      ResendEffect(db, env, c.email, c.token, c.raw, m, id);
    } else if c.CallVerifyEmail? {
      VerifyTokenEffect(db, env, c.raw, m, id);
    } else {
      PlainVerificationEffect(db, env, c, m, id);
    }
  }

  lemma ResendEffect(db: Db, env: Env, email: string, token: Id, raw: string, m: Moves, id: Id)
    requires Accounts.Sound(db.users)
    requires id in db.verifications && Explained(db, env, CallResend(email, token, raw), m)
    ensures
      var rows := OneTimeTokens.After(db.verifications, m.verification, env.now);
      && id in rows
      && (rows[id] == VerificationOutcome(db, env, CallResend(email, token, raw), id)
          || (m.verification.Issue? && m.verification.id == id))
  {
  }

  lemma VerifyTokenEffect(db: Db, env: Env, raw: string, m: Moves, id: Id)
    requires OneTimeTokens.OneEach(db.verifications, db.issued)
    requires id in db.verifications && Explained(db, env, CallVerifyEmail(raw), m)
    ensures id in OneTimeTokens.After(db.verifications, m.verification, env.now)
    ensures OneTimeTokens.After(db.verifications, m.verification, env.now)[id]
            == VerificationOutcome(db, env, CallVerifyEmail(raw), id)
  {
  }

  lemma PlainVerificationEffect(db: Db, env: Env, c: Call, m: Moves, id: Id)
    requires !c.CallResend? && !c.CallVerifyEmail?
    requires id in db.verifications && Explained(db, env, c, m)
    ensures
      var rows := OneTimeTokens.After(db.verifications, m.verification, env.now);
      && id in rows
      && (rows[id] == VerificationOutcome(db, env, c, id) || (m.verification.Issue? && m.verification.id == id))
  {
    if !c.CallRegister? {
      assert m.verification == OneTimeTokens.Unchanged;
      hide Explained;
    }
  }

  lemma ResetRows(db: Db, env: Env, c: Call, id: Id)
    requires Inv(db) && id in db.resets
    ensures id in Next(db, env, c).resets
    ensures Next(db, env, c).resets[id]
            == if Answer(db, env, c).Ok? then ResetOutcome(db, env, c, id) else db.resets[id]
  {
    if Answer(db, env, c).Ok? {
      var m := CallMoves(db, env, c);
      hide Next, Answer, Explained, ResetOutcome, OneTimeTokens.After;
      ResetTokenEffect(db, env, c, m, id);
    }
  }

  lemma ResetTokenEffect(db: Db, env: Env, c: Call, m: Moves, id: Id)
    requires Accounts.Sound(db.users) && OneTimeTokens.OneEach(db.resets, db.issued)
    requires id in db.resets && Explained(db, env, c, m)
    ensures
      var rows := OneTimeTokens.After(db.resets, m.reset, env.now);
      id in rows && (rows[id] == ResetOutcome(db, env, c, id) || (m.reset.Issue? && m.reset.id == id))
  {
    if c.CallRequestReset? {
      hide OneTimeTokens.OneEach;
    } else if c.CallResetPassword? {
      assert Redeemable(db.resets, m.reset.id, c.raw, env.now);
      hide Explained, Accounts.Sound;
    } else {
      assert m.reset == OneTimeTokens.Unchanged;
      hide Explained, Accounts.Sound, OneTimeTokens.OneEach;
    }
  }

  // ---- Users ---------------------------------------------------------------------------------

  /** A user row after a successful call. */
  ghost function UserOutcome(db: Db, env: Env, c: Call, i: Id): Accounts.User
    requires i in db.users
  {
    var u := db.users[i];
    match c
    case CallGoogleLogin(sub, email, _, _, _, _, _, _) =>
      if NobodyLinked(db.users, sub) && Owns(db.users, i, email) then u.(googleSub := Some(sub)) else u
    case CallLinkGoogle(session, sub) => if Caller(db, session, i) then u.(googleSub := Some(sub)) else u
    case CallUnlinkGoogle(session) => if Caller(db, session, i) then u.(googleSub := None) else u
    case CallChangePassword(session, _, password) =>
      if Caller(db, session, i) then u.(password := Some(PasswordHash(password))) else u
    case CallSetPassword(session, password) =>
      if Caller(db, session, i) then u.(password := Some(PasswordHash(password))) else u
    case CallDeleteAccount(session, _) => if Caller(db, session, i) then u.(deleted := true) else u
    case CallVerifyEmail(raw) =>
      if !TokenOf(db.verifications, raw, env.now, i) then u
      else u.(emailVerified := true, status := if u.status == Accounts.Invited then Accounts.Enabled else u.status)
    case CallResetPassword(raw, password) =>
      if TokenOf(db.resets, raw, env.now, i) then u.(password := Some(PasswordHash(password))) else u
    case CallSetStatus(user, status) => if i == user then u.(status := status) else u
    case _ => u
  }

  predicate Caller(db: Db, session: Id, i: Id) { session in db.sessions && db.sessions[session].user == i }

  lemma UserRows(db: Db, env: Env, c: Call, i: Id)
    requires Inv(db) && i in db.users
    ensures i in Next(db, env, c).users
    ensures Next(db, env, c).users[i]
            == if Answer(db, env, c).Ok? then UserOutcome(db, env, c, i) else db.users[i]
  {
    if Answer(db, env, c).Ok? {
      var m := CallMoves(db, env, c);
      hide Next, Answer, Explained, UserOutcome;
      UserEffect(db, env, c, m, i);
    }
  }

  lemma UserEffect(db: Db, env: Env, c: Call, m: Moves, i: Id)
    requires Accounts.Sound(db.users) && OneTimeTokens.OneEach(db.verifications, db.issued)
    requires OneTimeTokens.OneEach(db.resets, db.issued)
    requires i in db.users && Explained(db, env, c, m)
    ensures
      var rows := Accounts.After(db.users, m.user);
      i in rows && rows[i] == UserOutcome(db, env, c, i)
  {
    hide OneTimeTokens.OneEach, Accounts.Sound, Explained, UserOutcome;
    if c.CallGoogleLogin? {
      GoogleEffect(db, env, c, m, i);
    } else if c.CallVerifyEmail? {
      VerifyUserEffect(db, env, c.raw, m, i);
    } else if c.CallResetPassword? {
      ResetUserEffect(db, env, c.raw, c.password, m, i);
    } else {
      PlainUserEffect(db, env, c, m, i);
    }
  }

  lemma VerifyUserEffect(db: Db, env: Env, raw: string, m: Moves, i: Id)
    requires OneTimeTokens.OneEach(db.verifications, db.issued)
    requires i in db.users && Explained(db, env, CallVerifyEmail(raw), m)
    ensures i in Accounts.After(db.users, m.user)
    ensures Accounts.After(db.users, m.user)[i] == UserOutcome(db, env, CallVerifyEmail(raw), i)
  {
    hide OneTimeTokens.OneEach, Redeemable;
    OneOwner(db.verifications, db.issued, m.verification.id, raw, env.now, i);
    hide TokenOf;
  }

  lemma ResetUserEffect(db: Db, env: Env, raw: string, password: string, m: Moves, i: Id)
    requires OneTimeTokens.OneEach(db.resets, db.issued)
    requires i in db.users && Explained(db, env, CallResetPassword(raw, password), m)
    ensures i in Accounts.After(db.users, m.user)
    ensures Accounts.After(db.users, m.user)[i] == UserOutcome(db, env, CallResetPassword(raw, password), i)
  {
    hide OneTimeTokens.OneEach, Redeemable;
    OneOwner(db.resets, db.issued, m.reset.id, raw, env.now, i);
    hide TokenOf;
  }

  lemma PlainUserEffect(db: Db, env: Env, c: Call, m: Moves, i: Id)
    requires !c.CallGoogleLogin? && !c.CallVerifyEmail? && !c.CallResetPassword?
    requires i in db.users && Explained(db, env, c, m)
    ensures i in Accounts.After(db.users, m.user)
    ensures Accounts.After(db.users, m.user)[i] == UserOutcome(db, env, c, i)
  {
    hide Owns, Redeemable, Presented;
  }

  lemma GoogleEffect(db: Db, env: Env, c: Call, m: Moves, i: Id)
    requires Accounts.Sound(db.users) && i in db.users && c.CallGoogleLogin? && Explained(db, env, c, m)
    ensures
      var rows := Accounts.After(db.users, m.user);
      i in rows && rows[i] == UserOutcome(db, env, c, i)
  {
    assert GoogleExplained(db.users, c.sub, c.email, c.displayName, c.user, m.user, m.session.user);
    hide Explained;
  }

  // ---- Nobody else ----------------------------------------------------------------------------

  /** The account a call acts for. */
  ghost predicate ActsFor(db: Db, env: Env, c: Call, user: Id) {
    match c
    case CallRegister(_, _, _, _, _, g) => user == g.user
    case CallLogin(email, _, _, _) => Owns(db.users, user, email)
    case CallGoogleLogin(sub, email, _, id, _, _, _, _) =>
      || (user in db.users && db.users[user].googleSub == Some(sub)) || Owns(db.users, user, email) || user == id
    case CallLinkGoogle(session, _) => Caller(db, session, user)
    case CallUnlinkGoogle(session) => Caller(db, session, user)
    case CallChangePassword(session, _, _) => Caller(db, session, user)
    case CallSetPassword(session, _) => Caller(db, session, user)
    case CallUpgrade(session, _) => Caller(db, session, user)
    case CallDeleteAccount(session, _) => Caller(db, session, user)
    case CallLogout(session) => Caller(db, session, user)
    case CallRefresh(raw, _) => exists id :: Presented(db.sessions, id, raw, env.now) && db.sessions[id].user == user
    case CallResend(email, _, _) => Owns(db.users, user, email)
    case CallVerifyEmail(raw) => TokenOf(db.verifications, raw, env.now, user)
    case CallRequestReset(email, _, _) => Owns(db.users, user, email)
    case CallResetPassword(raw, _) => TokenOf(db.resets, raw, env.now, user)
    case CallAddMember(_, _, _) => false
    case CallSetStatus(id, _) => user == id
  }

  /** No call changes a user, session, verification or reset row of any account
      but the one it acts for. */
  lemma OthersAreLeftAlone(db: Db, env: Env, c: Call, user: Id, id: Id)
    requires Inv(db) && !ActsFor(db, env, c, user)
    ensures user in db.users ==>
      user in Next(db, env, c).users && Next(db, env, c).users[user] == db.users[user]
    ensures id in db.sessions && db.sessions[id].user == user ==>
      id in Next(db, env, c).sessions && Next(db, env, c).sessions[id] == db.sessions[id]
    ensures id in db.verifications && db.verifications[id].user == user ==>
      id in Next(db, env, c).verifications && Next(db, env, c).verifications[id] == db.verifications[id]
    ensures id in db.resets && db.resets[id].user == user ==>
      id in Next(db, env, c).resets && Next(db, env, c).resets[id] == db.resets[id]
  {
    hide *;
    if user in db.users {
      UserRows(db, env, c, user);
      UserLeftAlone(db, env, c, user);
    }
    if id in db.sessions && db.sessions[id].user == user {
      SessionRows(db, env, c, id);
      SessionLeftAlone(db, env, c, id);
    }
    if id in db.verifications && db.verifications[id].user == user {
      VerificationRows(db, env, c, id);
      VerificationLeftAlone(db, env, c, id);
    }
    if id in db.resets && db.resets[id].user == user {
      ResetRows(db, env, c, id);
      ResetLeftAlone(db, env, c, id);
    }
  }

  lemma UserLeftAlone(db: Db, env: Env, c: Call, user: Id)
    requires user in db.users && !ActsFor(db, env, c, user)
    ensures UserOutcome(db, env, c, user) == db.users[user]
  {
    hide NobodyLinked, TokenOf;
  }

  lemma SessionLeftAlone(db: Db, env: Env, c: Call, id: Id)
    requires id in db.sessions && !ActsFor(db, env, c, db.sessions[id].user)
    ensures SessionOutcome(db, env, c, id) == db.sessions[id]
  {
    hide TokenOf;
  }

  lemma VerificationLeftAlone(db: Db, env: Env, c: Call, id: Id)
    requires id in db.verifications && !ActsFor(db, env, c, db.verifications[id].user)
    ensures VerificationOutcome(db, env, c, id) == db.verifications[id]
  {
  }

  lemma ResetLeftAlone(db: Db, env: Env, c: Call, id: Id)
    requires id in db.resets && !ActsFor(db, env, c, db.resets[id].user)
    ensures ResetOutcome(db, env, c, id) == db.resets[id]
  {
  }
}
