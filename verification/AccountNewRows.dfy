/** Which rows a call adds to the account tables, and what it answers. */
module AccountNewRows {
  import opened Outcomes
  import opened Credentials
  import opened Lifecycle
  import opened AccountMoves
  import opened AccountSafety
  import Accounts
  import Sessions
  import OneTimeTokens

  /** A session starts by signing in, for the account with the address or the
      Google identity, and carries the token handed out. */
  lemma NewSession(db: Db, env: Env, c: Call, id: Id)
    requires Inv(db) && id in Next(db, env, c).sessions && id !in db.sessions
    ensures c.CallLogin? || c.CallGoogleLogin?
    ensures
      var row, users := Next(db, env, c).sessions[id], Next(db, env, c).users;
      && id == c.session && row == Sessions.Session(row.user, Digest(c.raw), env.now + env.refreshLifetime, None)
      && (c.CallLogin? ==> Owns(db.users, row.user, c.email))
      && (c.CallGoogleLogin? ==>
            row.user in users && !users[row.user].deleted && users[row.user].googleSub == Some(c.sub))
  {
    assert Answer(db, env, c).Ok?;
    var m := CallMoves(db, env, c);
    hide Next, Answer, Inv, Explained;
    SessionAdded(db.sessions, m.session, env.now, id);
    hide Sessions.After, Sessions.Legal, OneTimeTokens.After, OneTimeTokens.Legal, NobodyLinked, NobodyHas;
    SessionOf(db, env, c, m);
  }

  lemma SessionAdded(rows: Sessions.SessionTable, c: Sessions.Change, now: int, id: Id)
    ensures id in Sessions.After(rows, c, now) && id !in rows ==>
      && c.Issue? && id == c.id
      && Sessions.After(rows, c, now)[id] == Sessions.Session(c.user, c.hash, c.expiresAt, None)
  {
  }

  lemma TokenAdded(rows: OneTimeTokens.TokenTable, c: OneTimeTokens.Change, now: int, id: Id)
    ensures id in OneTimeTokens.After(rows, c, now) && id !in rows ==>
      && c.Issue? && id == c.id
      && OneTimeTokens.After(rows, c, now)[id] == OneTimeTokens.Token(c.user, c.hash, c.expiresAt, None)
  {
  }

  lemma SessionOf(db: Db, env: Env, c: Call, m: Moves)
    requires Explained(db, env, c, m)
    ensures m.session.Issue? <==> c.CallLogin? || c.CallGoogleLogin?
    ensures m.session.Issue? ==>
      && m.session == Sessions.Issue(c.session, m.session.user, Digest(c.raw), env.now + env.refreshLifetime)
      && (c.CallLogin? ==> Owns(db.users, m.session.user, c.email))
      && (c.CallGoogleLogin? ==>
            GoogleExplained(db.users, c.sub, c.email, c.displayName, c.user, m.user, m.session.user))
  {
  }

  lemma SignInStartsSession(db: Db, env: Env, c: Call)
    requires Inv(db) && Answer(db, env, c).Ok? && (c.CallLogin? || c.CallGoogleLogin?)
    ensures c.session in Next(db, env, c).sessions && c.session !in db.sessions
  {
    hide Next, Answer, Explained;
    var m := CallMoves(db, env, c);
    SessionOf(db, env, c, m);
  }

  /** An account is made by registering, or by a first sign-in with Google that
      finds neither the identity nor the address. */
  lemma NewUser(db: Db, env: Env, c: Call, id: Id)
    requires Inv(db) && id in Next(db, env, c).users && id !in db.users
    ensures c.CallRegister? || c.CallGoogleLogin?
    ensures c.CallRegister? ==>
      && id == c.generated.user
      && Next(db, env, c).users[id]
         == Accounts.User(c.email, c.displayName, Accounts.Enabled, false, Some(PasswordHash(c.password)), None, false)
    ensures c.CallGoogleLogin? ==>
      && id == c.user && NobodyLinked(db.users, c.sub) && NobodyHas(db.users, c.email)
      && Next(db, env, c).users[id]
         == Accounts.User(c.email, c.displayName, Accounts.Enabled, true, None, Some(c.sub), false)
  {
    assert Answer(db, env, c).Ok?;
    hide Next, Answer, Explained, NobodyLinked, NobodyHas;
    var m := CallMoves(db, env, c);
    UserOf(db, env, c, m);
    if c.CallGoogleLogin? { SessionOf(db, env, c, m); }
  }

  lemma UserOf(db: Db, env: Env, c: Call, m: Moves)
    requires Explained(db, env, c, m)
    ensures m.user.Write? && m.user.id !in db.users ==> c.CallRegister? || c.CallGoogleLogin?
    ensures c.CallRegister? ==> c.generated.user !in db.users && m.user == Accounts.Write(c.generated.user,
      Accounts.User(c.email, c.displayName, Accounts.Enabled, false, Some(PasswordHash(c.password)), None, false))
  {
  }

  /** Conversely: whoever registers, and whoever comes through Google unknown, gets an account. */
  lemma AccountsAreMade(db: Db, env: Env, c: Call)
    requires Inv(db) && Answer(db, env, c).Ok?
    ensures c.CallRegister? ==> c.generated.user !in db.users && c.generated.user in Next(db, env, c).users
    ensures c.CallGoogleLogin? && NobodyLinked(db.users, c.sub) && NobodyHas(db.users, c.email) ==>
      c.user !in db.users && c.user in Next(db, env, c).users
  {
    hide Next, Answer, Explained;
    var m := CallMoves(db, env, c);
    if c.CallRegister? { UserOf(db, env, c, m); }
    if c.CallGoogleLogin? { SessionOf(db, env, c, m); }
  }

  /** A verification token is issued at registration, or when it is asked for and
      the address has an account that is not verified; it lasts a day. */
  lemma NewVerification(db: Db, env: Env, c: Call, id: Id)
    requires Inv(db) && id in Next(db, env, c).verifications && id !in db.verifications
    ensures c.CallRegister? || c.CallResend?
    ensures c.CallRegister? ==>
      && id == c.generated.token
      && Next(db, env, c).verifications[id]
         == OneTimeTokens.Token(c.generated.user, Digest(c.generated.raw), env.now + 86400, None)
    ensures c.CallResend? ==>
      var row := Next(db, env, c).verifications[id];
      && id == c.token && row == OneTimeTokens.Token(row.user, Digest(c.raw), env.now + 86400, None)
      && Owns(db.users, row.user, c.email) && !db.users[row.user].emailVerified
  {
    assert Answer(db, env, c).Ok?;
    hide Next, Answer, Explained;
    var m := CallMoves(db, env, c);
    TokenAdded(db.verifications, m.verification, env.now, id);
    hide Sessions.After, Sessions.Legal, OneTimeTokens.After, OneTimeTokens.Legal, Inv;
    VerificationOf(db, env, c, m);
  }

  lemma VerificationOf(db: Db, env: Env, c: Call, m: Moves)
    requires Explained(db, env, c, m)
    ensures m.verification.Issue? ==> c.CallRegister? || c.CallResend?
    ensures c.CallRegister? ==>
      var g := c.generated;
      m.verification == OneTimeTokens.Issue(g.token, g.user, Digest(g.raw), env.now + 86400)
    ensures c.CallResend? && m.verification.Issue? ==>
      && m.verification == OneTimeTokens.Issue(c.token, m.verification.user, Digest(c.raw), env.now + 86400)
      && Owns(db.users, m.verification.user, c.email) && !db.users[m.verification.user].emailVerified
    ensures c.CallResend? && !m.verification.Issue? ==>
      m == STILL && forall u :: Owns(db.users, u, c.email) ==> db.users[u].emailVerified
  {
    hide Owns;
  }

  lemma VerificationsAreIssued(db: Db, env: Env, c: Call)
    requires Inv(db) && Answer(db, env, c).Ok?
    ensures c.CallRegister? ==>
      c.generated.token !in db.verifications && c.generated.token in Next(db, env, c).verifications
    ensures c.CallResend? ==>
      if exists u :: Owns(db.users, u, c.email) && !db.users[u].emailVerified
      then c.token !in db.verifications && c.token in Next(db, env, c).verifications
      else Next(db, env, c).verifications == db.verifications
  {
    hide Next, Answer, Explained, Owns;
    var m := CallMoves(db, env, c);
    VerificationOf(db, env, c, m);
  }

  /** A reset token is issued when it is asked for a known address; it lasts an hour. */
  lemma NewReset(db: Db, env: Env, c: Call, id: Id)
    requires Inv(db) && id in Next(db, env, c).resets && id !in db.resets
    ensures c.CallRequestReset? && id == c.token
    ensures
      var row := Next(db, env, c).resets[id];
      && row == OneTimeTokens.Token(row.user, Digest(c.raw), env.now + 3600, None)
      && Owns(db.users, row.user, c.email)
  {
    assert Answer(db, env, c).Ok?;
    hide Next, Answer, Explained;
    var m := CallMoves(db, env, c);
    TokenAdded(db.resets, m.reset, env.now, id);
    hide Sessions.After, Sessions.Legal, OneTimeTokens.After, OneTimeTokens.Legal, Inv;
    ResetOf(db, env, c, m);
  }

  lemma ResetOf(db: Db, env: Env, c: Call, m: Moves)
    requires Explained(db, env, c, m)
    ensures m.reset.Issue? ==>
      && c.CallRequestReset? && Owns(db.users, m.reset.user, c.email)
      && m.reset == OneTimeTokens.Issue(c.token, m.reset.user, Digest(c.raw), env.now + 3600)
    ensures c.CallRequestReset? && !m.reset.Issue? ==> m == STILL && NobodyHas(db.users, c.email)
  {
    hide Owns;
  }

  lemma ResetsAreIssued(db: Db, env: Env, c: Call)
    requires Inv(db) && Answer(db, env, c).Ok? && c.CallRequestReset?
    ensures if exists u :: Owns(db.users, u, c.email)
      then c.token !in db.resets && c.token in Next(db, env, c).resets
      else Next(db, env, c).resets == db.resets
  {
    hide Next, Answer, Explained, Owns;
    var m := CallMoves(db, env, c);
    ResetOf(db, env, c, m);
  }
}
