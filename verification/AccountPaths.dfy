/** How calls fit together: the ways into an account that must work. */
module AccountPaths {
  import opened Outcomes
  import opened Credentials
  import opened Lifecycle
  import opened AccountMoves
  import opened AccountSafety
  import AccountRuns
  import Accounts
  import Sessions
  import OneTimeTokens
  import Workspaces

  // ---- No lookup finds two rows --------------------------------------------------------------

  ghost predicate LookupsWork(db: Db) {
    && (forall email :: ScalarOneOrNone(Accounts.WithEmail(db.users, email)).Ok?)
    && (forall sub :: ScalarOneOrNone(Accounts.WithSub(db.users, sub)).Ok?)
    && (forall h, now :: ScalarOneOrNone(Sessions.WithHash(db.sessions, h, now)).Ok?)
    && (forall h, now :: ScalarOneOrNone(OneTimeTokens.WithHash(db.verifications, h, now)).Ok?)
    && (forall h, now :: ScalarOneOrNone(OneTimeTokens.WithHash(db.resets, h, now)).Ok?)
  }

  lemma LookupsDoWork(db: Db)
    requires Inv(db)
    ensures LookupsWork(db)
  {
    hide ScalarOneOrNone, Accounts.WithEmail, Accounts.WithSub, Sessions.WithHash, OneTimeTokens.WithHash,
      Accounts.Sound, Sessions.TokensApart, OneTimeTokens.OneEach;
    forall x: string
      ensures ScalarOneOrNone(Accounts.WithEmail(db.users, x)).Ok? && ScalarOneOrNone(Accounts.WithSub(db.users, x)).Ok?
    {
      Accounts.LookupsAreUnambiguous(db.users, x, x);
    }
    forall h, now
      ensures ScalarOneOrNone(Sessions.WithHash(db.sessions, h, now)).Ok?
      ensures ScalarOneOrNone(OneTimeTokens.WithHash(db.verifications, h, now)).Ok?
      ensures ScalarOneOrNone(OneTimeTokens.WithHash(db.resets, h, now)).Ok?
    {
      Sessions.LookupIsUnambiguous(db.sessions, db.issued, h, now);
      OneTimeTokens.LookupIsUnambiguous(db.verifications, db.issued, h, now);
      OneTimeTokens.LookupIsUnambiguous(db.resets, db.issued, h, now);
    }
  }

  lemma LoginsAreUnambiguous(db: Db, env: Env, c: Call)
    requires LookupsWork(db) && (c.CallRegister? || c.CallLogin? || c.CallGoogleLogin?)
    ensures Answer(db, env, c) != Err(MultipleResults)
  {
    hide ScalarOneOrNone, Accounts.WithEmail, Accounts.WithSub, Sessions.After, OneTimeTokens.After,
      Workspaces.SlugFor, Workspaces.SlugFits, Workspaces.Founded, Workspaces.Linked, NameOr, Accounts.Fits;
  }

  lemma OthersAreUnambiguous(db: Db, env: Env, c: Call)
    requires LookupsWork(db) && !c.CallRegister? && !c.CallLogin? && !c.CallGoogleLogin?
    ensures Answer(db, env, c) != Err(MultipleResults)
  {
    hide ScalarOneOrNone, Accounts.WithEmail, Accounts.WithSub, Sessions.WithHash, OneTimeTokens.WithHash,
      Sessions.After, OneTimeTokens.After, Workspaces.Removed, Workspaces.OwnsShared, Workspaces.OwnedOrgs,
      Workspaces.PersonalOf, Workspaces.IsMember, NameOr, Accounts.Fits, Accounts.Live, Sessions.IsActive;
  }

  /** scalar_one_or_none never raises in a reachable state. */
  lemma NoCallIsAmbiguous(db: Db, env: Env, c: Call)
    requires Inv(db)
    ensures Answer(db, env, c) != Err(MultipleResults)
  {
    hide *;
    LookupsDoWork(db);
    if c.CallRegister? || c.CallLogin? || c.CallGoogleLogin? {
      LoginsAreUnambiguous(db, env, c);
    } else {
      OthersAreUnambiguous(db, env, c);
    }
  }

  // ---- From registration to the first session ---------------------------------------------------

  lemma FoundUser(rows: Accounts.UserTable, user: Id)
    requires Accounts.Sound(rows) && Accounts.Live(rows, user)
    ensures ScalarOneOrNone(Accounts.WithEmail(rows, rows[user].email)) == Ok(Some(user))
  {
    OneOrNone(Accounts.WithEmail(rows, rows[user].email));
    assert Accounts.WithEmail(rows, rows[user].email) == {user};
  }

  /** The right password of a verified, enabled account opens a session. */
  lemma RightPasswordLogsIn(db: Db, env: Env, user: Id, password: string, session: Id, raw: string)
    requires Inv(db) && Accounts.Live(db.users, user)
    requires session !in db.sessions && Digest(raw) !in db.issued
    ensures
      var u := db.users[user];
      var started := Sessions.Session(user, Digest(raw), env.now + env.refreshLifetime, None);
      var r := Login(db, env, u.email, password, session, raw);
      && (r.Ok? <==> u.password == Some(PasswordHash(password)) && u.status != Accounts.Disabled && u.emailVerified)
      && (r.Ok? ==> r.value.1 == TokenPair(session, raw))
      && (r.Ok? ==> r.value.0.sessions == db.sessions[session := started])
      && (u.password != Some(PasswordHash(password)) ==> r == Err(InvalidCredentials))
  {
    FoundUser(db.users, user);
    hide ScalarOneOrNone, Accounts.WithEmail, Workspaces.Linked, Inv;
  }

  lemma RegisteredUser(db: Db, env: Env, email: string, password: string, name: string, business: bool,
                       org: Option<string>, g: Generated)
    requires Inv(db) && Register(db, env, email, password, name, business, org, g).Ok?
    ensures
      var db1 := Register(db, env, email, password, name, business, org, g).value.0;
      && Inv(db1)
      && g.user in db1.users
      && db1.users[g.user] == Accounts.User(email, name, Accounts.Enabled, false, Some(PasswordHash(password)), None,
        false)
      && db1.sessions == db.sessions
      && g.token in db1.verifications
      && db1.verifications[g.token] == OneTimeTokens.Token(g.user, Digest(g.raw), env.now + VERIFICATION_LIFETIME, None)
      && db1.issued == db.issued + {Digest(g.raw)}
  {
    RegisterKeepsInv(db, env, email, password, name, business, org, g);
    var m := RegisterMoves(db, env, email, password, name, business, org, g);
    hide Inv, Register, OneTimeTokens.After, Accounts.Legal, OneTimeTokens.Legal, Sessions.Legal;
    IssuedToken(db.verifications, g.token, g.user, Digest(g.raw), env.now + VERIFICATION_LIFETIME, env.now);
  }

  lemma IssuedToken(rows: OneTimeTokens.TokenTable, id: Id, user: Id, hash: Digest, expiresAt: int, now: int)
    ensures
      var rows' := OneTimeTokens.After(rows, OneTimeTokens.Issue(id, user, hash, expiresAt), now);
      id in rows' && rows'[id] == OneTimeTokens.Token(user, hash, expiresAt, None)
  {
  }

  lemma VerifiedUser(db: Db, env: Env, token: Id, raw: string)
    requires Inv(db) && token in db.verifications && db.verifications[token].hash == Digest(raw)
    requires OneTimeTokens.Valid(db.verifications[token], env.now)
      && Accounts.Live(db.users, db.verifications[token].user)
    requires !db.users[db.verifications[token].user].emailVerified
    ensures
      var r := VerifyEmail(db, env, raw);
      var user := db.verifications[token].user;
      var u := db.users[user];
      && r.Ok? && Inv(r.value.0) && r.value.0.sessions == db.sessions && r.value.0.issued == db.issued
      && r.value.0.users == db.users[user := u.(
        emailVerified := true, status := if u.status == Accounts.Invited then Accounts.Enabled else u.status)]
  {
    FoundToken(db.verifications, db.issued, token, env.now);
    var user := db.verifications[token].user;
    SameAddressFits(db.users, user, db.users[user].(emailVerified := true, status :=
      if db.users[user].status == Accounts.Invited then Accounts.Enabled else db.users[user].status));
    hide Inv, ScalarOneOrNone, OneTimeTokens.After, OneTimeTokens.WithHash, Accounts.Fits;
    assert VerifyEmail(db, env, raw).Ok?;
    VerifyKeepsInv(db, env, raw);
  }

  lemma FoundToken(rows: OneTimeTokens.TokenTable, issued: set<Digest>, token: Id, now: int)
    requires OneTimeTokens.OneEach(rows, issued) && token in rows && OneTimeTokens.Valid(rows[token], now)
    ensures ScalarOneOrNone(OneTimeTokens.WithHash(rows, rows[token].hash, now)) == Ok(Some(token))
  {
    OneOrNone(OneTimeTokens.WithHash(rows, rows[token].hash, now));
    assert OneTimeTokens.WithHash(rows, rows[token].hash, now) == {token};
  }

  lemma SameAddressFits(rows: Accounts.UserTable, user: Id, u: Accounts.User)
    requires Accounts.Sound(rows) && user in rows && u.email == rows[user].email && u.googleSub == rows[user].googleSub
    ensures Accounts.Fits(rows, user, u)
  {
    hide Accounts.HasCredential;
  }

  /** Register, click the link within a day, sign in: refused before the click,
      admitted after it. */
  lemma RegisterVerifyLogin(db: Db, env: Env, email: string, password: string, name: string, business: bool,
                            org: Option<string>, g: Generated, env2: Env, env3: Env, session: Id, raw: string)
    requires Inv(db) && Register(db, env, email, password, name, business, org, g).Ok?
    requires env2.now < env.now + 86400
    requires session !in db.sessions && Digest(raw) !in db.issued && raw != g.raw
    ensures
      var db1 := Register(db, env, email, password, name, business, org, g).value.0;
      && Login(db1, env3, email, password, session, raw).Err?
      && VerifyEmail(db1, env2, g.raw).Ok?
      && Login(VerifyEmail(db1, env2, g.raw).value.0, env3, email, password, session, raw).Ok?
  {
    hide Register, Login, VerifyEmail, Inv;
    RegisteredUser(db, env, email, password, name, business, org, g);
    var db1 := Register(db, env, email, password, name, business, org, g).value.0;
    RightPasswordLogsIn(db1, env3, g.user, password, session, raw);
    VerifiedUser(db1, env2, g.token, g.raw);
    RightPasswordLogsIn(VerifyEmail(db1, env2, g.raw).value.0, env3, g.user, password, session, raw);
  }

  // ---- From a reset to a session ------------------------------------------------------------------

  lemma ResetUser(db: Db, env: Env, token: Id, raw: string, password: string)
    requires Inv(db) && token in db.resets && db.resets[token].hash == Digest(raw)
    requires OneTimeTokens.Valid(db.resets[token], env.now) && Accounts.Live(db.users, db.resets[token].user)
    ensures
      var r := ResetPassword(db, env, raw, password);
      var user := db.resets[token].user;
      && r.Ok? && Inv(r.value.0) && r.value.0.sessions.Keys == db.sessions.Keys && r.value.0.issued == db.issued
      && r.value.0.users == db.users[user := db.users[user].(password := Some(PasswordHash(password)))]
  {
    FoundToken(db.resets, db.issued, token, env.now);
    var user := db.resets[token].user;
    SameAddressFits(db.users, user, db.users[user].(password := Some(PasswordHash(password))));
    hide Inv, ScalarOneOrNone, OneTimeTokens.After, OneTimeTokens.WithHash, Accounts.Fits;
    assert ResetPassword(db, env, raw, password).Ok?;
    ResetKeepsInv(db, env, raw, password);
  }

  /** After a reset the new password works, if the account is verified and enabled,
      and no other password does. */
  lemma ResetThenLogin(db: Db, env: Env, token: Id, raw: string, password: string, env2: Env, tried: string,
                       session: Id, newRaw: string)
    requires Inv(db) && token in db.resets && db.resets[token].hash == Digest(raw)
    requires OneTimeTokens.Valid(db.resets[token], env.now) && Accounts.Live(db.users, db.resets[token].user)
    requires session !in db.sessions && Digest(newRaw) !in db.issued
    ensures
      var u := db.users[db.resets[token].user];
      var r := ResetPassword(db, env, raw, password);
      && r.Ok?
      && (Login(r.value.0, env2, u.email, tried, session, newRaw).Ok?
          <==> tried == password && u.status != Accounts.Disabled && u.emailVerified)
  {
    hide Login, ResetPassword, Inv;
    ResetUser(db, env, token, raw, password);
    RightPasswordLogsIn(ResetPassword(db, env, raw, password).value.0, env2, db.resets[token].user, tried, session,
      newRaw);
  }

  // ---- Refreshing ------------------------------------------------------------------------------------

  /** The token of an active session is accepted as long as its user is live and
      enabled; the answer carries a new token for the same session. */
  lemma ActiveTokenRefreshes(db: Db, env: Env, session: Id, raw: string, newRaw: string)
    requires Inv(db) && Sessions.IsActive(db.sessions, session, env.now)
      && db.sessions[session].tokenHash == Digest(raw)
    requires Digest(newRaw) !in db.issued
    ensures
      var user := db.sessions[session].user;
      var renewed := Sessions.Session(user, Digest(newRaw), env.now + env.refreshLifetime, None);
      var r := Refresh(db, env, raw, newRaw);
      && (r.Ok? <==> Accounts.Live(db.users, user) && db.users[user].status != Accounts.Disabled)
      && (r.Ok? ==> r.value.1 == TokenPair(session, newRaw) && r.value.0.users == db.users)
      && (r.Ok? ==> r.value.0.sessions == db.sessions[session := renewed])
  {
    OneOrNone(Sessions.WithHash(db.sessions, Digest(raw), env.now));
    assert Sessions.WithHash(db.sessions, Digest(raw), env.now) == {session};
    hide Inv, ScalarOneOrNone, Sessions.WithHash;
  }

  /** The chain of refreshes continues: the new token is accepted until it expires. */
  lemma RefreshChain(db: Db, env: Env, raw: string, newRaw: string, env2: Env, nextRaw: string)
    requires Inv(db) && Refresh(db, env, raw, newRaw).Ok?
    requires env2.now < env.now + env.refreshLifetime && Digest(nextRaw) !in db.issued && nextRaw != newRaw
    ensures
      var db1 := Refresh(db, env, raw, newRaw).value.0;
      Refresh(db1, env2, newRaw, nextRaw).Ok? && Refresh(db1, env2, raw, nextRaw) == Err(InvalidToken)
  {
    var m := RefreshMoves(db, env, raw, newRaw);
    var db1 := Refresh(db, env, raw, newRaw).value.0;
    var id := m.session.id;
    assert Sessions.IsActive(db.sessions, id, env.now) && db.sessions[id].tokenHash == Digest(raw)
      && Digest(newRaw) !in db.issued
      && db1.issued == db.issued + {Digest(newRaw)} by {
      hide Refresh, Inv, Sessions.After, OneTimeTokens.After, OneTimeTokens.Legal, Accounts.Legal, Accounts.After;
    }
    hide MovedBy, Inv, Refresh;
    RefreshKeepsInv(db, env, raw, newRaw);
    ActiveTokenRefreshes(db, env, id, raw, newRaw);
    ActiveTokenRefreshes(db1, env2, id, newRaw, nextRaw);
    OldTokenRefused(db, env, raw, newRaw, env2, nextRaw);
  }

  lemma OldTokenRefused(db: Db, env: Env, raw: string, newRaw: string, env2: Env, nextRaw: string)
    requires Inv(db) && Refresh(db, env, raw, newRaw).Ok?
    ensures Refresh(Refresh(db, env, raw, newRaw).value.0, env2, raw, nextRaw) == Err(InvalidToken)
  {
    hide Inv, Refresh;
    AccountRuns.RefreshTokenWorksOnce(db, env, raw, newRaw, [], env2, nextRaw);
  }
}
