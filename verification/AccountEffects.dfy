/** What linking, passwords, tokens and the upgrade are good for: the effect of
    one call as a later call sees it. */
module AccountEffects {
  import opened Outcomes
  import opened Credentials
  import opened Slug
  import opened Lifecycle
  import opened AccountSafety
  import AccountPaths
  import Accounts
  import Sessions
  import OneTimeTokens
  import Workspaces

  // ---- Google identities -------------------------------------------------------------------

  lemma FoundIdentity(rows: Accounts.UserTable, user: Id, sub: string)
    requires Accounts.Sound(rows) && Accounts.Live(rows, user) && rows[user].googleSub == Some(sub)
    ensures ScalarOneOrNone(Accounts.WithSub(rows, sub)) == Ok(Some(user))
  {
    OneOrNone(Accounts.WithSub(rows, sub));
    assert Accounts.WithSub(rows, sub) == {user};
  }

  /** A linked identity always leads to its account, whatever address it shows. */
  lemma KnownIdentity(db: Db, user: Id, sub: string, email: string, name: string, id: Id, org: Id, slug: Fallbacks)
    requires Inv(db) && Accounts.Live(db.users, user) && db.users[user].googleSub == Some(sub)
    ensures GoogleAccount(db, sub, email, name, id, org, slug) == Ok((db, user))
  {
    FoundIdentity(db.users, user, sub);
    hide Inv, ScalarOneOrNone, Accounts.WithSub;
  }

  /** After linking, signing in with Google reaches the linked account. */
  lemma LinkedThenFound(db: Db, env: Env, session: Id, sub: string, email: string, name: string, id: Id, org: Id,
                        slug: Fallbacks)
    requires Inv(db) && LinkGoogle(db, env, session, sub).Ok?
    ensures
      var db1 := LinkGoogle(db, env, session, sub).value.0;
      session in db.sessions
        && GoogleAccount(db1, sub, email, name, id, org, slug) == Ok((db1, db.sessions[session].user))
  {
    LinkKeepsInv(db, env, session, sub);
    hide Inv, CurrentUser, ScalarOneOrNone, GoogleAccount, Accounts.WithSub, Accounts.Fits;
    var db1 := LinkGoogle(db, env, session, sub).value.0;
    KnownIdentity(db1, db.sessions[session].user, sub, email, name, id, org, slug);
  }

  lemma LinkKeepsInv(db: Db, env: Env, session: Id, sub: string)
    requires Inv(db) && LinkGoogle(db, env, session, sub).Ok?
    ensures Inv(LinkGoogle(db, env, session, sub).value.0)
  {
    hide Inv, LinkGoogle;
    AnswerKeepsInv(db, env, CallLinkGoogle(session, sub), LinkGoogle(db, env, session, sub));
  }

  /** An address that has an account never gets a second one through Google: an
      identity not linked yet is linked to that account. */
  lemma GoogleNeverDuplicates(db: Db, user: Id, sub: string, email: string, name: string, id: Id, org: Id,
                              slug: Fallbacks)
    requires Inv(db) && Accounts.Live(db.users, user) && db.users[user].email == email
    requires GoogleAccount(db, sub, email, name, id, org, slug).Ok?
    ensures
      var r := GoogleAccount(db, sub, email, name, id, org, slug).value;
      && r.0.users.Keys == db.users.Keys && r.0.workspaces == db.workspaces
      && (Accounts.WithSub(db.users, sub) == {}
        ==> r.1 == user && r.0.users[user] == db.users[user].(googleSub := Some(sub)))
  {
    AccountPaths.FoundUser(db.users, user);
    OneOrNone(Accounts.WithSub(db.users, sub));
    hide Inv, ScalarOneOrNone, Accounts.WithSub, Accounts.WithEmail, Accounts.Fits, Workspaces.Found;
  }

  /** Unlinking needs a password, and frees the identity for any other account. */
  lemma UnlinkFreesIdentity(db: Db, env: Env, session: Id, sub: string, other: Id)
    requires Inv(db) && UnlinkGoogle(db, env, session).Ok? && session in db.sessions
    requires db.sessions[session].user in db.users && db.users[db.sessions[session].user].googleSub == Some(sub)
    requires other in db.users && other != db.sessions[session].user
    ensures
      var rows := UnlinkGoogle(db, env, session).value.0.users;
      && rows[db.sessions[session].user].password.Some?
      && Accounts.WithSub(rows, sub) == {}
      && other in rows && Accounts.Put(rows, other, rows[other].(googleSub := Some(sub))).Ok?
  {
    hide CurrentUser;
    var user := db.sessions[session].user;
    assert UnlinkGoogle(db, env, session).value.0.users == db.users[user := db.users[user].(googleSub := None)] by {
      hide Inv, Accounts.Fits;
    }
    assert db.users[user].password.Some?;
    hide UnlinkGoogle;
    FreedIdentity(db.users, user, sub, other);
  }

  lemma FreedIdentity(rows: Accounts.UserTable, user: Id, sub: string, other: Id)
    requires Accounts.Sound(rows) && user in rows && rows[user].googleSub == Some(sub) && other in rows && other != user
    ensures
      var rows' := rows[user := rows[user].(googleSub := None)];
      Accounts.WithSub(rows', sub) == {} && Accounts.Fits(rows', other, rows'[other].(googleSub := Some(sub)))
  {
  }

  // ---- Passwords -----------------------------------------------------------------------------

  /** A first password can be used to sign in like any other. */
  lemma SetThenLogin(db: Db, env: Env, caller: Id, password: string, env2: Env, tried: string, session: Id, raw: string)
    requires Inv(db) && SetPassword(db, env, caller, password).Ok? && caller in db.sessions
    requires session !in db.sessions && Digest(raw) !in db.issued
    ensures
      var user := db.sessions[caller].user;
      user in db.users && db.users[user].password.None?
      && (Login(SetPassword(db, env, caller, password).value.0, env2, db.users[user].email, tried, session, raw).Ok?
          <==> tried == password && db.users[user].emailVerified)
  {
    hide Login, Inv;
    var user := db.sessions[caller].user;
    var db1 := SetPassword(db, env, caller, password).value.0;
    assert db1 == db.(users := db.users[user := db.users[user].(password := Some(PasswordHash(password)))]);
    SetKeepsInv(db, env, caller, password);
    AccountPaths.RightPasswordLogsIn(db1, env2, user, tried, session, raw);
  }

  lemma SetKeepsInv(db: Db, env: Env, caller: Id, password: string)
    requires Inv(db) && SetPassword(db, env, caller, password).Ok?
    ensures Inv(SetPassword(db, env, caller, password).value.0)
  {
    hide Inv, SetPassword;
    AnswerKeepsInv(db, env, CallSetPassword(caller, password), SetPassword(db, env, caller, password));
  }

  /** A password change takes the current password and makes the new one the only one. */
  lemma ChangeThenLogin(db: Db, env: Env, caller: Id, current: string, password: string, env2: Env, tried: string,
                        session: Id, raw: string)
    requires Inv(db) && ChangePassword(db, env, caller, current, password).Ok? && caller in db.sessions
    requires session !in db.sessions && Digest(raw) !in db.issued
    ensures
      var user := db.sessions[caller].user;
      var db1 := ChangePassword(db, env, caller, current, password).value.0;
      user in db.users && db.users[user].password == Some(PasswordHash(current))
      && (Login(db1, env2, db.users[user].email, tried, session, raw).Ok?
          <==> tried == password && db.users[user].emailVerified)
  {
    hide Login, Inv, Sessions.After;
    var user := db.sessions[caller].user;
    var db1 := ChangePassword(db, env, caller, current, password).value.0;
    assert db1.users == db.users[user := db.users[user].(password := Some(PasswordHash(password)))];
    ChangeKeepsInv(db, env, caller, current, password);
    SameSessions(db.sessions, user, caller, env.now);
    AccountPaths.RightPasswordLogsIn(db1, env2, user, tried, session, raw);
  }

  lemma SameSessions(rows: Sessions.SessionTable, user: Id, keep: Id, now: int)
    ensures Sessions.After(rows, Sessions.RevokeOthers(user, keep), now).Keys == rows.Keys
  {
  }

  lemma ChangeKeepsInv(db: Db, env: Env, caller: Id, current: string, password: string)
    requires Inv(db) && ChangePassword(db, env, caller, current, password).Ok?
    ensures Inv(ChangePassword(db, env, caller, current, password).value.0)
  {
    hide Inv, ChangePassword;
    AnswerKeepsInv(db, env, CallChangePassword(caller, current, password),
      ChangePassword(db, env, caller, current, password));
  }

  // ---- Mailed tokens ---------------------------------------------------------------------------

  /** A requested reset link works for an hour, and replaces every earlier one. */
  lemma RequestThenReset(db: Db, env: Env, user: Id, token: Id, raw: string, env2: Env, password: string, older: Id)
    requires Inv(db) && Accounts.Live(db.users, user)
    requires RequestReset(db, env, db.users[user].email, token, raw).Ok?
    requires env2.now < env.now + 3600
    requires older in db.resets && db.resets[older].user == user
    ensures
      var r := RequestReset(db, env, db.users[user].email, token, raw).value;
      && r.1 == ResetLink(raw)
      && ResetPassword(r.0, env2, raw, password).Ok?
      && ResetPassword(r.0, env2, db.resets[older].hash.raw, password) == Err(InvalidToken)
  {
    AccountPaths.FoundUser(db.users, user);
    RequestKeepsInv(db, env, db.users[user].email, token, raw);
    hide Inv, ResetPassword, ScalarOneOrNone, Accounts.WithEmail, OneTimeTokens.After;
    var db1 := RequestReset(db, env, db.users[user].email, token, raw).value.0;
    var c := OneTimeTokens.Issue(token, user, Digest(raw), env.now + RESET_LIFETIME);
    assert db1.resets == OneTimeTokens.After(db.resets, c, env.now) && db1.users == db.users
      && OneTimeTokens.Legal(db.resets, db.issued, c, env.now) && db1.issued == db.issued + {Digest(raw)};
    AccountPaths.IssuedToken(db.resets, token, user, Digest(raw), env.now + RESET_LIFETIME, env.now);
    OlderIsSpent(db, db1, c, env.now, older);
    hide RequestReset;
    AccountPaths.ResetUser(db1, env2, token, raw, password);
    SpentIsRefused(db1, env2, db.resets[older].hash.raw, password);
  }

  lemma OlderIsSpent(db: Db, db1: Db, c: OneTimeTokens.Change, now: int, older: Id)
    requires Inv(db) && c.Issue? && OneTimeTokens.Legal(db.resets, db.issued, c, now)
    requires db1.resets == OneTimeTokens.After(db.resets, c, now) && db.issued <= db1.issued
    requires older in db.resets && db.resets[older].user == c.user
    ensures OneTimeTokens.Spent(db1.resets, db1.issued, db.resets[older].hash)
  {
    OneTimeTokens.IssueSpendsOlder(db.resets, db.issued, c, now, db1.issued, older);
    hide OneTimeTokens.After;
  }

  lemma SpentIsRefused(db: Db, env: Env, raw: string, password: string)
    requires OneTimeTokens.Spent(db.resets, db.issued, Digest(raw))
    ensures ResetPassword(db, env, raw, password) == Err(InvalidToken)
  {
    assert OneTimeTokens.WithHash(db.resets, Digest(raw), env.now) == {};
  }

  lemma RequestKeepsInv(db: Db, env: Env, email: string, token: Id, raw: string)
    requires Inv(db) && RequestReset(db, env, email, token, raw).Ok?
    ensures Inv(RequestReset(db, env, email, token, raw).value.0)
  {
    hide Inv, RequestReset;
    AnswerKeepsInv(db, env, CallRequestReset(email, token, raw), RequestReset(db, env, email, token, raw));
  }

  // ---- The upgrade ---------------------------------------------------------------------------------

  /** The upgrade is a flip in place: the same organization with the same slug and
      members stops being personal, and no other organization changes. */
  lemma UpgradeIsInPlace(db: Db, env: Env, session: Id, name: Option<string>, org: Id)
    requires Inv(db) && UpgradeToBusiness(db, env, session, name).Ok? && session in db.sessions
    requires db.sessions[session].user in db.users && org in db.workspaces.orgs
    ensures
      var ws, ws' := db.workspaces, UpgradeToBusiness(db, env, session, name).value.0.workspaces;
      var upgraded := Workspaces.PersonalOf(ws, db.users[db.sessions[session].user].email);
      && upgraded.Some? && upgraded.value in ws.orgs && ws.orgs[upgraded.value].personal
      && ws'.members == ws.members && ws'.orgs.Keys == ws.orgs.Keys
      && ws'.orgs[org].slug == ws.orgs[org].slug && ws'.orgs[org].deleted == ws.orgs[org].deleted
      && (org == upgraded.value ==> !ws'.orgs[org].personal)
      && (org != upgraded.value ==> ws'.orgs[org] == ws.orgs[org])
  {
    Workspaces.PersonalOfMeaning(db.workspaces, db.users[db.sessions[session].user].email);
    hide CurrentUser, NameOr, Workspaces.PersonalOf, Workspaces.Sound, Inv;
  }
}
