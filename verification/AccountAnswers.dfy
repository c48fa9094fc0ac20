/** When each call of the account service succeeds, and with which error it fails. */
module AccountAnswers {
  import opened Outcomes
  import opened Credentials
  import opened Lifecycle
  import opened AccountMoves
  import opened AccountSafety
  import AccountPaths
  import WorkspaceRows
  import Accounts
  import Sessions
  import OneTimeTokens
  import W = Workspaces

  // ---- Signed-in callers ----------------------------------------------------------------------

  /** What get_current_user answers. */
  lemma CurrentUserAnswer(db: Db, env: Env, session: Id)
    ensures
      var r := CurrentUser(db, env, session);
      if session !in db.sessions || db.sessions[session].revokedAt.Some? || db.sessions[session].expiresAt <= env.now
      then r == Err(Unauthorized)
      else
        var user := db.sessions[session].user;
        if user !in db.users || db.users[user].deleted then r == Err(Unauthorized)
        else if db.users[user].status == Accounts.Disabled then r == Err(AccountDisabled)
        else r == Ok(user)
  {
  }

  /** The calls of a signed-in user, given who that is. */
  lemma CallerAnswers(db: Db, env: Env, session: Id, user: Id, password: string, new': string)
    requires Inv(db) && CurrentUser(db, env, session) == Ok(user)
    ensures
      var u := db.users[user];
      && (u.password.Some? <==> UnlinkGoogle(db, env, session).Ok?)
      && (u.password.None? ==> UnlinkGoogle(db, env, session) == Err(LastAuthMethod))
      && (u.password.None? <==> SetPassword(db, env, session, new').Ok?)
      && (u.password.Some? ==> SetPassword(db, env, session, new') == Err(PasswordAlreadyConfigured))
      && (u.password == Some(PasswordHash(password)) <==> ChangePassword(db, env, session, password, new').Ok?)
      && (u.password != Some(PasswordHash(password)) ==>
            ChangePassword(db, env, session, password, new') == Err(InvalidCredentials))
  {
    AccountPaths.SameAddressFits(db.users, user, db.users[user].(password := Some(PasswordHash(new'))));
    UnlinkedFits(db.users, user);
    hide CurrentUser, Inv, Accounts.Fits, Sessions.After;
  }

  lemma UnlinkedFits(rows: Accounts.UserTable, user: Id)
    requires Accounts.Sound(rows) && user in rows
    ensures Accounts.Fits(rows, user, rows[user].(googleSub := None))
  {
  }

  /** Someone else is a member of a live organization that the address owns. */
  ghost predicate OwnsSharedOne(ws: W.Workspaces, email: string) {
    exists k, l :: 0 <= k < |ws.members| && 0 <= l < |ws.members|
      && ws.members[k].email == email && ws.members[k].owner
      && ws.members[k].org in ws.orgs && !ws.orgs[ws.members[k].org].deleted
      && ws.members[l].org == ws.members[k].org && ws.members[l].email != email
  }

  /** Deletion asks for the password first, then for no shared workspace. */
  lemma DeleteAnswer(db: Db, env: Env, session: Id, user: Id, password: string)
    requires Inv(db) && CurrentUser(db, env, session) == Ok(user)
    ensures
      var r, u := DeleteAccount(db, env, session, password), db.users[user];
      if u.password != Some(PasswordHash(password)) then r == Err(InvalidCredentials)
      else if OwnsSharedOne(db.workspaces, u.email) then r == Err(OwnerOfSharedWorkspace)
      else r.Ok?
  {
    AccountPaths.SameAddressFits(db.users, user, db.users[user].(deleted := true));
    SharedMeaning(db.workspaces, db.users[user].email);
    hide CurrentUser, Inv, Accounts.Fits, Sessions.After, W.OwnsShared, OwnsSharedOne, W.OwnedOrgs, W.Removed;
  }

  lemma SharedMeaning(ws: W.Workspaces, email: string)
    ensures W.OwnsShared(ws, email) <==> OwnsSharedOne(ws, email)
  {
    if W.OwnsShared(ws, email) {
      var k :| 0 <= k < |ws.members| && W.OwnsAt(ws, email, k) && W.Shared(ws, ws.members[k].org, email);
      var l :| 0 <= l < |ws.members| && ws.members[l].org == ws.members[k].org && ws.members[l].email != email;
      assert ws.members[k].email == email;
    }
    if OwnsSharedOne(ws, email) {
      var k, l :| 0 <= k < |ws.members| && 0 <= l < |ws.members|
        && ws.members[k].email == email && ws.members[k].owner
        && ws.members[k].org in ws.orgs && !ws.orgs[ws.members[k].org].deleted
        && ws.members[l].org == ws.members[k].org && ws.members[l].email != email;
      assert W.OwnsAt(ws, email, k) && W.Shared(ws, ws.members[k].org, email);
    }
  }

  /** The upgrade works exactly for who has a live personal workspace. */
  lemma UpgradeAnswer(db: Db, env: Env, session: Id, user: Id, name: Option<string>)
    requires Inv(db) && CurrentUser(db, env, session) == Ok(user)
    ensures
      var r, email := UpgradeToBusiness(db, env, session, name), db.users[user].email;
      if exists org :: WorkspaceRows.IsPersonalOf(db.workspaces, org, email) then r.Ok? && r.value.1 == Account(user)
      else r == Err(NoPersonalWorkspace)
  {
    var email := db.users[user].email;
    W.PersonalOfMeaning(db.workspaces, email);
    var found := W.PersonalOf(db.workspaces, email);
    if found.Some? {
      WorkspaceRows.OnlyPersonal(db.workspaces, email, found.value);
    }
    if org :| WorkspaceRows.IsPersonalOf(db.workspaces, org, email) {
      PersonalIsFound(db.workspaces, org, email);
    }
    hide CurrentUser, W.PersonalOf, WorkspaceRows.IsPersonalOf, W.Converted, Inv, NameOr;
  }

  lemma PersonalIsFound(ws: W.Workspaces, org: Id, email: string)
    requires W.Sound(ws) && WorkspaceRows.IsPersonalOf(ws, org, email)
    ensures W.PersonalOf(ws, email).Some?
  {
    W.PersonalOfMeaning(ws, email);
    hide W.PersonalOf;
    var k :| 0 <= k < |ws.members| && ws.members[k].org == org && ws.members[k].email == email;
    assert W.PersonalAt(ws, k);
  }

  // ---- Passwords and tokens -----------------------------------------------------------------------

  /** Login: an unknown address looks like a wrong password; then the status, then the address. */
  lemma LoginAnswer(db: Db, env: Env, email: string, password: string, session: Id, raw: string, user: Id)
    requires Inv(db)
    ensures NobodyHas(db.users, email) ==> Login(db, env, email, password, session, raw) == Err(InvalidCredentials)
    ensures Owns(db.users, user, email) ==>
      var r, u := Login(db, env, email, password, session, raw), db.users[user];
      if u.password != Some(PasswordHash(password)) then r == Err(InvalidCredentials)
      else if u.status == Accounts.Disabled then r == Err(AccountDisabled)
      else if !u.emailVerified then r == Err(EmailNotVerified)
      else if Digest(raw) in db.issued then r == Err(RepeatedToken)
      else if session in db.sessions then r == Err(IntegrityError)
      else r.Ok? && r.value.1 == TokenPair(session, raw)
  {
    Accounts.LookupsAreUnambiguous(db.users, email, "");
    EmailLookup(db.users, email);
    hide ScalarOneOrNone, Accounts.WithEmail, Inv, W.Linked;
  }

  /** Refreshing: the token of an active session whose owner is live and enabled, and a fresh new token. */
  lemma RefreshAnswer(db: Db, env: Env, raw: string, newRaw: string)
    requires Inv(db)
    ensures
      var r := Refresh(db, env, raw, newRaw);
      && ((exists id :: Presented(db.sessions, id, raw, env.now) && MayUse(db.users, db.sessions[id].user)) ==>
            if Digest(newRaw) in db.issued then r == Err(RepeatedToken) else r.Ok?)
      && (!(exists id :: Presented(db.sessions, id, raw, env.now) && MayUse(db.users, db.sessions[id].user)) ==>
            r == Err(InvalidToken))
  {
    Sessions.LookupIsUnambiguous(db.sessions, db.issued, Digest(raw), env.now);
    PresentedLookup(db.sessions, raw, env.now);
    hide ScalarOneOrNone, Sessions.WithHash, Inv, Sessions.After, Presented;
  }

  /** A live account that is not disabled. */
  ghost predicate MayUse(rows: Accounts.UserTable, user: Id) {
    user in rows && !rows[user].deleted && rows[user].status != Accounts.Disabled
  }

  lemma PresentedLookup(rows: Sessions.SessionTable, raw: string, now: int)
    requires ScalarOneOrNone(Sessions.WithHash(rows, Digest(raw), now)).Ok?
    ensures
      var found := ScalarOneOrNone(Sessions.WithHash(rows, Digest(raw), now)).value;
      && (found.None? <==> forall i :: !Presented(rows, i, raw, now))
      && (found.Some? ==> forall i :: Presented(rows, i, raw, now) <==> i == found.value)
  {
    OneOrNone(Sessions.WithHash(rows, Digest(raw), now));
    hide ScalarOneOrNone;
    forall i ensures i in Sessions.WithHash(rows, Digest(raw), now) <==> Presented(rows, i, raw, now) {}
  }

  lemma RedeemableLookup(rows: OneTimeTokens.TokenTable, raw: string, now: int)
    requires ScalarOneOrNone(OneTimeTokens.WithHash(rows, Digest(raw), now)).Ok?
    ensures
      var found := ScalarOneOrNone(OneTimeTokens.WithHash(rows, Digest(raw), now)).value;
      && (found.None? <==> forall i :: !Redeemable(rows, i, raw, now))
      && (found.Some? ==> forall i :: Redeemable(rows, i, raw, now) <==> i == found.value)
  {
    OneOrNone(OneTimeTokens.WithHash(rows, Digest(raw), now));
    hide ScalarOneOrNone;
    forall i ensures i in OneTimeTokens.WithHash(rows, Digest(raw), now) <==> Redeemable(rows, i, raw, now) {}
  }

  /** Verifying an address: a redeemable token of a live account that is not verified yet. */
  lemma VerifyAnswer(db: Db, env: Env, raw: string, t: Id)
    requires Inv(db)
    ensures (forall i :: !Redeemable(db.verifications, i, raw, env.now)) ==>
      VerifyEmail(db, env, raw) == Err(InvalidToken)
    ensures Redeemable(db.verifications, t, raw, env.now) ==>
      var r, user := VerifyEmail(db, env, raw), db.verifications[t].user;
      if user !in db.users || db.users[user].deleted then r == Err(InvalidToken)
      else if db.users[user].emailVerified then r == Err(EmailAlreadyVerified)
      else r.Ok? && r.value.1 == Account(user)
  {
    OneTimeTokens.LookupIsUnambiguous(db.verifications, db.issued, Digest(raw), env.now);
    RedeemableLookup(db.verifications, raw, env.now);
    if Redeemable(db.verifications, t, raw, env.now) && db.verifications[t].user in db.users {
      var user := db.verifications[t].user;
      AccountPaths.SameAddressFits(db.users, user, Verified(db.users[user]));
    }
    hide ScalarOneOrNone, OneTimeTokens.WithHash, Inv, OneTimeTokens.After, Accounts.Fits;
  }

  /** Resetting a password: a redeemable token of a live account. */
  lemma ResetAnswer(db: Db, env: Env, raw: string, password: string, t: Id)
    requires Inv(db)
    ensures (forall i :: !Redeemable(db.resets, i, raw, env.now)) ==>
      ResetPassword(db, env, raw, password) == Err(InvalidToken)
    ensures Redeemable(db.resets, t, raw, env.now) ==>
      var r, user := ResetPassword(db, env, raw, password), db.resets[t].user;
      if user !in db.users || db.users[user].deleted then r == Err(InvalidToken) else r.Ok? && r.value.1 == Done
  {
    OneTimeTokens.LookupIsUnambiguous(db.resets, db.issued, Digest(raw), env.now);
    RedeemableLookup(db.resets, raw, env.now);
    if Redeemable(db.resets, t, raw, env.now) && db.resets[t].user in db.users {
      var user := db.resets[t].user;
      AccountPaths.SameAddressFits(db.users, user, db.users[user].(password := Some(PasswordHash(password))));
    }
    hide ScalarOneOrNone, OneTimeTokens.WithHash, Inv, OneTimeTokens.After, Sessions.After, Accounts.Fits;
  }

  /** Asking for a new verification token or a reset link tells nothing about the
      address: with fresh identifiers it succeeds for every address. */
  lemma RequestAnswers(db: Db, env: Env, email: string, token: Id, raw: string)
    requires Inv(db) && Digest(raw) !in db.issued
    ensures token !in db.verifications ==>
      var r := ResendVerification(db, env, email, token, raw);
      r.Ok? && r.value.1 == Done
    ensures token !in db.resets ==>
      var r := RequestReset(db, env, email, token, raw);
      r.Ok? && r.value.1 == if NobodyHas(db.users, email) then Done else ResetLink(raw)
  {
    Accounts.LookupsAreUnambiguous(db.users, email, "");
    EmailLookup(db.users, email);
    hide ScalarOneOrNone, Accounts.WithEmail, Inv, OneTimeTokens.After;
  }

  // ---- Changes made elsewhere -------------------------------------------------------------------------

  /** Personal workspaces take no members, and nobody is invited twice. */
  lemma InviteAnswer(db: Db, org: Id, email: string, owner: bool)
    requires Inv(db)
    ensures
      var r, ws := AddMember(db, org, email, owner), db.workspaces;
      if org !in ws.orgs || ws.orgs[org].deleted then r == Err(NotFound)
      else if ws.orgs[org].personal then r == Err(Conflict)
      else if exists k :: 0 <= k < |ws.members| && ws.members[k].org == org && ws.members[k].email == email
      then r == Err(Conflict)
      else r.Ok?
  {
    Accounts.LookupsAreUnambiguous(db.users, email, "");
    hide ScalarOneOrNone, Accounts.WithEmail, Inv;
  }

  lemma SetStatusAnswer(db: Db, user: Id, status: Accounts.Status)
    requires Inv(db)
    ensures
      var r := SetStatus(db, user, status);
      if user in db.users && !db.users[user].deleted then r.Ok? else r == Err(NotFound)
  {
    if user in db.users {
      AccountPaths.SameAddressFits(db.users, user, db.users[user].(status := status));
    }
    hide Inv, Accounts.Fits;
  }

  // ---- Replies ------------------------------------------------------------------------------------------

  /** The account or the token pair that a successful call hands back. */
  lemma Replies(db: Db, env: Env, email: string, password: string, name: string, business: bool, org: Option<string>,
                g: Generated, sub: string, id: Id, orgId: Id, session: Id, raw: string)
    ensures
      var r := Register(db, env, email, password, name, business, org, g);
      r.Ok? ==> r.value.1 == Account(g.user)
    ensures
      var r := GoogleLogin(db, env, sub, email, name, id, orgId, g.personalSlug, session, raw);
      r.Ok? ==> r.value.1 == TokenPair(session, raw)
    ensures
      var r := LinkGoogle(db, env, session, sub);
      r.Ok? ==> session in db.sessions && r.value.1 == Account(db.sessions[session].user)
    ensures
      var r := UnlinkGoogle(db, env, session);
      r.Ok? ==> session in db.sessions && r.value.1 == Account(db.sessions[session].user)
  {
    hide NewWorkspaces, IssueVerification, Accounts.Put, Accounts.WithEmail, Accounts.WithSub, ScalarOneOrNone,
      GoogleAccount, W.Linked;
  }
}
