/** AuthService: the service over its repositories, one transaction a call. */
module AuthService {
  import opened Outcomes
  import opened Credentials
  import opened Slug
  import opened Lifecycle
  import Accounts
  import Sessions
  import OneTimeTokens
  import Workspaces

  /** The reply and the database are those the state machine prescribes; an
      exception leaves the database as it was. */
  ghost predicate Follows(o: Outcome, before: Db, after: Db, r: Result<Reply, AuthError>) {
    if o.Ok? then after == o.value.0 && r == Ok(o.value.1) else after == before && r == Err(o.error)
  }

  class AuthService {
    const users: Accounts.UserRepository
    const sessions: Sessions.SessionRepository
    const verifications: OneTimeTokens.TokenRepository
    const resets: OneTimeTokens.TokenRepository
    const workspaces: Workspaces.WorkspaceRepository
    var issued: set<Digest>

    ghost predicate Valid() { verifications != resets }

    function Value(): Db
      reads this, users, sessions, verifications, resets, workspaces
    {
      Db(users.rows, sessions.rows, verifications.rows, resets.rows, workspaces.Value(), issued)
    }

    constructor ()
      ensures Valid() && Value() == EMPTY
      ensures fresh(users) && fresh(sessions) && fresh(verifications) && fresh(resets) && fresh(workspaces)
    {
      users := new Accounts.UserRepository();
      sessions := new Sessions.SessionRepository();
      verifications := new OneTimeTokens.TokenRepository();
      resets := new OneTimeTokens.TokenRepository();
      workspaces := new Workspaces.WorkspaceRepository();
      issued := {};
    }

    /** session.rollback() */
    method Rollback(saved: Db)
      requires Valid()
      modifies this, users, sessions, verifications, resets, workspaces
      ensures Value() == saved
    {
      users.rows, sessions.rows, verifications.rows, resets.rows := saved.users, saved.sessions, saved.verifications,
        saved.resets;
      workspaces.orgs, workspaces.members := saved.workspaces.orgs, saved.workspaces.members;
      issued := saved.issued;
    }

    method IssueSession(env: Env, user: Id, session: Id, raw: string) returns (r: Result<Reply, AuthError>)
      modifies sessions, `issued
      ensures Follows(Lifecycle.IssueSession(old(Value()), env, user, session, raw), old(Value()), Value(), r)
    {
      if Digest(raw) in issued { return Err(RepeatedToken); }
      var ok := sessions.Create(session, user, Digest(raw), env.now + env.refreshLifetime);
      if !ok { return Err(IntegrityError); }
      issued := issued + {Digest(raw)};
      return Ok(TokenPair(session, raw));
    }

    method CreateVerificationToken(env: Env, user: Id, token: Id, raw: string) returns (error: Option<AuthError>)
      requires Valid()
      modifies verifications, `issued
      ensures
        var o := Lifecycle.IssueVerification(old(Value()), env, user, token, raw);
        if o.Ok? then error == None && Value() == o.value else error == Some(o.error)
    {
      verifications.InvalidateForUser(user, env.now);
      if Digest(raw) in issued { return Some(RepeatedToken); }
      var ok := verifications.Create(token, user, Digest(raw), env.now + VERIFICATION_LIFETIME);
      if !ok { return Some(IntegrityError); }
      issued := issued + {Digest(raw)};
      return None;
    }

    method CurrentUser(env: Env, session: Id) returns (r: Result<Id, AuthError>)
      ensures r == Lifecycle.CurrentUser(Value(), env, session)
    {
      var active := sessions.GetActive(session, env.now);
      if !active { return Err(Unauthorized); }
      var user := sessions.rows[session].user;
      var live := users.Get(user);
      if !live { return Err(Unauthorized); }
      if users.rows[user].status == Accounts.Disabled { return Err(AccountDisabled); }
      return Ok(user);
    }

    // ---- Registration and login ---------------------------------------------------------------

    method Register(env: Env, email: string, password: string, displayName: string, business: bool,
                    organizationName: Option<string>, g: Generated)
      returns (r: Result<Reply, AuthError>)
      requires Valid()
      modifies this, users, sessions, verifications, resets, workspaces
      ensures Follows(
        Lifecycle.Register(old(Value()), env, email, password, displayName, business, organizationName, g),
                old(Value()), Value(), r)
    {
      hide Workspaces.Found, NameOr, PersonalName, PersonalSeed, Accounts.Fits, Accounts.WithEmail,
        Lifecycle.IssueVerification;
      var saved := Value();
      var taken := users.EmailExists(email);
      if taken { return Err(EmailAlreadyRegistered); }
      var u := Accounts.User(email, displayName, Accounts.Enabled, false, Some(PasswordHash(password)), None, false);
      var ok := users.Create(g.user, u);
      if !ok { return Err(IntegrityError); }
      ok := workspaces.CreateWorkspace(g.personalOrg, PersonalName(displayName), PersonalSeed(displayName),
        g.personalSlug, true, email, g.user);
      if ok && business {
        var name := NameOr(organizationName, displayName + "'s Team");
        ok := workspaces.CreateWorkspace(g.businessOrg, name, name, g.businessSlug, false, email, g.user);
      }
      if !ok {
        Rollback(saved);
        return Err(IntegrityError);
      }
      var error := CreateVerificationToken(env, g.user, g.token, g.raw);
      if error.Some? {
        Rollback(saved);
        return Err(error.value);
      }
      return Ok(Account(g.user));
    }

    method Login(env: Env, email: string, password: string, session: Id, raw: string)
      returns (r: Result<Reply, AuthError>)
      requires Valid()
      modifies this, users, sessions, verifications, resets, workspaces
      ensures Follows(Lifecycle.Login(old(Value()), env, email, password, session, raw), old(Value()), Value(), r)
    {
      var found := users.GetByEmail(email);
      hide ScalarOneOrNone, Accounts.WithEmail, Workspaces.Linked, Sessions.After;
      if found.Err? { return Err(found.error); }
      if found.value.None? || found.value.value !in users.rows { return Err(InvalidCredentials); }
      var user := found.value.value;
      var u := users.rows[user];
      if u.password != Some(PasswordHash(password)) { return Err(InvalidCredentials); }
      if u.status == Accounts.Disabled { return Err(AccountDisabled); }
      if !u.emailVerified { return Err(EmailNotVerified); }
      var saved := Value();
      workspaces.LinkPendingByEmail(u.email, user);
      r := IssueSession(env, user, session, raw);
      if r.Err? { Rollback(saved); }
    }

    method GoogleAccount(sub: string, email: string, displayName: string, user: Id, org: Id, slug: Fallbacks)
      returns (r: Result<Id, AuthError>)
      requires Valid()
      modifies users, workspaces
      ensures
        var o := Lifecycle.GoogleAccount(old(Value()), sub, email, displayName, user, org, slug);
        if o.Ok? then r == Ok(o.value.1) && Value() == o.value.0 else r == Err(o.error)
    {
      hide ScalarOneOrNone, Accounts.WithEmail, Accounts.WithSub, Workspaces.Found, Accounts.Fits;
      var bySub := users.GetByGoogleSub(sub);
      if bySub.Err? { return Err(bySub.error); }
      if bySub.value.Some? && bySub.value.value in users.rows { return Ok(bySub.value.value); }
      var byEmail := users.GetByEmail(email);
      if byEmail.Err? { return Err(byEmail.error); }
      if byEmail.value.Some? && byEmail.value.value in users.rows {
        var existing := byEmail.value.value;
        var linked := users.Flush(existing, users.rows[existing].(googleSub := Some(sub)));
        return if linked then Ok(existing) else Err(IntegrityError);
      }
      var u := Accounts.User(email, displayName, Accounts.Enabled, true, None, Some(sub), false);
      var ok := users.Create(user, u);
      if !ok { return Err(IntegrityError); }
      ok := workspaces.CreateWorkspace(org, PersonalName(displayName), PersonalSeed(displayName), slug, true, email,
        user);
      return if ok then Ok(user) else Err(IntegrityError);
    }

    method LoginOrRegisterWithGoogle(env: Env, sub: string, email: string, displayName: string, user: Id, org: Id,
                                     slug: Fallbacks, session: Id, raw: string)
      returns (r: Result<Reply, AuthError>)
      requires Valid()
      modifies this, users, sessions, verifications, resets, workspaces
      ensures Follows(Lifecycle.GoogleLogin(old(Value()), env, sub, email, displayName, user, org, slug, session, raw),
                old(Value()), Value(), r)
    {
      hide Lifecycle.GoogleAccount, Workspaces.Linked, Sessions.After;
      var saved := Value();
      var account := GoogleAccount(sub, email, displayName, user, org, slug);
      if account.Err? {
        Rollback(saved);
        return Err(account.error);
      }
      var id := account.value;
      if users.rows[id].status == Accounts.Disabled {
        Rollback(saved);
        return Err(AccountDisabled);
      }
      workspaces.LinkPendingByEmail(users.rows[id].email, id);
      r := IssueSession(env, id, session, raw);
      if r.Err? { Rollback(saved); }
    }

    // ---- Calls of a signed-in user ---------------------------------------------------------------

    method LinkGoogle(env: Env, session: Id, sub: string) returns (r: Result<Reply, AuthError>)
      requires Valid()
      modifies users
      ensures Follows(Lifecycle.LinkGoogle(old(Value()), env, session, sub), old(Value()), Value(), r)
    {
      hide ScalarOneOrNone, Accounts.WithSub, Accounts.Fits, Lifecycle.CurrentUser;
      var user :- CurrentUser(env, session);
      var other :- users.GetByGoogleSub(sub);
      if other.Some? && other.value != user { return Err(GoogleAccountAlreadyLinked); }
      var ok := users.Flush(user, users.rows[user].(googleSub := Some(sub)));
      return if ok then Ok(Account(user)) else Err(IntegrityError);
    }

    method UnlinkGoogle(env: Env, session: Id) returns (r: Result<Reply, AuthError>)
      requires Valid()
      modifies users
      ensures Follows(Lifecycle.UnlinkGoogle(old(Value()), env, session), old(Value()), Value(), r)
    {
      hide Accounts.Fits, Lifecycle.CurrentUser;
      var user :- CurrentUser(env, session);
      if users.rows[user].password.None? { return Err(LastAuthMethod); }
      var ok := users.Flush(user, users.rows[user].(googleSub := None));
      return if ok then Ok(Account(user)) else Err(IntegrityError);
    }

    method LogOut(env: Env, session: Id) returns (r: Result<Reply, AuthError>)
      requires Valid()
      modifies sessions
      ensures Follows(Lifecycle.Logout(old(Value()), env, session), old(Value()), Value(), r)
    {
      hide Sessions.After;
      sessions.SetRevoked(session, env.now);
      return Ok(Done);
    }

    method ChangePassword(env: Env, session: Id, current: string, password: string)
      returns (r: Result<Reply, AuthError>)
      requires Valid()
      modifies users, sessions
      ensures Follows(Lifecycle.ChangePassword(old(Value()), env, session, current, password), old(Value()), Value(), r)
    {
      hide Accounts.Fits, Lifecycle.CurrentUser, Sessions.After;
      var user :- CurrentUser(env, session);
      if users.rows[user].password != Some(PasswordHash(current)) { return Err(InvalidCredentials); }
      var ok := users.Flush(user, users.rows[user].(password := Some(PasswordHash(password))));
      if !ok { return Err(IntegrityError); }
      sessions.RevokeAllForUserExcept(user, session, env.now);
      return Ok(Done);
    }

    method SetPassword(env: Env, session: Id, password: string) returns (r: Result<Reply, AuthError>)
      requires Valid()
      modifies users
      ensures Follows(Lifecycle.SetPassword(old(Value()), env, session, password), old(Value()), Value(), r)
    {
      hide Accounts.Fits, Lifecycle.CurrentUser;
      var user :- CurrentUser(env, session);
      if users.rows[user].password.Some? { return Err(PasswordAlreadyConfigured); }
      var ok := users.Flush(user, users.rows[user].(password := Some(PasswordHash(password))));
      return if ok then Ok(Done) else Err(IntegrityError);
    }

    method UpgradeToBusiness(env: Env, session: Id, name: Option<string>) returns (r: Result<Reply, AuthError>)
      requires Valid()
      modifies workspaces
      ensures Follows(Lifecycle.UpgradeToBusiness(old(Value()), env, session, name), old(Value()), Value(), r)
    {
      hide Lifecycle.CurrentUser, NameOr, Workspaces.Listed;
      var user :- CurrentUser(env, session);
      var ms := workspaces.ListByUserEmail(users.rows[user].email);
      var i := 0;
      while i < |ms| && !Workspaces.IsPersonalOwner(workspaces.orgs, ms[i])
        invariant 0 <= i <= |ms|
        invariant Workspaces.FirstPersonal(workspaces.orgs, ms) == Workspaces.FirstPersonal(workspaces.orgs, ms[i..])
      {
        assert ms[i..][1..] == ms[i + 1..];
        i := i + 1;
      }
      if i == |ms| { return Err(NoPersonalWorkspace); }
      workspaces.Convert(ms[i].org, NameOr(name, "My Team"));
      return Ok(Account(user));
    }

    method DeleteAccount(env: Env, session: Id, password: string) returns (r: Result<Reply, AuthError>)
      requires Valid()
      modifies this, users, sessions, verifications, resets, workspaces
      ensures Follows(Lifecycle.DeleteAccount(old(Value()), env, session, password), old(Value()), Value(), r)
    {
      hide Lifecycle.CurrentUser, Accounts.Fits, Sessions.After;
      var user :- CurrentUser(env, session);
      var u := users.rows[user];
      if u.password != Some(PasswordHash(password)) { return Err(InvalidCredentials); }
      var saved := Value();
      var ok := DeleteOwned(u.email);
      if !ok { return Err(OwnerOfSharedWorkspace); }
      hide Workspaces.OwnsShared, Workspaces.OwnedOrgs, Workspaces.Removed;
      ok := users.Flush(user, u.(deleted := true));
      if !ok {
        Rollback(saved);
        return Err(IntegrityError);
      }
      sessions.RevokeAllForUser(user, env.now);
      return Ok(Done);
    }

    /** The two loops of delete_account: refuse if an owned workspace has other
        members, then delete every owned workspace. */
    method DeleteOwned(email: string) returns (ok: bool)
      modifies workspaces
      ensures ok <==> !Workspaces.OwnsShared(old(workspaces.Value()), email)
      ensures workspaces.Value() == if ok
        then Workspaces.Removed(old(workspaces.Value()), Workspaces.OwnedOrgs(old(workspaces.Value()), email))
        else old(workspaces.Value())
    {
      var ws := workspaces.Value();
      var ms := workspaces.ListByUserEmail(email);
      Workspaces.ListedOwners(ws, email);
      hide Workspaces.OwnsShared, Workspaces.OwnedOrgs, Workspaces.Shared, Workspaces.Listed;
      for i := 0 to |ms|
        invariant workspaces.Value() == ws
        invariant forall j :: 0 <= j < i && ms[j].owner ==> !Workspaces.Shared(ws, ms[j].org, email)
      {
        if ms[i].owner {
          var shared := workspaces.HasOtherMembers(ms[i].org, email);
          if shared {
            assert ms[i].org in Workspaces.OwnersIn(ms);
            return false;
          }
        }
      }
      assert Workspaces.Removed(ws, {}) == ws;
      hide Workspaces.Removed;
      for i := 0 to |ms|
        invariant workspaces.Value() == Workspaces.Removed(ws, Workspaces.OwnersIn(ms[..i]))
      {
        OwnersSnoc(ms, i);
        if ms[i].owner {
          workspaces.SoftDelete(ms[i].org);
          Workspaces.RemovedTwice(ws, Workspaces.OwnersIn(ms[..i]), {ms[i].org});
        }
      }
      assert ms[..|ms|] == ms;
      return true;
    }

    // ---- Calls that present a token ----------------------------------------------------------------

    method Refresh(env: Env, raw: string, newRaw: string) returns (r: Result<Reply, AuthError>)
      requires Valid()
      modifies sessions, `issued
      ensures Follows(Lifecycle.Refresh(old(Value()), env, raw, newRaw), old(Value()), Value(), r)
    {
      hide ScalarOneOrNone, Sessions.WithHash, Sessions.After;
      var found :- sessions.GetActiveByTokenHash(Digest(raw), env.now);
      if found.None? || found.value !in sessions.rows { return Err(InvalidToken); }
      var user := sessions.rows[found.value].user;
      var live := users.Get(user);
      if !live || users.rows[user].status == Accounts.Disabled { return Err(InvalidToken); }
      if Digest(newRaw) in issued { return Err(RepeatedToken); }
      sessions.SetToken(found.value, Digest(newRaw), env.now + env.refreshLifetime, env.now);
      issued := issued + {Digest(newRaw)};
      return Ok(TokenPair(found.value, newRaw));
    }

    method ResendVerificationEmail(env: Env, email: string, token: Id, raw: string)
      returns (r: Result<Reply, AuthError>)
      requires Valid()
      modifies this, users, sessions, verifications, resets, workspaces
      ensures Follows(Lifecycle.ResendVerification(old(Value()), env, email, token, raw), old(Value()), Value(), r)
    {
      hide ScalarOneOrNone, Accounts.WithEmail, Lifecycle.IssueVerification;
      var found :- users.GetByEmail(email);
      if found.None? || found.value !in users.rows || users.rows[found.value].emailVerified { return Ok(Done); }
      var saved := Value();
      var error := CreateVerificationToken(env, found.value, token, raw);
      if error.Some? {
        Rollback(saved);
        return Err(error.value);
      }
      return Ok(Done);
    }

    method VerifyEmail(env: Env, raw: string) returns (r: Result<Reply, AuthError>)
      requires Valid()
      modifies this, users, sessions, verifications, resets, workspaces
      ensures Follows(Lifecycle.VerifyEmail(old(Value()), env, raw), old(Value()), Value(), r)
    {
      hide ScalarOneOrNone, OneTimeTokens.WithHash, OneTimeTokens.After, Accounts.Fits;
      var found :- verifications.GetValidByHash(Digest(raw), env.now);
      if found.None? || found.value !in verifications.rows { return Err(InvalidToken); }
      var user := verifications.rows[found.value].user;
      var live := users.Get(user);
      if !live { return Err(InvalidToken); }
      var u := users.rows[user];
      if u.emailVerified { return Err(EmailAlreadyVerified); }
      var saved := Value();
      verifications.MarkUsed(found.value, env.now);
      if u.status == Accounts.Invited { u := u.(status := Accounts.Enabled); }
      u := u.(emailVerified := true);
      var ok := users.Flush(user, u);
      if !ok {
        Rollback(saved);
        return Err(IntegrityError);
      }
      return Ok(Account(user));
    }

    method CreatePasswordResetToken(env: Env, email: string, token: Id, raw: string)
      returns (r: Result<Reply, AuthError>)
      requires Valid()
      modifies this, users, sessions, verifications, resets, workspaces
      ensures Follows(Lifecycle.RequestReset(old(Value()), env, email, token, raw), old(Value()), Value(), r)
    {
      hide ScalarOneOrNone, Accounts.WithEmail;
      var found :- users.GetByEmail(email);
      if found.None? { return Ok(Done); }
      var saved := Value();
      resets.InvalidateForUser(found.value, env.now);
      var fresh_ := Digest(raw) !in issued;
      var ok := resets.Create(token, found.value, Digest(raw), env.now + RESET_LIFETIME);
      if !fresh_ || !ok {
        Rollback(saved);
        return Err(if !fresh_ then RepeatedToken else IntegrityError);
      }
      issued := issued + {Digest(raw)};
      return Ok(ResetLink(raw));
    }

    method ResetPassword(env: Env, raw: string, password: string) returns (r: Result<Reply, AuthError>)
      requires Valid()
      modifies this, users, sessions, verifications, resets, workspaces
      ensures Follows(Lifecycle.ResetPassword(old(Value()), env, raw, password), old(Value()), Value(), r)
    {
      hide ScalarOneOrNone, OneTimeTokens.WithHash, OneTimeTokens.After, Accounts.Fits, Sessions.After;
      var found :- resets.GetValidByHash(Digest(raw), env.now);
      if found.None? || found.value !in resets.rows { return Err(InvalidToken); }
      var user := resets.rows[found.value].user;
      var live := users.Get(user);
      if !live { return Err(InvalidToken); }
      var saved := Value();
      resets.MarkUsed(found.value, env.now);
      var ok := users.Flush(user, users.rows[user].(password := Some(PasswordHash(password))));
      if !ok {
        Rollback(saved);
        return Err(IntegrityError);
      }
      sessions.RevokeAllForUser(user, env.now);
      return Ok(Done);
    }
  }

  lemma OwnersSnoc(ms: seq<Workspaces.Membership>, i: nat)
    requires i < |ms|
    ensures Workspaces.OwnersIn(ms[..i + 1]) == Workspaces.OwnersIn(ms[..i]) + if ms[i].owner then {ms[i].org} else {}
  {
    var a, b := ms[..i], ms[..i + 1];
    assert b == a + [ms[i]];
    forall org
      ensures org in Workspaces.OwnersIn(b) <==> org in Workspaces.OwnersIn(a) || (ms[i].owner && org == ms[i].org)
    {
      if org in Workspaces.OwnersIn(a) {
        var j :| 0 <= j < |a| && a[j].owner && a[j].org == org;
        assert b[j] == a[j];
      }
      if ms[i].owner && org == ms[i].org { assert b[i] == ms[i]; }
    }
  }
}
