/** Every AuthService call changes each table by at most one of a few statements. */
module AccountMoves {
  import opened Outcomes
  import opened Credentials
  import opened Slug
  import opened Lifecycle
  import Accounts
  import Sessions
  import OneTimeTokens
  import Workspaces

  datatype Moves = Moves(
    user: Accounts.Change, session: Sessions.Change,
    verification: OneTimeTokens.Change, reset: OneTimeTokens.Change)

  const STILL := Moves(Accounts.Unchanged, Sessions.Unchanged, OneTimeTokens.Unchanged, OneTimeTokens.Unchanged)

  ghost predicate MovedBy(db: Db, now: int, db': Db, m: Moves) {
    && Accounts.Legal(db.users, m.user) && db'.users == Accounts.After(db.users, m.user)
    && Sessions.Legal(db.sessions, db.issued, m.session, now)
    && db'.sessions == Sessions.After(db.sessions, m.session, now)
    && OneTimeTokens.Legal(db.verifications, db.issued, m.verification, now)
    && db'.verifications == OneTimeTokens.After(db.verifications, m.verification, now)
    && OneTimeTokens.Legal(db.resets, db.issued, m.reset, now)
    && db'.resets == OneTimeTokens.After(db.resets, m.reset, now)
    && db'.issued == db.issued + Sessions.Hashes(m.session) + OneTimeTokens.Hashes(m.verification)
      + OneTimeTokens.Hashes(m.reset)
  }

  /** The live user with the address. */
  ghost predicate Owns(rows: Accounts.UserTable, user: Id, email: string) {
    user in rows && !rows[user].deleted && rows[user].email == email
  }

  ghost predicate NobodyHas(rows: Accounts.UserTable, email: string) {
    forall i :: !Owns(rows, i, email)
  }

  ghost predicate NobodyLinked(rows: Accounts.UserTable, sub: string) {
    forall i :: i in rows && !rows[i].deleted ==> rows[i].googleSub != Some(sub)
  }

  /** What a sign-in with Google does to the account it ends at. */
  ghost predicate GoogleExplained(rows: Accounts.UserTable, sub: string, email: string, name: string, new': Id,
                                  change: Accounts.Change, user: Id)
  {
    || (change == Accounts.Unchanged && user in rows && !rows[user].deleted && rows[user].googleSub == Some(sub))
    || (NobodyLinked(rows, sub) && Owns(rows, user, email)
        && change == Accounts.Write(user, rows[user].(googleSub := Some(sub))))
    || (NobodyLinked(rows, sub) && NobodyHas(rows, email) && user == new' && new' !in rows
        && change == Accounts.Write(new', Accounts.User(email, name, Accounts.Enabled, true, None, Some(sub), false)))
  }

  /** The changes each call makes when it succeeds. */
  ghost predicate Explained(db: Db, env: Env, c: Call, m: Moves) {
    match c
    case CallRegister(email, password, name, _, _, g) =>
      && g.user !in db.users
      && m == STILL.(
        user := Accounts.Write(g.user,
          Accounts.User(email, name, Accounts.Enabled, false, Some(PasswordHash(password)), None, false)),
        verification := OneTimeTokens.Issue(g.token, g.user, Digest(g.raw), env.now + 86400))
    case CallLogin(email, _, session, raw) =>
      && m.session.Issue? && Owns(db.users, m.session.user, email)
      && m == STILL.(
        session := Sessions.Issue(session, m.session.user, Digest(raw), env.now + env.refreshLifetime))
    case CallGoogleLogin(sub, email, name, user, _, _, session, raw) =>
      && m.session.Issue? && GoogleExplained(db.users, sub, email, name, user, m.user, m.session.user)
      && m == STILL.(user := m.user,
        session := Sessions.Issue(session, m.session.user, Digest(raw), env.now + env.refreshLifetime))
    case CallLinkGoogle(session, sub) => ByOwner(db, session, m) && m == STILL.(user := m.user)
      && m.user.u == db.users[m.user.id].(googleSub := Some(sub))
    case CallUnlinkGoogle(session) => ByOwner(db, session, m) && m == STILL.(user := m.user)
      && m.user.u == db.users[m.user.id].(googleSub := None)
    case CallChangePassword(session, _, password) =>
      && ByOwner(db, session, m) && m.user.u == db.users[m.user.id].(password := Some(PasswordHash(password)))
      && m == STILL.(user := m.user, session := Sessions.RevokeOthers(m.user.id, session))
    case CallSetPassword(session, password) => ByOwner(db, session, m) && m == STILL.(user := m.user)
      && m.user.u == db.users[m.user.id].(password := Some(PasswordHash(password)))
    case CallUpgrade(_, _) => m == STILL
    case CallDeleteAccount(session, _) =>
      && ByOwner(db, session, m) && m.user.u == db.users[m.user.id].(deleted := true)
      && m == STILL.(user := m.user, session := Sessions.RevokeAll(m.user.id))
    case CallLogout(session) => m == STILL.(session := Sessions.Revoke(session))
    case CallRefresh(raw, newRaw) =>
      && m.session.Rotate? && Presented(db.sessions, m.session.id, raw, env.now)
      && m == STILL.(session := Sessions.Rotate(m.session.id, Digest(newRaw), env.now + env.refreshLifetime))
    case CallResend(email, token, raw) =>
      || (m == STILL && (forall i :: Owns(db.users, i, email) ==> db.users[i].emailVerified))
      || (m.verification.Issue? && Owns(db.users, m.verification.user, email)
          && !db.users[m.verification.user].emailVerified
          && m == STILL.(
            verification := OneTimeTokens.Issue(token, m.verification.user, Digest(raw), env.now + 86400)))
    case CallVerifyEmail(raw) =>
      && m.verification.Redeem? && Redeemable(db.verifications, m.verification.id, raw, env.now)
      && var user := db.verifications[m.verification.id].user;
         user in db.users && !db.users[user].deleted && !db.users[user].emailVerified
         && m == STILL.(verification := m.verification, user := Accounts.Write(user, Verified(db.users[user])))
    case CallRequestReset(email, token, raw) =>
      || (m == STILL && NobodyHas(db.users, email))
      || (m.reset.Issue? && Owns(db.users, m.reset.user, email)
          && m == STILL.(reset := OneTimeTokens.Issue(token, m.reset.user, Digest(raw), env.now + 3600)))
    case CallResetPassword(raw, password) =>
      && m.reset.Redeem? && Redeemable(db.resets, m.reset.id, raw, env.now)
      && var user := db.resets[m.reset.id].user;
         user in db.users && !db.users[user].deleted
         && m == STILL.(reset := m.reset, session := Sessions.RevokeAll(user),
           user := Accounts.Write(user, db.users[user].(password := Some(PasswordHash(password)))))
    case CallAddMember(_, _, _) => m == STILL
    case CallSetStatus(user, status) =>
      user in db.users && !db.users[user].deleted
      && m == STILL.(user := Accounts.Write(user, db.users[user].(status := status)))
  }

  /** The user change is to the live owner of the session. */
  ghost predicate ByOwner(db: Db, session: Id, m: Moves) {
    && session in db.sessions && m.user.Write? && m.user.id == db.sessions[session].user
    && m.user.id in db.users && !db.users[m.user.id].deleted
  }

  ghost predicate Presented(rows: Sessions.SessionTable, id: Id, raw: string, now: int) {
    id in rows && rows[id].tokenHash == Digest(raw) && rows[id].revokedAt == None && now < rows[id].expiresAt
  }

  ghost predicate Redeemable(rows: OneTimeTokens.TokenTable, id: Id, raw: string, now: int) {
    id in rows && rows[id].hash == Digest(raw) && rows[id].usedAt == None && now < rows[id].expiresAt
  }

  function Verified(u: Accounts.User): Accounts.User {
    if u.status == Accounts.Invited then u.(emailVerified := true, status := Accounts.Enabled)
    else u.(emailVerified := true)
  }

  lemma SessionIssued(db: Db, env: Env, user: Id, session: Id, raw: string)
    requires IssueSession(db, env, user, session, raw).Ok?
    ensures
      var c := Sessions.Issue(session, user, Digest(raw), env.now + env.refreshLifetime);
      && Sessions.Legal(db.sessions, db.issued, c, env.now)
      && IssueSession(db, env, user, session, raw).value.0
         == db.(sessions := Sessions.After(db.sessions, c, env.now), issued := db.issued + {Digest(raw)})
  {
  }

  lemma VerificationIssued(db: Db, env: Env, user: Id, token: Id, raw: string)
    requires IssueVerification(db, env, user, token, raw).Ok?
    ensures
      var c := OneTimeTokens.Issue(token, user, Digest(raw), env.now + VERIFICATION_LIFETIME);
      && OneTimeTokens.Legal(db.verifications, db.issued, c, env.now)
      && IssueVerification(db, env, user, token, raw).value
         == db.(verifications := OneTimeTokens.After(db.verifications, c, env.now), issued := db.issued + {Digest(raw)})
  {
  }

  lemma RegisterMoves(db: Db, env: Env, email: string, password: string, name: string, business: bool,
                      org: Option<string>, g: Generated)
    returns (m: Moves)
    requires Register(db, env, email, password, name, business, org, g).Ok?
    ensures MovedBy(db, env.now, Register(db, env, email, password, name, business, org, g).value.0, m)
    ensures m == STILL.(
      user := Accounts.Write(g.user,
        Accounts.User(email, name, Accounts.Enabled, false, Some(PasswordHash(password)), None, false)),
      verification := OneTimeTokens.Issue(g.token, g.user, Digest(g.raw), env.now + VERIFICATION_LIFETIME))
    ensures Explained(db, env, CallRegister(email, password, name, business, org, g), m)
  {
    NothingMoves(db, env.now);
    hide NewWorkspaces, OneTimeTokens.After, IssueVerification;
    var u := Accounts.User(email, name, Accounts.Enabled, false, Some(PasswordHash(password)), None, false);
    var issue := OneTimeTokens.Issue(g.token, g.user, Digest(g.raw), env.now + VERIFICATION_LIFETIME);
    m := STILL.(user := Accounts.Write(g.user, u), verification := issue);
    var all := NewWorkspaces(db.workspaces, email, name, business, org, g).value;
    VerificationIssued(db.(users := db.users[g.user := u], workspaces := all), env, g.user, g.token, g.raw);
  }

  /** The lookup by address, in terms of the rows. */
  lemma EmailLookup(rows: Accounts.UserTable, email: string)
    requires ScalarOneOrNone(Accounts.WithEmail(rows, email)).Ok?
    ensures
      var found := ScalarOneOrNone(Accounts.WithEmail(rows, email)).value;
      && (found.None? <==> NobodyHas(rows, email))
      && (found.Some? ==> forall i :: Owns(rows, i, email) <==> i == found.value)
  {
    OneOrNone(Accounts.WithEmail(rows, email));
    hide ScalarOneOrNone;
    forall i ensures i in Accounts.WithEmail(rows, email) <==> Owns(rows, i, email) {}
  }

  lemma LoginMoves(db: Db, env: Env, email: string, password: string, session: Id, raw: string) returns (m: Moves)
    requires Login(db, env, email, password, session, raw).Ok?
    ensures MovedBy(db, env.now, Login(db, env, email, password, session, raw).value.0, m)
    ensures Explained(db, env, CallLogin(email, password, session, raw), m)
  {
    EmailLookup(db.users, email);
    hide Workspaces.Linked, ScalarOneOrNone, Accounts.WithEmail, Sessions.After, IssueSession;
    var user := ScalarOneOrNone(Accounts.WithEmail(db.users, email)).value.value;
    m := STILL.(session := Sessions.Issue(session, user, Digest(raw), env.now + env.refreshLifetime));
    SessionIssued(db.(workspaces := Workspaces.Linked(db.workspaces, db.users[user].email, user)), env, user, session,
      raw);
  }

  /** Resolving a Google identity writes at most one user row and touches no token. */
  lemma GoogleAccountMoves(db: Db, sub: string, email: string, name: string, user: Id, org: Id, slug: Fallbacks)
    returns (c: Accounts.Change)
    requires GoogleAccount(db, sub, email, name, user, org, slug).Ok?
    ensures
      var r := GoogleAccount(db, sub, email, name, user, org, slug).value;
      && Accounts.Legal(db.users, c) && r.0.users == Accounts.After(db.users, c)
      && r.0 == db.(users := r.0.users, workspaces := r.0.workspaces)
      && r.1 in r.0.users && r.0.users[r.1].googleSub == Some(sub)
      && !r.0.users[r.1].deleted
      && GoogleExplained(db.users, sub, email, name, user, c, r.1)
  {
    OneOrNone(Accounts.WithSub(db.users, sub));
    OneOrNone(Accounts.WithEmail(db.users, email));
    hide ScalarOneOrNone, Workspaces.Found;
    var bySub := ScalarOneOrNone(Accounts.WithSub(db.users, sub)).value;
    if bySub.Some? && bySub.value in db.users {
      assert bySub.value in Accounts.WithSub(db.users, sub);
      c := Accounts.Unchanged;
    } else {
      var byEmail := ScalarOneOrNone(Accounts.WithEmail(db.users, email)).value;
      if byEmail.Some? && byEmail.value in db.users {
        assert byEmail.value in Accounts.WithEmail(db.users, email);
        c := Accounts.Write(byEmail.value, db.users[byEmail.value].(googleSub := Some(sub)));
      } else {
        c := Accounts.Write(user, Accounts.User(email, name, Accounts.Enabled, true, None, Some(sub), false));
      }
    }
  }

  lemma GoogleLoginMoves(db: Db, env: Env, sub: string, email: string, name: string, user: Id, org: Id,
                         slug: Fallbacks, session: Id, raw: string)
    returns (m: Moves)
    requires GoogleLogin(db, env, sub, email, name, user, org, slug, session, raw).Ok?
    ensures MovedBy(db, env.now, GoogleLogin(db, env, sub, email, name, user, org, slug, session, raw).value.0, m)
    ensures Explained(db, env, CallGoogleLogin(sub, email, name, user, org, slug, session, raw), m)
  {
    NothingMoves(db, env.now);
    var change := GoogleAccountMoves(db, sub, email, name, user, org, slug);
    hide GoogleAccount, Workspaces.Linked, Sessions.After, IssueSession, OneTimeTokens.After;
    var account := GoogleAccount(db, sub, email, name, user, org, slug).value;
    var issue := Sessions.Issue(session, account.1, Digest(raw), env.now + env.refreshLifetime);
    m := STILL.(user := change, session := issue);
    var linked := Workspaces.Linked(account.0.workspaces, account.0.users[account.1].email, account.1);
    SessionIssued(account.0.(workspaces := linked), env, account.1, session, raw);
  }

  lemma LinkGoogleMoves(db: Db, env: Env, session: Id, sub: string) returns (m: Moves)
    requires LinkGoogle(db, env, session, sub).Ok?
    ensures MovedBy(db, env.now, LinkGoogle(db, env, session, sub).value.0, m)
    ensures Explained(db, env, CallLinkGoogle(session, sub), m)
  {
    hide ScalarOneOrNone, Accounts.WithSub;
    var user := CurrentUser(db, env, session).value;
    m := STILL.(user := Accounts.Write(user, db.users[user].(googleSub := Some(sub))));
  }

  lemma UnlinkGoogleMoves(db: Db, env: Env, session: Id) returns (m: Moves)
    requires UnlinkGoogle(db, env, session).Ok?
    ensures MovedBy(db, env.now, UnlinkGoogle(db, env, session).value.0, m)
    ensures Explained(db, env, CallUnlinkGoogle(session), m)
  {
    var user := CurrentUser(db, env, session).value;
    m := STILL.(user := Accounts.Write(user, db.users[user].(googleSub := None)));
  }

  lemma ChangePasswordMoves(db: Db, env: Env, session: Id, current: string, password: string) returns (m: Moves)
    requires ChangePassword(db, env, session, current, password).Ok?
    ensures MovedBy(db, env.now, ChangePassword(db, env, session, current, password).value.0, m)
    ensures Explained(db, env, CallChangePassword(session, current, password), m)
  {
    NothingMoves(db, env.now);
    hide Sessions.After;
    var user := CurrentUser(db, env, session).value;
    m := STILL.(user := Accounts.Write(user, db.users[user].(password := Some(PasswordHash(password)))),
      session := Sessions.RevokeOthers(user, session));
  }

  lemma SetPasswordMoves(db: Db, env: Env, session: Id, password: string) returns (m: Moves)
    requires SetPassword(db, env, session, password).Ok?
    ensures MovedBy(db, env.now, SetPassword(db, env, session, password).value.0, m)
    ensures Explained(db, env, CallSetPassword(session, password), m)
  {
    var user := CurrentUser(db, env, session).value;
    m := STILL.(user := Accounts.Write(user, db.users[user].(password := Some(PasswordHash(password)))));
  }

  lemma DeleteAccountMoves(db: Db, env: Env, session: Id, password: string) returns (m: Moves)
    requires DeleteAccount(db, env, session, password).Ok?
    ensures MovedBy(db, env.now, DeleteAccount(db, env, session, password).value.0, m)
    ensures Explained(db, env, CallDeleteAccount(session, password), m)
  {
    NothingMoves(db, env.now);
    hide Sessions.After, Workspaces.OwnsShared, Workspaces.OwnedOrgs, Workspaces.Removed;
    var user := CurrentUser(db, env, session).value;
    m := STILL.(user := Accounts.Write(user, db.users[user].(deleted := true)), session := Sessions.RevokeAll(user));
  }

  lemma RefreshMoves(db: Db, env: Env, raw: string, newRaw: string) returns (m: Moves)
    requires Refresh(db, env, raw, newRaw).Ok?
    ensures MovedBy(db, env.now, Refresh(db, env, raw, newRaw).value.0, m)
    ensures m.session.Rotate? && m.session.id in db.sessions && db.sessions[m.session.id].tokenHash == Digest(raw)
    ensures Explained(db, env, CallRefresh(raw, newRaw), m)
  {
    NothingMoves(db, env.now);
    OneOrNone(Sessions.WithHash(db.sessions, Digest(raw), env.now));
    hide ScalarOneOrNone, Sessions.After;
    var id := ScalarOneOrNone(Sessions.WithHash(db.sessions, Digest(raw), env.now)).value.value;
    assert id in Sessions.WithHash(db.sessions, Digest(raw), env.now);
    m := STILL.(session := Sessions.Rotate(id, Digest(newRaw), env.now + env.refreshLifetime));
  }

  lemma ResendMoves(db: Db, env: Env, email: string, token: Id, raw: string) returns (m: Moves)
    requires ResendVerification(db, env, email, token, raw).Ok?
    ensures MovedBy(db, env.now, ResendVerification(db, env, email, token, raw).value.0, m)
    ensures Explained(db, env, CallResend(email, token, raw), m)
  {
    NothingMoves(db, env.now);
    EmailLookup(db.users, email);
    hide ScalarOneOrNone, Accounts.WithEmail, IssueVerification, OneTimeTokens.After;
    var found := ScalarOneOrNone(Accounts.WithEmail(db.users, email)).value;
    if found.None? || found.value !in db.users || db.users[found.value].emailVerified {
      m := STILL;
    } else {
      VerificationIssued(db, env, found.value, token, raw);
      var issue := OneTimeTokens.Issue(token, found.value, Digest(raw), env.now + VERIFICATION_LIFETIME);
      m := STILL.(verification := issue);
    }
  }

  lemma NothingMoves(db: Db, now: int)
    ensures MovedBy(db, now, db, STILL)
  {
  }

  lemma VerifyEmailMoves(db: Db, env: Env, raw: string) returns (m: Moves)
    requires Accounts.Sound(db.users) && VerifyEmail(db, env, raw).Ok?
    ensures MovedBy(db, env.now, VerifyEmail(db, env, raw).value.0, m)
    ensures m.verification.Redeem? && m.verification.id in db.verifications
      && db.verifications[m.verification.id].hash == Digest(raw)
    ensures Explained(db, env, CallVerifyEmail(raw), m)
  {
    NothingMoves(db, env.now);
    OneOrNone(OneTimeTokens.WithHash(db.verifications, Digest(raw), env.now));
    hide ScalarOneOrNone, OneTimeTokens.After;
    var id := ScalarOneOrNone(OneTimeTokens.WithHash(db.verifications, Digest(raw), env.now)).value.value;
    assert id in OneTimeTokens.WithHash(db.verifications, Digest(raw), env.now);
    var user := db.verifications[id].user;
    var u := db.users[user];
    var status := if u.status == Accounts.Invited then Accounts.Enabled else u.status;
    m := STILL.(user := Accounts.Write(user, u.(status := status, emailVerified := true)),
      verification := OneTimeTokens.Redeem(id));
  }

  lemma RequestResetMoves(db: Db, env: Env, email: string, token: Id, raw: string) returns (m: Moves)
    requires RequestReset(db, env, email, token, raw).Ok?
    ensures MovedBy(db, env.now, RequestReset(db, env, email, token, raw).value.0, m)
    ensures Explained(db, env, CallRequestReset(email, token, raw), m)
  {
    EmailLookup(db.users, email);
    hide ScalarOneOrNone, Accounts.WithEmail, OneTimeTokens.After;
    var found := ScalarOneOrNone(Accounts.WithEmail(db.users, email)).value;
    if found.None? {
      m := STILL;
      NothingMoves(db, env.now);
    } else {
      m := STILL.(reset := OneTimeTokens.Issue(token, found.value, Digest(raw), env.now + RESET_LIFETIME));
      NothingMoves(db, env.now);
    }
  }

  lemma ResetPasswordMoves(db: Db, env: Env, raw: string, password: string) returns (m: Moves)
    requires ResetPassword(db, env, raw, password).Ok?
    ensures MovedBy(db, env.now, ResetPassword(db, env, raw, password).value.0, m)
    ensures m.reset.Redeem? && m.reset.id in db.resets && db.resets[m.reset.id].hash == Digest(raw)
    ensures m.session == Sessions.RevokeAll(db.resets[m.reset.id].user)
    ensures Explained(db, env, CallResetPassword(raw, password), m)
  {
    NothingMoves(db, env.now);
    OneOrNone(OneTimeTokens.WithHash(db.resets, Digest(raw), env.now));
    hide ScalarOneOrNone, OneTimeTokens.After, Sessions.After;
    var id := ScalarOneOrNone(OneTimeTokens.WithHash(db.resets, Digest(raw), env.now)).value.value;
    assert id in OneTimeTokens.WithHash(db.resets, Digest(raw), env.now);
    var user := db.resets[id].user;
    m := STILL.(user := Accounts.Write(user, db.users[user].(password := Some(PasswordHash(password)))),
      session := Sessions.RevokeAll(user), reset := OneTimeTokens.Redeem(id));
  }

  lemma LogoutMoves(db: Db, env: Env, session: Id) returns (m: Moves)
    ensures MovedBy(db, env.now, Logout(db, env, session).value.0, m)
    ensures Explained(db, env, CallLogout(session), m)
  {
    hide Sessions.After;
    m := STILL.(session := Sessions.Revoke(session));
    NothingMoves(db, env.now);
  }

  lemma SetStatusMoves(db: Db, user: Id, status: Accounts.Status, env: Env) returns (m: Moves)
    requires Accounts.Sound(db.users) && SetStatus(db, user, status).Ok?
    ensures MovedBy(db, env.now, SetStatus(db, user, status).value.0, m)
    ensures Explained(db, env, CallSetStatus(user, status), m)
  {
    m := STILL.(user := Accounts.Write(user, db.users[user].(status := status)));
  }

  /** Upgrading and inviting touch workspaces only. */
  lemma WorkspaceCallsMoveNothing(db: Db, env: Env, session: Id, name: Option<string>, org: Id, email: string,
                                  owner: bool)
    ensures UpgradeToBusiness(db, env, session, name).Ok?
      ==> MovedBy(db, env.now, UpgradeToBusiness(db, env, session, name).value.0, STILL)
    ensures AddMember(db, org, email, owner).Ok?
      ==> MovedBy(db, env.now, AddMember(db, org, email, owner).value.0, STILL)
    ensures Explained(db, env, CallUpgrade(session, name), STILL)
    ensures Explained(db, env, CallAddMember(org, email, owner), STILL)
  {
    hide Workspaces.PersonalOf, ScalarOneOrNone, CurrentUser;
  }

  /** Every call moves each table by at most one of the changes AuthService may make. */
  lemma CallMoves(db: Db, env: Env, c: Call) returns (m: Moves)
    requires Accounts.Sound(db.users)
    ensures MovedBy(db, env.now, Next(db, env, c), m)
    ensures if Answer(db, env, c).Ok? then Explained(db, env, c, m) else m == STILL
  {
    NothingMoves(db, env.now);
    m := STILL;
    hide MovedBy, Explained, Accounts.Sound, Register, Login, GoogleLogin, LinkGoogle, UnlinkGoogle, ChangePassword,
      SetPassword, UpgradeToBusiness, DeleteAccount, Logout, Refresh, ResendVerification, VerifyEmail, RequestReset,
      ResetPassword, AddMember, SetStatus;
    if Answer(db, env, c).Ok? {
      match c
      case CallRegister(email, password, name, business, org, g) =>
        m := RegisterMoves(db, env, email, password, name, business, org, g);
      case CallLogin(email, password, session, raw) => m := LoginMoves(db, env, email, password, session, raw);
      case CallGoogleLogin(sub, email, name, user, org, slug, session, raw) =>
        m := GoogleLoginMoves(db, env, sub, email, name, user, org, slug, session, raw);
      case CallLinkGoogle(session, sub) => m := LinkGoogleMoves(db, env, session, sub);
      case CallUnlinkGoogle(session) => m := UnlinkGoogleMoves(db, env, session);
      case CallChangePassword(session, current, password) =>
        m := ChangePasswordMoves(db, env, session, current, password);
      case CallSetPassword(session, password) => m := SetPasswordMoves(db, env, session, password);
      case CallUpgrade(session, name) => WorkspaceCallsMoveNothing(db, env, session, name, 0, "", false);
      case CallDeleteAccount(session, password) => m := DeleteAccountMoves(db, env, session, password);
      case CallLogout(session) => m := LogoutMoves(db, env, session);
      case CallRefresh(raw, newRaw) => m := RefreshMoves(db, env, raw, newRaw);
      case CallResend(email, token, raw) => m := ResendMoves(db, env, email, token, raw);
      case CallVerifyEmail(raw) => m := VerifyEmailMoves(db, env, raw);
      case CallRequestReset(email, token, raw) => m := RequestResetMoves(db, env, email, token, raw);
      case CallResetPassword(raw, password) => m := ResetPasswordMoves(db, env, raw, password);
      case CallAddMember(org, email, owner) => WorkspaceCallsMoveNothing(db, env, 0, None, org, email, owner);
      case CallSetStatus(user, status) => m := SetStatusMoves(db, user, status, env);
    }
  }
}
