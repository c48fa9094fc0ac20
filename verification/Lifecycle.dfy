/** The account state machine: what every AuthService call does to the
    database, as one transaction. */
module Lifecycle {
  import opened Outcomes
  import opened Credentials
  import opened Slug
  import opened Text
  import Accounts
  import Sessions
  import OneTimeTokens
  import Workspaces

  /** `issued` remembers every token ever generated. */
  datatype Db = Db(
    users: Accounts.UserTable,
    sessions: Sessions.SessionTable,
    verifications: OneTimeTokens.TokenTable,
    resets: OneTimeTokens.TokenTable,
    workspaces: Workspaces.Workspaces,
    issued: set<Digest>)

  const EMPTY := Db(map[], map[], map[], map[], Workspaces.Workspaces(map[], []), {})

  /** The clock and jwt_refresh_token_expire_days, in the clock's unit. */
  datatype Env = Env(now: int, refreshLifetime: int)

  const VERIFICATION_LIFETIME := 24 * 3600
  const RESET_LIFETIME := 3600

  datatype Reply =
    | Done
    | Account(user: Id)
    | TokenPair(session: Id, refreshToken: string)
    | ResetLink(token: string)

  type Outcome = Result<(Db, Reply), AuthError>

  // ---- Shared steps ----------------------------------------------------------------------

  function Fresh(db: Db, raw: string): Verdict<AuthError> { Check(Digest(raw) !in db.issued, RepeatedToken) }

  /** _issue_session */
  function IssueSession(db: Db, env: Env, user: Id, session: Id, raw: string): Outcome {
    var c := Sessions.Issue(session, user, Digest(raw), env.now + env.refreshLifetime);
    :- Fresh(db, raw);
    :- Check(session !in db.sessions, IntegrityError);
    Ok((db.(sessions := Sessions.After(db.sessions, c, env.now), issued := db.issued + {Digest(raw)}),
        TokenPair(session, raw)))
  }

  /** create_verification_token */
  function IssueVerification(db: Db, env: Env, user: Id, token: Id, raw: string): Result<Db, AuthError> {
    var c := OneTimeTokens.Issue(token, user, Digest(raw), env.now + VERIFICATION_LIFETIME);
    :- Fresh(db, raw);
    :- Check(token !in db.verifications, IntegrityError);
    Ok(db.(verifications := OneTimeTokens.After(db.verifications, c, env.now), issued := db.issued + {Digest(raw)}))
  }

  /** get_current_user: the access token of a session names its user. */
  function CurrentUser(db: Db, env: Env, session: Id): (r: Result<Id, AuthError>)
    ensures r.Ok? ==>
      && Sessions.IsActive(db.sessions, session, env.now) && db.sessions[session].user == r.value
      && Accounts.Live(db.users, r.value) && db.users[r.value].status != Accounts.Disabled
  {
    var user := if session in db.sessions then db.sessions[session].user else 0;
    :- Check(Sessions.IsActive(db.sessions, session, env.now), Unauthorized);
    :- Check(Accounts.Live(db.users, user), Unauthorized);
    :- Check(user in db.users && db.users[user].status != Accounts.Disabled, AccountDisabled);
    Ok(user)
  }

  // ---- Registration and login ----------------------------------------------------------------

  /** `(name or "").strip() or fallback` */
  function NameOr(name: Option<string>, fallback: string): string {
    var s := if name.Some? then Strip(name.value) else "";
    if s != "" then s else fallback
  }

  function PersonalName(displayName: string): string { displayName + "'s Workspace" }

  function PersonalSeed(displayName: string): string { displayName + "-workspace" }

  /** What the generators of a registration yield: identifiers, slug fallbacks and the raw token. */
  datatype Generated = Generated(
    user: Id, personalOrg: Id, businessOrg: Id, token: Id, raw: string,
    personalSlug: Fallbacks, businessSlug: Fallbacks)

  /** Every account gets a personal workspace, a business account a second one. */
  function NewWorkspaces(ws: Workspaces.Workspaces, email: string, displayName: string, business: bool,
                         organizationName: Option<string>, g: Generated): Result<Workspaces.Workspaces, AuthError>
  {
    var name := NameOr(organizationName, displayName + "'s Team");
    var own :- Workspaces.Found(ws, g.personalOrg, PersonalName(displayName), PersonalSeed(displayName),
      g.personalSlug, true, email, g.user);
    if business then Workspaces.Found(own, g.businessOrg, name, name, g.businessSlug, false, email, g.user) else Ok(own)
  }

  function Register(db: Db, env: Env, email: string, password: string, displayName: string,
                    business: bool, organizationName: Option<string>, g: Generated): Outcome
  {
    var u := Accounts.User(email, displayName, Accounts.Enabled, false, Some(PasswordHash(password)), None, false);
    :- Check(Accounts.WithEmail(db.users, email) == {}, EmailAlreadyRegistered);
    var users :- Accounts.Insert(db.users, g.user, u);
    var all :- NewWorkspaces(db.workspaces, email, displayName, business, organizationName, g);
    var done :- IssueVerification(db.(users := users, workspaces := all), env, g.user, g.token, g.raw);
    Ok((done, Account(g.user)))
  }

  /** The end of every login: pending invitations are linked, then the session starts. */
  function StartSession(db: Db, env: Env, user: Id, session: Id, raw: string): Outcome
    requires user in db.users
  {
    IssueSession(db.(workspaces := Workspaces.Linked(db.workspaces, db.users[user].email, user)), env, user, session,
      raw)
  }

  ghost function Login(db: Db, env: Env, email: string, password: string, session: Id, raw: string): Outcome {
    var found :- ScalarOneOrNone(Accounts.WithEmail(db.users, email));
    if found.None? || found.value !in db.users then Err(InvalidCredentials) else
      var u := db.users[found.value];
      :- Check(u.password == Some(PasswordHash(password)), InvalidCredentials);
      :- Check(u.status != Accounts.Disabled, AccountDisabled);
      :- Check(u.emailVerified, EmailNotVerified);
      StartSession(db, env, found.value, session, raw)
  }

  /** The account behind a Google identity: the linked one, the one with the
      same address (which is linked), or a new one. */
  ghost function GoogleAccount(db: Db, sub: string, email: string, displayName: string, user: Id, org: Id,
                               slug: Fallbacks):
    (r: Result<(Db, Id), AuthError>)
    ensures r.Ok? ==> r.value.1 in r.value.0.users
  {
    var bySub :- ScalarOneOrNone(Accounts.WithSub(db.users, sub));
    if bySub.Some? && bySub.value in db.users then Ok((db, bySub.value)) else
      var byEmail :- ScalarOneOrNone(Accounts.WithEmail(db.users, email));
      if byEmail.Some? && byEmail.value in db.users then
        var users :- Accounts.Put(db.users, byEmail.value, db.users[byEmail.value].(googleSub := Some(sub)));
        Ok((db.(users := users), byEmail.value))
      else
        var u := Accounts.User(email, displayName, Accounts.Enabled, true, None, Some(sub), false);
        var users :- Accounts.Insert(db.users, user, u);
        var ws :- Workspaces.Found(db.workspaces, org, PersonalName(displayName), PersonalSeed(displayName), slug,
          true, email, user);
        Ok((db.(users := users, workspaces := ws), user))
  }

  /** login_or_register_with_google */
  ghost function GoogleLogin(db: Db, env: Env, sub: string, email: string, displayName: string,
                             user: Id, org: Id, slug: Fallbacks, session: Id, raw: string): Outcome
  {
    var account :- GoogleAccount(db, sub, email, displayName, user, org, slug);
    :- Check(account.0.users[account.1].status != Accounts.Disabled, AccountDisabled);
    StartSession(account.0, env, account.1, session, raw)
  }

  // ---- Calls of a signed-in user ----------------------------------------------------------------

  ghost function LinkGoogle(db: Db, env: Env, session: Id, sub: string): Outcome {
    var user :- CurrentUser(db, env, session);
    var other :- ScalarOneOrNone(Accounts.WithSub(db.users, sub));
    :- Check(other == None || other == Some(user), GoogleAccountAlreadyLinked);
    var users :- Accounts.Put(db.users, user, db.users[user].(googleSub := Some(sub)));
    Ok((db.(users := users), Account(user)))
  }

  function UnlinkGoogle(db: Db, env: Env, session: Id): Outcome {
    var user :- CurrentUser(db, env, session);
    :- Check(db.users[user].password.Some?, LastAuthMethod);
    var users :- Accounts.Put(db.users, user, db.users[user].(googleSub := None));
    Ok((db.(users := users), Account(user)))
  }

  function ChangePassword(db: Db, env: Env, session: Id, current: string, password: string): Outcome {
    var user :- CurrentUser(db, env, session);
    :- Check(db.users[user].password == Some(PasswordHash(current)), InvalidCredentials);
    var users :- Accounts.Put(db.users, user, db.users[user].(password := Some(PasswordHash(password))));
    Ok((db.(users := users, sessions := Sessions.After(db.sessions, Sessions.RevokeOthers(user, session), env.now)),
      Done))
  }

  function SetPassword(db: Db, env: Env, session: Id, password: string): Outcome {
    var user :- CurrentUser(db, env, session);
    :- Check(db.users[user].password.None?, PasswordAlreadyConfigured);
    var users :- Accounts.Put(db.users, user, db.users[user].(password := Some(PasswordHash(password))));
    Ok((db.(users := users), Done))
  }

  function UpgradeToBusiness(db: Db, env: Env, session: Id, name: Option<string>): Outcome {
    var user :- CurrentUser(db, env, session);
    var org := Workspaces.PersonalOf(db.workspaces, db.users[user].email);
    if org.None? || org.value !in db.workspaces.orgs then Err(NoPersonalWorkspace) else
      Ok((db.(workspaces := Workspaces.Converted(db.workspaces, org.value, NameOr(name, "My Team"))), Account(user)))
  }

  function DeleteAccount(db: Db, env: Env, session: Id, password: string): Outcome {
    var user :- CurrentUser(db, env, session);
    var u := db.users[user];
    :- Check(u.password == Some(PasswordHash(password)), InvalidCredentials);
    :- Check(!Workspaces.OwnsShared(db.workspaces, u.email), OwnerOfSharedWorkspace);
    var users :- Accounts.Put(db.users, user, u.(deleted := true));
    Ok((db.(
      users := users,
      workspaces := Workspaces.Removed(db.workspaces, Workspaces.OwnedOrgs(db.workspaces, u.email)),
      sessions := Sessions.After(db.sessions, Sessions.RevokeAll(user), env.now)), Done))
  }

  function Logout(db: Db, env: Env, session: Id): Outcome {
    Ok((db.(sessions := Sessions.After(db.sessions, Sessions.Revoke(session), env.now)), Done))
  }

  // ---- Calls that present a token ----------------------------------------------------------------

  ghost function Refresh(db: Db, env: Env, raw: string, newRaw: string): Outcome {
    var found :- ScalarOneOrNone(Sessions.WithHash(db.sessions, Digest(raw), env.now));
    if found.None? || found.value !in db.sessions then Err(InvalidToken) else
      var user := db.sessions[found.value].user;
      :- Check(Accounts.Live(db.users, user) && db.users[user].status != Accounts.Disabled, InvalidToken);
      :- Fresh(db, newRaw);
      var c := Sessions.Rotate(found.value, Digest(newRaw), env.now + env.refreshLifetime);
      Ok((db.(sessions := Sessions.After(db.sessions, c, env.now), issued := db.issued + {Digest(newRaw)}),
          TokenPair(found.value, newRaw)))
  }

  ghost function ResendVerification(db: Db, env: Env, email: string, token: Id, raw: string): Outcome {
    var found :- ScalarOneOrNone(Accounts.WithEmail(db.users, email));
    if found.None? || found.value !in db.users || db.users[found.value].emailVerified then Ok((db, Done)) else
      var done :- IssueVerification(db, env, found.value, token, raw);
      Ok((done, Done))
  }

  ghost function VerifyEmail(db: Db, env: Env, raw: string): Outcome {
    var found :- ScalarOneOrNone(OneTimeTokens.WithHash(db.verifications, Digest(raw), env.now));
    if found.None? || found.value !in db.verifications then Err(InvalidToken) else
      var user := db.verifications[found.value].user;
      :- Check(Accounts.Live(db.users, user), InvalidToken);
      var u := if user in db.users then db.users[user]
        else Accounts.User("", "", Accounts.Enabled, false, None, None, true);
      :- Check(!u.emailVerified, EmailAlreadyVerified);
      var status := if u.status == Accounts.Invited then Accounts.Enabled else u.status;
      var users :- Accounts.Put(db.users, user, u.(status := status, emailVerified := true));
      var c := OneTimeTokens.Redeem(found.value);
      Ok((db.(users := users, verifications := OneTimeTokens.After(db.verifications, c, env.now)), Account(user)))
  }

  /** create_password_reset_token */
  ghost function RequestReset(db: Db, env: Env, email: string, token: Id, raw: string): Outcome {
    var found :- ScalarOneOrNone(Accounts.WithEmail(db.users, email));
    if found.None? then Ok((db, Done)) else
      :- Fresh(db, raw);
      :- Check(token !in db.resets, IntegrityError);
      var c := OneTimeTokens.Issue(token, found.value, Digest(raw), env.now + RESET_LIFETIME);
      Ok((db.(resets := OneTimeTokens.After(db.resets, c, env.now), issued := db.issued + {Digest(raw)}),
        ResetLink(raw)))
  }

  ghost function ResetPassword(db: Db, env: Env, raw: string, password: string): Outcome {
    var found :- ScalarOneOrNone(OneTimeTokens.WithHash(db.resets, Digest(raw), env.now));
    if found.None? || found.value !in db.resets then Err(InvalidToken) else
      var user := db.resets[found.value].user;
      if !Accounts.Live(db.users, user) then Err(InvalidToken) else
        var users :- Accounts.Put(db.users, user, db.users[user].(password := Some(PasswordHash(password))));
        var c := OneTimeTokens.Redeem(found.value);
        Ok((db.(
          users := users,
          resets := OneTimeTokens.After(db.resets, c, env.now),
          sessions := Sessions.After(db.sessions, Sessions.RevokeAll(user), env.now)), Done))
  }

  // ---- Two changes made elsewhere -------------------------------------------------------------------

  /** invite_member: personal workspaces take no members. */
  ghost function AddMember(db: Db, org: Id, email: string, owner: bool): Outcome {
    var orgs := db.workspaces.orgs;
    :- Check(Workspaces.LiveOrg(orgs, org), NotFound);
    :- Check(org in orgs && !orgs[org].personal, Conflict);
    :- Check(!Workspaces.IsMember(db.workspaces, org, email), Conflict);
    var user :- ScalarOneOrNone(Accounts.WithEmail(db.users, email));
    var m := Workspaces.Membership(org, email, user, owner);
    Ok((db.(workspaces := db.workspaces.(members := db.workspaces.members + [m])), Done))
  }

  /** An administrator disables, enables or marks an account as invited. */
  function SetStatus(db: Db, user: Id, status: Accounts.Status): Outcome {
    if !Accounts.Live(db.users, user) then Err(NotFound) else
      var users :- Accounts.Put(db.users, user, db.users[user].(status := status));
      Ok((db.(users := users), Done))
  }

  // ---- Runs ---------------------------------------------------------------------------------------------

  datatype Call =
    | CallRegister(email: string, password: string, displayName: string, business: bool,
                   organizationName: Option<string>, generated: Generated)
    | CallLogin(email: string, password: string, session: Id, raw: string)
    | CallGoogleLogin(sub: string, email: string, displayName: string, user: Id, org: Id, slug: Fallbacks,
                      session: Id, raw: string)
    | CallLinkGoogle(session: Id, sub: string)
    | CallUnlinkGoogle(session: Id)
    | CallChangePassword(session: Id, current: string, password: string)
    | CallSetPassword(session: Id, password: string)
    | CallUpgrade(session: Id, name: Option<string>)
    | CallDeleteAccount(session: Id, password: string)
    | CallLogout(session: Id)
    | CallRefresh(raw: string, newRaw: string)
    | CallResend(email: string, token: Id, raw: string)
    | CallVerifyEmail(raw: string)
    | CallRequestReset(email: string, token: Id, raw: string)
    | CallResetPassword(raw: string, password: string)
    | CallAddMember(org: Id, email: string, owner: bool)
    | CallSetStatus(user: Id, status: Accounts.Status)

  ghost function Answer(db: Db, env: Env, c: Call): Outcome {
    match c
    case CallRegister(email, password, name, business, org, g) =>
      Register(db, env, email, password, name, business, org, g)
    case CallLogin(email, password, session, raw) => Login(db, env, email, password, session, raw)
    case CallGoogleLogin(sub, email, name, user, org, slug, session, raw) =>
      GoogleLogin(db, env, sub, email, name, user, org, slug, session, raw)
    case CallLinkGoogle(session, sub) => LinkGoogle(db, env, session, sub)
    case CallUnlinkGoogle(session) => UnlinkGoogle(db, env, session)
    case CallChangePassword(session, current, password) => ChangePassword(db, env, session, current, password)
    case CallSetPassword(session, password) => SetPassword(db, env, session, password)
    case CallUpgrade(session, name) => UpgradeToBusiness(db, env, session, name)
    case CallDeleteAccount(session, password) => DeleteAccount(db, env, session, password)
    case CallLogout(session) => Logout(db, env, session)
    case CallRefresh(raw, newRaw) => Refresh(db, env, raw, newRaw)
    case CallResend(email, token, raw) => ResendVerification(db, env, email, token, raw)
    case CallVerifyEmail(raw) => VerifyEmail(db, env, raw)
    case CallRequestReset(email, token, raw) => RequestReset(db, env, email, token, raw)
    case CallResetPassword(raw, password) => ResetPassword(db, env, raw, password)
    case CallAddMember(org, email, owner) => AddMember(db, org, email, owner)
    case CallSetStatus(user, status) => SetStatus(db, user, status)
  }

  /** get_db: commit on success, roll back on any exception. */
  ghost function Next(db: Db, env: Env, c: Call): Db {
    var r := Answer(db, env, c);
    if r.Ok? then r.value.0 else db
  }

  datatype Step = Step(env: Env, call: Call)

  ghost function Run(db: Db, steps: seq<Step>): Db {
    if steps == [] then db else
      Next(Run(db, steps[..|steps| - 1]), steps[|steps| - 1].env, steps[|steps| - 1].call)
  }

  /** The clock never goes back; it starts at `from` or later and has not passed `until`. */
  ghost predicate InOrder(from: int, steps: seq<Step>, until: int) {
    && from <= until
    && (forall i :: 0 <= i < |steps| ==> from <= steps[i].env.now <= until)
    && (forall i, j :: 0 <= i < j < |steps| ==> steps[i].env.now <= steps[j].env.now)
  }
}
