/** What single calls promise, and how calls fit together. */
module AccountFacts {
  import opened Outcomes
  import opened Credentials
  import opened Slug
  import opened Lifecycle
  import opened AccountMoves
  import opened AccountSafety
  import Accounts
  import Sessions
  import OneTimeTokens
  import Workspaces

  // ---- Who gets a session ------------------------------------------------------------------

  ghost predicate Entitled(rows: Accounts.UserTable, user: Id) {
    && Accounts.Live(rows, user)
    && rows[user].status != Accounts.Disabled
    && (rows[user].emailVerified || rows[user].googleSub.Some?)
  }

  lemma LoginEntitles(db: Db, env: Env, email: string, password: string, session: Id, raw: string)
    requires Login(db, env, email, password, session, raw).Ok?
    ensures
      var db' := Login(db, env, email, password, session, raw).value.0;
      session in db'.sessions && db'.sessions.Keys == db.sessions.Keys + {session}
        && Entitled(db'.users, db'.sessions[session].user)
  {
    OneOrNone(Accounts.WithEmail(db.users, email));
    hide ScalarOneOrNone, Workspaces.Linked;
    assert ScalarOneOrNone(Accounts.WithEmail(db.users, email)).value.value in Accounts.WithEmail(db.users, email);
  }

  lemma GoogleLoginEntitles(db: Db, env: Env, sub: string, email: string, name: string, user: Id, org: Id,
                            slug: Fallbacks, session: Id, raw: string)
    requires GoogleLogin(db, env, sub, email, name, user, org, slug, session, raw).Ok?
    ensures
      var db' := GoogleLogin(db, env, sub, email, name, user, org, slug, session, raw).value.0;
      session in db'.sessions && db'.sessions.Keys == db.sessions.Keys + {session}
        && Entitled(db'.users, db'.sessions[session].user)
  {
    var c := GoogleAccountMoves(db, sub, email, name, user, org, slug);
    hide GoogleAccount, Workspaces.Linked, Accounts.After, Accounts.Legal;
  }

  lemma OthersStartNoSession(db: Db, env: Env, c: Call)
    requires !c.CallLogin? && !c.CallGoogleLogin?
    ensures Next(db, env, c).sessions.Keys == db.sessions.Keys
  {
    hide CurrentUser, OneTimeTokens.After, ScalarOneOrNone, Accounts.WithEmail, Accounts.WithSub, Accounts.Put,
      Accounts.Insert, NewWorkspaces, Sessions.WithHash, OneTimeTokens.WithHash, Accounts.Live, Workspaces.Found,
      Workspaces.OwnedOrgs, Workspaces.OwnsShared, Workspaces.Removed, Workspaces.PersonalOf, Workspaces.IsMember,
      NameOr;
  }

  /** A session starts only for a live, enabled user who is verified or linked to Google. */
  lemma NewSessionIsEntitled(db: Db, env: Env, c: Call, id: Id)
    requires id in Next(db, env, c).sessions && id !in db.sessions
    ensures Entitled(Next(db, env, c).users, Next(db, env, c).sessions[id].user)
  {
    hide Entitled, Register, Login, GoogleLogin, LinkGoogle, UnlinkGoogle, ChangePassword, SetPassword,
      UpgradeToBusiness, DeleteAccount, Logout, Refresh, ResendVerification, VerifyEmail, RequestReset,
      ResetPassword, AddMember, SetStatus;
    match c
    case CallLogin(email, password, session, raw) => LoginEntitles(db, env, email, password, session, raw);
    case CallGoogleLogin(sub, email, name, user, org, slug, session, raw) =>
      GoogleLoginEntitles(db, env, sub, email, name, user, org, slug, session, raw);
    case _ => OthersStartNoSession(db, env, c);
  }

  // ---- Upgrading once ------------------------------------------------------------------------

  /** The address has an account but no personal workspace any more. */
  ghost predicate Settled(db: Db, email: string) {
    email in Emails(db.users) && Workspaces.NoPersonal(db.workspaces, email)
  }

  lemma NextKeepsSettled(db: Db, env: Env, c: Call, email: string)
    requires Inv(db) && Settled(db, email)
    ensures Settled(Next(db, env, c), email)
  {
    var gained := CallWorkspaces(db, env, c);
    NextKeepsInv(db, env, c);
    EmailsEvolve(db.users, Next(db, env, c).users);
    hide Next, Inv, Emails, Workspaces.Sound;
  }

  lemma {:induction false} RunKeepsSettled(db: Db, steps: seq<Step>, email: string)
    requires Inv(db) && Settled(db, email)
    ensures Settled(Run(db, steps), email)
    decreases |steps|
  {
    hide Inv, Next, Settled;
    if steps != [] {
      var before, last := steps[..|steps| - 1], steps[|steps| - 1];
      RunKeepsSettled(db, before, email);
      RunKeepsInv(db, before);
      NextKeepsSettled(Run(db, before), last.env, last.call, email);
    }
  }

  lemma UpgradeSettles(db: Db, env: Env, session: Id, name: Option<string>)
    requires Inv(db) && UpgradeToBusiness(db, env, session, name).Ok?
    ensures
      var db1 := UpgradeToBusiness(db, env, session, name).value.0;
      && Inv(db1) && db1.users == db.users && session in db.sessions
      && db.sessions[session].user in db.users && Settled(db1, db.users[db.sessions[session].user].email)
  {
    NextKeepsInv(db, env, CallUpgrade(session, name));
    assert Answer(db, env, CallUpgrade(session, name)) == UpgradeToBusiness(db, env, session, name);
    hide CurrentUser, Workspaces.PersonalOf, Workspaces.Converted, Workspaces.NoPersonal, NameOr;
    var email := db.users[db.sessions[session].user].email;
    Workspaces.UpgradeLeavesNone(db.workspaces, email, NameOr(name, "My Team"));
    hide Inv;
  }

  /** A second upgrade of the same user fails, whatever happens in between. */
  lemma SecondUpgradeFails(db: Db, env: Env, session: Id, name: Option<string>, steps: seq<Step>,
                           env': Env, session': Id, name': Option<string>)
    requires Inv(db) && UpgradeToBusiness(db, env, session, name).Ok? && session in db.sessions
    requires
      var end := Run(UpgradeToBusiness(db, env, session, name).value.0, steps);
      session' in end.sessions && end.sessions[session'].user == db.sessions[session].user
    ensures
      var end := Run(UpgradeToBusiness(db, env, session, name).value.0, steps);
      var current := CurrentUser(end, env', session');
      UpgradeToBusiness(end, env', session', name') == Err(if current.Ok? then NoPersonalWorkspace else current.error)
  {
    var db1 := UpgradeToBusiness(db, env, session, name).value.0;
    var end := Run(db1, steps);
    var user := db.sessions[session].user;
    UpgradeSettles(db, env, session, name);
    RunKeepsSettled(db1, steps, db.users[user].email);
    RunKeepsInv(db1, steps);
    assert end.users[user].email == db.users[user].email;
    SettledHasNone(end, db.users[user].email);
    hide Run, Inv, Settled, Workspaces.PersonalOf;
  }

  lemma SettledHasNone(db: Db, email: string)
    requires Inv(db) && Settled(db, email)
    ensures Workspaces.PersonalOf(db.workspaces, email) == None
  {
    Workspaces.PersonalOfMeaning(db.workspaces, email);
    hide Workspaces.PersonalOf, Workspaces.Sound;
  }

  lemma RegisterShape(db: Db, env: Env, email: string, password: string, name: string, business: bool,
                      org: Option<string>, g: Generated)
    requires Register(db, env, email, password, name, business, org, g).Ok?
    ensures
      var ws, ws' := db.workspaces, Register(db, env, email, password, name, business, org, g).value.0.workspaces;
      && |ws'.members| > |ws.members|
      && ws'.members[|ws.members|] == Workspaces.Membership(g.personalOrg, email, Some(g.user), true)
      && g.personalOrg in ws'.orgs && ws'.orgs[g.personalOrg].personal && !ws'.orgs[g.personalOrg].deleted
  {
    hide Workspaces.SlugFor, Workspaces.SlugFits, NameOr, IssueVerification, Accounts.Insert, Accounts.WithEmail;
    var all := NewWorkspaces(db.workspaces, email, name, business, org, g).value;
    var u := Accounts.User(email, name, Accounts.Enabled, false, Some(PasswordHash(password)), None, false);
    var before := db.(users := Accounts.Insert(db.users, g.user, u).value, workspaces := all);
    VerificationIssued(before, env, g.user, g.token, g.raw);
    assert Register(db, env, email, password, name, business, org, g).value.0.workspaces == all;
  }

  /** Registration gives the account the personal workspace it can upgrade. */
  lemma RegisterGivesPersonal(db: Db, env: Env, email: string, password: string, name: string, business: bool,
                              org: Option<string>, g: Generated)
    requires Inv(db) && Register(db, env, email, password, name, business, org, g).Ok?
    ensures
      var db1 := Register(db, env, email, password, name, business, org, g).value.0;
      Workspaces.PersonalOf(db1.workspaces, email) == Some(g.personalOrg)
  {
    hide Inv, Register, Workspaces.PersonalOf, Workspaces.PersonalFrom, Emails;
    RegisterShape(db, env, email, password, name, business, org, g);
    RegisterWorkspaces(db, env, email, password, name, business, org, g);
    var ws := Register(db, env, email, password, name, business, org, g).value.0.workspaces;
    Workspaces.PersonalOfMeaning(ws, email);
    assert Workspaces.PersonalAt(ws, |db.workspaces.members|);
  }

  // ---- One registration an address ------------------------------------------------------------

  lemma RunKeepsEmails(db: Db, steps: seq<Step>)
    requires Inv(db)
    ensures Emails(db.users) <= Emails(Run(db, steps).users)
  {
    RunKeepsInv(db, steps);
    EmailsEvolve(db.users, Run(db, steps).users);
    hide Run, Inv;
  }

  /** An address registers at most once, ever. While its account lives the
      service says so; after the account is deleted the service's own check
      passes and the database refuses the row. */
  lemma AddressRegistersOnce(db: Db, steps: seq<Step>, env: Env, email: string, password: string, name: string,
                             business: bool, org: Option<string>, g: Generated)
    requires Inv(db) && email in Emails(db.users)
    ensures
      var end := Run(db, steps);
      Register(end, env, email, password, name, business, org, g)
      == Err(if Accounts.WithEmail(end.users, email) != {} then EmailAlreadyRegistered else IntegrityError)
  {
    RunKeepsEmails(db, steps);
    var end := Run(db, steps);
    var i :| i in end.users && end.users[i].email == email;
    hide Run, Inv, NewWorkspaces, IssueVerification, Emails, Accounts.WithEmail;
  }

  /** No deleted workspace sits on the slug. */
  predicate NotBurnt(ws: Workspaces.Workspaces, slug: string) {
    forall i :: i in ws.orgs && ws.orgs[i].deleted ==> ws.orgs[i].slug != slug
  }

  /** The workspaces after the personal one of a registration. */
  function WithPersonal(ws: Workspaces.Workspaces, email: string, name: string, g: Generated): Workspaces.Workspaces {
    var slug := Workspaces.SlugFor(ws, PersonalSeed(name), g.personalSlug);
    Workspaces.Founded(ws, g.personalOrg, PersonalName(name), slug, true, email, g.user)
  }

  /** A registration with unused identifiers succeeds exactly when no account,
      live or deleted, has the address and no slug chosen is that of a deleted workspace. */
  lemma RegistrationSucceedsIff(db: Db, env: Env, email: string, password: string, name: string, business: bool,
                                org: Option<string>, g: Generated)
    requires g.user !in db.users && g.personalOrg !in db.workspaces.orgs
    requires g.businessOrg !in db.workspaces.orgs && g.businessOrg != g.personalOrg
    requires g.token !in db.verifications && Digest(g.raw) !in db.issued
    ensures
      var r := Register(db, env, email, password, name, business, org, g);
      var own := WithPersonal(db.workspaces, email, name, g);
      && (r.Ok? <==>
            && email !in Emails(db.users)
            && NotBurnt(db.workspaces, Workspaces.SlugFor(db.workspaces, PersonalSeed(name), g.personalSlug))
            && (business ==> NotBurnt(own, Workspaces.SlugFor(own, NameOr(org, name + "'s Team"), g.businessSlug))))
      && (r.Err? ==> r.error == EmailAlreadyRegistered || r.error == IntegrityError)
  {
    SlugIsFree(db.workspaces, PersonalSeed(name), g.personalSlug);
    SlugIsFree(WithPersonal(db.workspaces, email, name, g), NameOr(org, name + "'s Team"), g.businessSlug);
    EmailsMeaning(db.users, g.user,
      Accounts.User(email, name, Accounts.Enabled, false, Some(PasswordHash(password)), None, false));
    hide Emails, Workspaces.SlugFor, Workspaces.LiveSlugs, Workspaces.SlugFits, Accounts.Fits, Accounts.WithEmail,
      NameOr, OneTimeTokens.After, NotBurnt, PersonalName, PersonalSeed;
  }

  lemma SlugIsFree(ws: Workspaces.Workspaces, seed: string, tokens: Fallbacks)
    ensures
      var slug := Workspaces.SlugFor(ws, seed, tokens);
      Workspaces.SlugFits(ws.orgs, slug) <==> NotBurnt(ws, slug)
  {
    var slug := Workspaces.SlugFor(ws, seed, tokens);
    assert slug !in Workspaces.LiveSlugs(ws.orgs);
    hide Workspaces.SlugFor;
    forall i | i in ws.orgs && !ws.orgs[i].deleted ensures ws.orgs[i].slug != slug {
      assert Workspaces.LiveOrg(ws.orgs, i);
      assert ws.orgs[i].slug in Workspaces.LiveSlugs(ws.orgs);
    }
  }

  lemma EmailsMeaning(rows: Accounts.UserTable, id: Id, u: Accounts.User)
    requires id !in rows && u.googleSub == None
    ensures Accounts.Fits(rows, id, u) <==> u.email !in Emails(rows)
    ensures Accounts.WithEmail(rows, u.email) != {} ==> u.email in Emails(rows)
  {
    if u.email in Emails(rows) { var i :| i in rows && rows[i].email == u.email; }
    forall i | i in rows ensures rows[i].email in Emails(rows) {}
    if Accounts.WithEmail(rows, u.email) != {} { var i :| i in Accounts.WithEmail(rows, u.email); }
  }

  // ---- Deleting an account -----------------------------------------------------------------------

  /** Deletion takes away every workspace the user owns, and only those; none of
      them had another member. */
  lemma DeletionIsConfined(db: Db, env: Env, session: Id, password: string, org: Id)
    requires DeleteAccount(db, env, session, password).Ok? && session in db.sessions
    requires db.sessions[session].user in db.users && org in db.workspaces.orgs
    ensures
      var db' := DeleteAccount(db, env, session, password).value.0;
      var email := db.users[db.sessions[session].user].email;
      && db'.users[db.sessions[session].user].deleted
      && org in db'.workspaces.orgs
      && (org in Workspaces.OwnedOrgs(db.workspaces, email) ==>
            db'.workspaces.orgs[org].deleted && !Workspaces.Shared(db.workspaces, org, email))
      && (org !in Workspaces.OwnedOrgs(db.workspaces, email) ==> db'.workspaces.orgs[org] == db.workspaces.orgs[org])
      && Workspaces.OwnedOrgs(db'.workspaces, email) == {}
  {
    var email := db.users[db.sessions[session].user].email;
    var db' := DeleteAccount(db, env, session, password).value.0;
    assert db'.workspaces == Workspaces.Removed(db.workspaces, Workspaces.OwnedOrgs(db.workspaces, email))
      && !Workspaces.OwnsShared(db.workspaces, email) by {
      hide CurrentUser, Sessions.After, Workspaces.Removed, Workspaces.OwnedOrgs, Workspaces.OwnsShared;
    }
    assert db'.users[db.sessions[session].user].deleted;
    hide DeleteAccount;
    forall k | 0 <= k < |db'.workspaces.members| ensures !Workspaces.OwnsAt(db'.workspaces, email, k) {
      if Workspaces.OwnsAt(db.workspaces, email, k) {
        assert db.workspaces.members[k].org in Workspaces.OwnedOrgs(db.workspaces, email);
      }
    }
  }
}
