/** What holds in every state the account state machine can reach, and what
    stays true along every run. */
module AccountSafety {
  import opened Outcomes
  import opened Credentials
  import opened Slug
  import opened Lifecycle
  import opened AccountMoves
  import Accounts
  import Sessions
  import OneTimeTokens
  import Workspaces

  // ---- The invariant -----------------------------------------------------------------------

  /** Every address that has an account, deleted or not. */
  function Emails(rows: Accounts.UserTable): set<string> { set i | i in rows :: rows[i].email }

  /** Every personal workspace belongs to an address with an account. */
  ghost predicate Anchored(db: Db) {
    forall k :: 0 <= k < |db.workspaces.members| && Workspaces.PersonalAt(db.workspaces, k) ==>
      db.workspaces.members[k].email in Emails(db.users)
  }

  ghost predicate Inv(db: Db) {
    && Accounts.Sound(db.users)
    && Sessions.TokensApart(db.sessions, db.issued)
    && OneTimeTokens.OneEach(db.verifications, db.issued)
    && OneTimeTokens.OneEach(db.resets, db.issued)
    && Workspaces.Sound(db.workspaces)
    && Anchored(db)
  }

  /** The workspaces stay sound, and only an address new to the system gains a personal one. */
  ghost predicate WorkspaceStep(db: Db, db': Db, email: Option<string>) {
    && Workspaces.Sound(db'.workspaces)
    && Workspaces.PersonalFrom(db.workspaces, db'.workspaces, email)
    && (email.Some? ==> email.value !in Emails(db.users) && email.value in Emails(db'.users))
  }

  lemma PersonalFromTrans(a: Workspaces.Workspaces, b: Workspaces.Workspaces, c: Workspaces.Workspaces,
                          email: Option<string>)
    requires Workspaces.PersonalFrom(a, b, email) && Workspaces.PersonalFrom(b, c, None)
    ensures Workspaces.PersonalFrom(a, c, email)
  {
  }

  lemma NewAddress(db: Db, id: Id, u: Accounts.User)
    requires Anchored(db) && Accounts.Insert(db.users, id, u).Ok?
    ensures u.email !in Emails(db.users) && u.email in Emails(db.users[id := u])
    ensures Workspaces.NoPersonal(db.workspaces, u.email)
  {
    assert db.users[id := u][id].email == u.email;
  }

  lemma NewWorkspacesKeep(ws: Workspaces.Workspaces, email: string, name: string, business: bool, org: Option<string>,
                          g: Generated)
    requires Workspaces.Sound(ws) && Workspaces.NoPersonal(ws, email)
    requires NewWorkspaces(ws, email, name, business, org, g).Ok?
    ensures Workspaces.Sound(NewWorkspaces(ws, email, name, business, org, g).value)
    ensures Workspaces.PersonalFrom(ws, NewWorkspaces(ws, email, name, business, org, g).value, Some(email))
  {
    hide Workspaces.Found, Workspaces.Sound, Workspaces.PersonalFrom, NameOr, PersonalName, PersonalSeed;
    var display, seed := PersonalName(name), PersonalSeed(name);
    Workspaces.FoundKeeps(ws, g.personalOrg, display, seed, g.personalSlug, true, email, g.user);
    if business {
      var own := Workspaces.Found(ws, g.personalOrg, display, seed, g.personalSlug, true, email, g.user).value;
      var n := NameOr(org, name + "'s Team");
      Workspaces.FoundKeeps(own, g.businessOrg, n, n, g.businessSlug, false, email, g.user);
      PersonalFromTrans(ws, own, NewWorkspaces(ws, email, name, business, org, g).value, Some(email));
    }
  }

  lemma RegisterWorkspaces(db: Db, env: Env, email: string, password: string, name: string, business: bool,
                           org: Option<string>, g: Generated)
    requires Inv(db) && Register(db, env, email, password, name, business, org, g).Ok?
    ensures WorkspaceStep(db, Register(db, env, email, password, name, business, org, g).value.0, Some(email))
  {
    NewAddress(db, g.user,
      Accounts.User(email, name, Accounts.Enabled, false, Some(PasswordHash(password)), None, false));
    hide Emails, NewWorkspaces, Workspaces.Sound, Workspaces.PersonalFrom, Workspaces.NoPersonal, Anchored,
      Accounts.Sound, Sessions.TokensApart, OneTimeTokens.OneEach, OneTimeTokens.After;
    NewWorkspacesKeep(db.workspaces, email, name, business, org, g);
  }

  lemma LoginWorkspaces(db: Db, env: Env, email: string, password: string, session: Id, raw: string)
    requires Inv(db) && Login(db, env, email, password, session, raw).Ok?
    ensures WorkspaceStep(db, Login(db, env, email, password, session, raw).value.0, None)
  {
    var user := ScalarOneOrNone(Accounts.WithEmail(db.users, email)).value.value;
    Workspaces.LinkedKeeps(db.workspaces, db.users[user].email, user);
    hide ScalarOneOrNone, Accounts.WithEmail, Emails, Workspaces.Linked, Workspaces.Sound, Workspaces.PersonalFrom,
      Anchored, Accounts.Sound, Sessions.TokensApart, OneTimeTokens.OneEach, Sessions.After;
  }

  lemma GoogleAccountWorkspaces(db: Db, sub: string, email: string, name: string, user: Id, org: Id, slug: Fallbacks)
    returns (gained: Option<string>)
    requires Inv(db) && GoogleAccount(db, sub, email, name, user, org, slug).Ok?
    ensures WorkspaceStep(db, GoogleAccount(db, sub, email, name, user, org, slug).value.0, gained)
  {
    var u := Accounts.User(email, name, Accounts.Enabled, true, None, Some(sub), false);
    if Accounts.Insert(db.users, user, u).Ok? { NewAddress(db, user, u); }
    hide Workspaces.NoPersonal;
    Untouched(db, db);
    hide Inv, Emails, Workspaces.Found, Workspaces.Sound, Workspaces.PersonalFrom, ScalarOneOrNone,
      Accounts.WithEmail, Accounts.WithSub, Accounts.Fits;
    gained := None;
    var bySub := ScalarOneOrNone(Accounts.WithSub(db.users, sub)).value;
    if !(bySub.Some? && bySub.value in db.users) {
      var byEmail := ScalarOneOrNone(Accounts.WithEmail(db.users, email)).value;
      if !(byEmail.Some? && byEmail.value in db.users) {
        gained := Some(email);
        FoundPersonal(db, org, name, slug, email, user);
      }
    }
  }

  lemma FoundPersonal(db: Db, org: Id, name: string, slug: Fallbacks, email: string, user: Id)
    requires Inv(db) && Workspaces.NoPersonal(db.workspaces, email)
    ensures
      var r := Workspaces.Found(db.workspaces, org, PersonalName(name), PersonalSeed(name), slug, true, email, user);
      r.Ok? ==> Workspaces.Sound(r.value) && Workspaces.PersonalFrom(db.workspaces, r.value, Some(email))
  {
    hide Workspaces.Found, Workspaces.PersonalFrom;
    if Workspaces.Found(db.workspaces, org, PersonalName(name), PersonalSeed(name), slug, true, email, user).Ok? {
      Workspaces.FoundKeeps(db.workspaces, org, PersonalName(name), PersonalSeed(name), slug, true, email, user);
    }
  }

  lemma GoogleLoginWorkspaces(db: Db, env: Env, sub: string, email: string, name: string, user: Id, org: Id,
                              slug: Fallbacks, session: Id, raw: string)
    returns (gained: Option<string>)
    requires Inv(db) && GoogleLogin(db, env, sub, email, name, user, org, slug, session, raw).Ok?
    ensures WorkspaceStep(db, GoogleLogin(db, env, sub, email, name, user, org, slug, session, raw).value.0, gained)
  {
    gained := GoogleAccountWorkspaces(db, sub, email, name, user, org, slug);
    hide GoogleAccount, Emails, Workspaces.Linked, Workspaces.Sound, Workspaces.PersonalFrom, Inv, Sessions.After;
    var account := GoogleAccount(db, sub, email, name, user, org, slug).value;
    Workspaces.LinkedKeeps(account.0.workspaces, account.0.users[account.1].email, account.1);
    PersonalFromTrans(db.workspaces, account.0.workspaces,
      Workspaces.Linked(account.0.workspaces, account.0.users[account.1].email, account.1), gained);
  }

  lemma UpgradeWorkspaces(db: Db, env: Env, session: Id, name: Option<string>)
    requires Inv(db) && UpgradeToBusiness(db, env, session, name).Ok?
    ensures WorkspaceStep(db, UpgradeToBusiness(db, env, session, name).value.0, None)
  {
    hide CurrentUser, Workspaces.PersonalOf, Workspaces.Converted, Workspaces.Sound, Workspaces.PersonalFrom, Emails;
    var user := CurrentUser(db, env, session).value;
    Workspaces.ConvertedKeeps(db.workspaces, Workspaces.PersonalOf(db.workspaces, db.users[user].email).value,
      NameOr(name, "My Team"));
  }

  lemma DeleteWorkspaces(db: Db, env: Env, session: Id, password: string)
    requires Inv(db) && DeleteAccount(db, env, session, password).Ok?
    ensures WorkspaceStep(db, DeleteAccount(db, env, session, password).value.0, None)
  {
    hide CurrentUser, Workspaces.OwnsShared, Workspaces.OwnedOrgs, Workspaces.Removed, Workspaces.Sound,
      Workspaces.PersonalFrom, Emails, Sessions.After;
    var user := CurrentUser(db, env, session).value;
    Workspaces.RemovedKeeps(db.workspaces, Workspaces.OwnedOrgs(db.workspaces, db.users[user].email));
  }

  lemma AddMemberWorkspaces(db: Db, org: Id, email: string, owner: bool)
    requires Inv(db) && AddMember(db, org, email, owner).Ok?
    ensures WorkspaceStep(db, AddMember(db, org, email, owner).value.0, None)
  {
    hide Workspaces.IsMember, Workspaces.Sound, Workspaces.PersonalFrom, Emails, ScalarOneOrNone, Accounts.WithEmail;
    var user := ScalarOneOrNone(Accounts.WithEmail(db.users, email)).value;
    Workspaces.AddedKeeps(db.workspaces, Workspaces.Membership(org, email, user, owner));
  }

  lemma Untouched(db: Db, db': Db)
    requires Inv(db) && db'.workspaces == db.workspaces
    ensures WorkspaceStep(db, db', None)
  {
    hide Workspaces.Sound;
  }

  /** The remaining calls leave the workspaces alone. */
  lemma OthersUntouched(db: Db, env: Env, c: Call)
    requires !c.CallRegister? && !c.CallLogin? && !c.CallGoogleLogin? && !c.CallUpgrade? && !c.CallDeleteAccount?
      && !c.CallAddMember?
    ensures Next(db, env, c).workspaces == db.workspaces
  {
    hide CurrentUser, Sessions.After, OneTimeTokens.After, ScalarOneOrNone, Accounts.WithEmail, Accounts.WithSub,
      Accounts.Put, Sessions.WithHash, OneTimeTokens.WithHash, Accounts.Live;
  }

  lemma CallWorkspaces(db: Db, env: Env, c: Call) returns (gained: Option<string>)
    requires Inv(db)
    ensures WorkspaceStep(db, Next(db, env, c), gained)
  {
    gained := None;
    Untouched(db, db);
    hide Inv, WorkspaceStep, Register, Login, GoogleLogin, LinkGoogle, UnlinkGoogle, ChangePassword, SetPassword,
      UpgradeToBusiness, DeleteAccount, Logout, Refresh, ResendVerification, VerifyEmail, RequestReset,
      ResetPassword, AddMember, SetStatus;
    if Answer(db, env, c).Ok? {
      match c {
        case CallRegister(email, password, name, business, org, g) =>
          RegisterWorkspaces(db, env, email, password, name, business, org, g);
          gained := Some(email);
        case CallLogin(email, password, session, raw) => LoginWorkspaces(db, env, email, password, session, raw);
        case CallGoogleLogin(sub, email, name, user, org, slug, session, raw) =>
          gained := GoogleLoginWorkspaces(db, env, sub, email, name, user, org, slug, session, raw);
        case CallUpgrade(session, name) => UpgradeWorkspaces(db, env, session, name);
        case CallDeleteAccount(session, password) => DeleteWorkspaces(db, env, session, password);
        case CallAddMember(org, email, owner) => AddMemberWorkspaces(db, org, email, owner);
        case _ =>
          OthersUntouched(db, env, c);
          Untouched(db, Next(db, env, c));
      }
    }
  }

  lemma EmailsEvolve(rows: Accounts.UserTable, rows': Accounts.UserTable)
    requires Accounts.Evolves(rows, rows')
    ensures Emails(rows) <= Emails(rows')
  {
    forall e | e in Emails(rows) ensures e in Emails(rows') {
      var i :| i in rows && rows[i].email == e;
      assert rows'[i].email == e;
    }
  }

  lemma NextKeepsInv(db: Db, env: Env, c: Call)
    requires Inv(db)
    ensures Inv(Next(db, env, c)) && Accounts.Evolves(db.users, Next(db, env, c).users)
  {
    hide Next, Answer, Explained;
    var db' := Next(db, env, c);
    var m := CallMoves(db, env, c);
    var gained := CallWorkspaces(db, env, c);
    Accounts.KeepsSound(db.users, m.user);
    Accounts.ChangeEvolves(db.users, m.user);
    Sessions.KeepsTokensApart(db.sessions, db.issued, m.session, env.now, db'.issued);
    OneTimeTokens.KeepsOneEach(db.verifications, db.issued, m.verification, env.now, db'.issued);
    OneTimeTokens.KeepsOneEach(db.resets, db.issued, m.reset, env.now, db'.issued);
    EmailsEvolve(db.users, db'.users);
    hide Accounts.Sound, Accounts.Evolves, Sessions.TokensApart, OneTimeTokens.OneEach, Workspaces.Sound, Emails;
  }

  /** Every state a run reaches from the empty database satisfies the invariant. */
  lemma {:induction false} RunKeepsInv(db: Db, steps: seq<Step>)
    requires Inv(db)
    ensures Inv(Run(db, steps)) && Accounts.Evolves(db.users, Run(db, steps).users)
    decreases |steps|
  {
    hide Inv, Next;
    if steps != [] {
      var before, last := steps[..|steps| - 1], steps[|steps| - 1];
      RunKeepsInv(db, before);
      NextKeepsInv(Run(db, before), last.env, last.call);
    }
  }

  lemma ReachableIsSound(steps: seq<Step>)
    ensures Inv(Run(EMPTY, steps))
  {
    assert Inv(EMPTY);
    hide *;
    RunKeepsInv(EMPTY, steps);
  }

  // ---- The same, call by call --------------------------------------------------------------------

  lemma AnswerKeepsInv(db: Db, env: Env, c: Call, r: Outcome)
    requires Inv(db) && r == Answer(db, env, c) && r.Ok?
    ensures Inv(r.value.0)
  {
    hide Inv, Answer;
    NextKeepsInv(db, env, c);
  }

  lemma RegisterKeepsInv(db: Db, env: Env, email: string, password: string, name: string, business: bool,
                         org: Option<string>, g: Generated)
    requires Inv(db) && Register(db, env, email, password, name, business, org, g).Ok?
    ensures Inv(Register(db, env, email, password, name, business, org, g).value.0)
  {
    hide Inv, Register;
    AnswerKeepsInv(db, env, CallRegister(email, password, name, business, org, g),
      Register(db, env, email, password, name, business, org, g));
  }

  lemma VerifyKeepsInv(db: Db, env: Env, raw: string)
    requires Inv(db) && VerifyEmail(db, env, raw).Ok?
    ensures Inv(VerifyEmail(db, env, raw).value.0)
  {
    hide Inv, VerifyEmail;
    AnswerKeepsInv(db, env, CallVerifyEmail(raw), VerifyEmail(db, env, raw));
  }

  lemma ResetKeepsInv(db: Db, env: Env, raw: string, password: string)
    requires Inv(db) && ResetPassword(db, env, raw, password).Ok?
    ensures Inv(ResetPassword(db, env, raw, password).value.0)
  {
    hide Inv, ResetPassword;
    AnswerKeepsInv(db, env, CallResetPassword(raw, password), ResetPassword(db, env, raw, password));
  }

  lemma RefreshKeepsInv(db: Db, env: Env, raw: string, newRaw: string)
    requires Inv(db) && Refresh(db, env, raw, newRaw).Ok?
    ensures Inv(Refresh(db, env, raw, newRaw).value.0)
  {
    hide Inv, Refresh;
    AnswerKeepsInv(db, env, CallRefresh(raw, newRaw), Refresh(db, env, raw, newRaw));
  }
}
