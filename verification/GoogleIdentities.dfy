/** When Google sign-in and linking succeed, and what deleting an account does
    to its Google identity. */
module GoogleIdentities {
  import opened Outcomes
  import opened Credentials
  import opened Slug
  import opened Lifecycle
  import opened AccountSafety
  import AccountEffects
  import AccountFacts
  import AccountPaths
  import Accounts
  import Workspaces

  /** Some row, live or deleted, holds the identity. */
  ghost predicate Held(rows: Accounts.UserTable, sub: string) {
    exists i :: i in rows && rows[i].googleSub == Some(sub)
  }

  // ---- Sign-in -------------------------------------------------------------------------------

  lemma LinkFits(rows: Accounts.UserTable, user: Id, sub: string)
    requires Accounts.Sound(rows) && Accounts.Live(rows, user) && Accounts.WithSub(rows, sub) == {}
    ensures Accounts.Fits(rows, user, rows[user].(googleSub := Some(sub))) <==> !Held(rows, sub)
  {
    if i :| i in rows && rows[i].googleSub == Some(sub) {
      assert i == user ==> user in Accounts.WithSub(rows, sub);
    }
  }

  /** An unlinked identity that shows the address of a live account is linked to
      it, unless some deleted account holds the identity. */
  lemma AddressIsLinked(db: Db, user: Id, sub: string, email: string, name: string, id: Id, org: Id, slug: Fallbacks)
    requires Inv(db) && Accounts.WithSub(db.users, sub) == {}
    requires Accounts.Live(db.users, user) && db.users[user].email == email
    ensures GoogleAccount(db, sub, email, name, id, org, slug)
            == if Held(db.users, sub) then Err(IntegrityError)
               else Ok((db.(users := db.users[user := db.users[user].(googleSub := Some(sub))]), user))
  {
    AccountPaths.FoundUser(db.users, user);
    OneOrNone(Accounts.WithSub(db.users, sub));
    LinkFits(db.users, user, sub);
    hide Inv, ScalarOneOrNone, Accounts.WithSub, Accounts.WithEmail, Accounts.Fits, Workspaces.Found, Held;
  }

  lemma NewFits(rows: Accounts.UserTable, id: Id, u: Accounts.User)
    requires id !in rows && u.googleSub.Some?
    ensures Accounts.Fits(rows, id, u) <==> u.email !in Emails(rows) && !Held(rows, u.googleSub.value)
  {
    if u.email in Emails(rows) { var i :| i in rows && rows[i].email == u.email; }
    if Held(rows, u.googleSub.value) { var i :| i in rows && rows[i].googleSub == Some(u.googleSub.value); }
    forall i | i in rows ensures rows[i].email in Emails(rows) {}
  }

  /** The slug that a first sign-in gives its workspace. */
  function NewSlug(db: Db, name: string, slug: Fallbacks): string {
    Workspaces.SlugFor(db.workspaces, PersonalSeed(name), slug)
  }

  /** An unknown identity with an unknown address gets an account unless a
      deleted account has one of them or a deleted workspace has the slug. */
  lemma NewAccountIff(db: Db, sub: string, email: string, name: string, id: Id, org: Id, slug: Fallbacks)
    requires Accounts.WithSub(db.users, sub) == {} && Accounts.WithEmail(db.users, email) == {}
    requires id !in db.users && org !in db.workspaces.orgs
    ensures
      var r := GoogleAccount(db, sub, email, name, id, org, slug);
      && (r.Ok? <==> !Held(db.users, sub) && email !in Emails(db.users)
                     && AccountFacts.NotBurnt(db.workspaces, NewSlug(db, name, slug)))
      && (r.Err? ==> r.error == IntegrityError)
      && (r.Ok? ==> r.value.1 == id && r.value.0.users[id].status == Accounts.Enabled)
      && (r.Ok? ==> r.value.0 == db.(users := r.value.0.users, workspaces := r.value.0.workspaces))
  {
    var u := Accounts.User(email, name, Accounts.Enabled, true, None, Some(sub), false);
    OneOrNone(Accounts.WithSub(db.users, sub));
    OneOrNone(Accounts.WithEmail(db.users, email));
    NewFits(db.users, id, u);
    AccountFacts.SlugIsFree(db.workspaces, PersonalSeed(name), slug);
    hide ScalarOneOrNone, Accounts.WithSub, Accounts.WithEmail, Accounts.Fits, Held, Emails, AccountFacts.NotBurnt,
      Workspaces.SlugFor, Workspaces.SlugFits, PersonalName, PersonalSeed;
  }

  /** The sign-in finds an account that may be used, or may make one. */
  ghost predicate Admitted(db: Db, sub: string, email: string, name: string, slug: Fallbacks) {
    if Accounts.WithSub(db.users, sub) != {} then
      exists i :: i in Accounts.WithSub(db.users, sub) && db.users[i].status != Accounts.Disabled
    else if Accounts.WithEmail(db.users, email) != {} then
      && !Held(db.users, sub)
      && exists i :: i in Accounts.WithEmail(db.users, email) && db.users[i].status != Accounts.Disabled
    else
      && !Held(db.users, sub) && email !in Emails(db.users)
      && AccountFacts.NotBurnt(db.workspaces, NewSlug(db, name, slug))
  }

  lemma SessionStarts(db: Db, env: Env, account: (Db, Id), session: Id, raw: string)
    requires account.1 in account.0.users
      && account.0 == db.(users := account.0.users, workspaces := account.0.workspaces)
    requires session !in db.sessions && Digest(raw) !in db.issued
    ensures StartSession(account.0, env, account.1, session, raw).Ok?
  {
    hide Workspaces.Linked;
  }

  lemma Resolves(db: Db, sub: string, email: string, name: string, id: Id, org: Id, slug: Fallbacks)
    requires Inv(db) && id !in db.users && org !in db.workspaces.orgs
    ensures
      var r := GoogleAccount(db, sub, email, name, id, org, slug);
      && (r.Ok? && r.value.0.users[r.value.1].status != Accounts.Disabled <==> Admitted(db, sub, email, name, slug))
      && (r.Ok? ==> r.value.0 == db.(users := r.value.0.users, workspaces := r.value.0.workspaces))
      && (r.Err? ==> r.error == IntegrityError)
  {
    Accounts.LookupsAreUnambiguous(db.users, email, sub);
    OneOrNone(Accounts.WithSub(db.users, sub));
    OneOrNone(Accounts.WithEmail(db.users, email));
    if Accounts.WithSub(db.users, sub) != {} {
      var i :| i in Accounts.WithSub(db.users, sub);
      AccountEffects.KnownIdentity(db, i, sub, email, name, id, org, slug);
    } else if Accounts.WithEmail(db.users, email) != {} {
      var i :| i in Accounts.WithEmail(db.users, email);
      AddressIsLinked(db, i, sub, email, name, id, org, slug);
    } else {
      NewAccountIff(db, sub, email, name, id, org, slug);
    }
    hide GoogleAccount, Inv, Held, Emails, AccountFacts.NotBurnt, ScalarOneOrNone, NewSlug;
  }

  /** Signing in with Google succeeds exactly for a linked account that is not
      disabled; else for an account with the address, not disabled, when no
      deleted row holds the identity; else when no deleted row holds the
      identity or the address and no deleted workspace the slug. */
  lemma GoogleSignInSucceedsIff(db: Db, env: Env, sub: string, email: string, name: string, id: Id, org: Id,
                                slug: Fallbacks, session: Id, raw: string)
    requires Inv(db) && id !in db.users && org !in db.workspaces.orgs
    requires session !in db.sessions && Digest(raw) !in db.issued
    ensures
      var r := GoogleLogin(db, env, sub, email, name, id, org, slug, session, raw);
      && (r.Ok? <==> Admitted(db, sub, email, name, slug))
      && (r.Err? ==> r.error == AccountDisabled || r.error == IntegrityError)
  {
    var account := GoogleAccount(db, sub, email, name, id, org, slug);
    Resolves(db, sub, email, name, id, org, slug);
    if account.Ok? { SessionStarts(db, env, account.value, session, raw); }
    hide GoogleAccount, StartSession, Inv, Admitted;
  }

  /** A disabled account is refused by that name, whether it is found by its
      identity or by its address. */
  lemma DisabledIsRefused(db: Db, env: Env, sub: string, email: string, name: string, id: Id, org: Id,
                          slug: Fallbacks, session: Id, raw: string, user: Id)
    requires Inv(db) && Accounts.Live(db.users, user) && db.users[user].status == Accounts.Disabled
    requires db.users[user].googleSub == Some(sub) || (db.users[user].email == email && !Held(db.users, sub))
    ensures GoogleLogin(db, env, sub, email, name, id, org, slug, session, raw) == Err(AccountDisabled)
  {
    if db.users[user].googleSub == Some(sub) {
      AccountEffects.KnownIdentity(db, user, sub, email, name, id, org, slug);
    } else {
      assert Accounts.WithSub(db.users, sub) == {};
      AddressIsLinked(db, user, sub, email, name, id, org, slug);
    }
    hide GoogleAccount, StartSession, Inv, Held;
  }

  // ---- Linking -----------------------------------------------------------------------------------

  /** A signed-in user can link an identity exactly when no other row, live or
      deleted, holds it; the service names only a live holder. */
  lemma LinkingSucceedsIff(db: Db, env: Env, session: Id, sub: string)
    requires Inv(db) && CurrentUser(db, env, session).Ok?
    ensures
      var user, r := CurrentUser(db, env, session).value, LinkGoogle(db, env, session, sub);
      var refusal := if Accounts.WithSub(db.users, sub) != {} then GoogleAccountAlreadyLinked else IntegrityError;
      && (r.Ok? <==> forall i :: i in db.users && db.users[i].googleSub == Some(sub) ==> i == user)
      && (r.Err? ==> r.error == refusal)
  {
    var user := CurrentUser(db, env, session).value;
    Accounts.LookupsAreUnambiguous(db.users, "", sub);
    OneOrNone(Accounts.WithSub(db.users, sub));
    hide CurrentUser, ScalarOneOrNone;
    if i :| i in Accounts.WithSub(db.users, sub) { assert Accounts.WithSub(db.users, sub) == {i}; }
  }

  // ---- Deleted accounts ------------------------------------------------------------------------

  /** A deleted account keeps its Google identity for good: in no later state does
      that identity sign in, whatever address it shows, nor can anyone link it. */
  lemma DeletedIdentityIsBurnt(db: Db, steps: seq<Step>, owner: Id, sub: string)
    requires Inv(db) && owner in db.users && db.users[owner].deleted && db.users[owner].googleSub == Some(sub)
    ensures
      var end := Run(db, steps);
      && (forall env, email, name, id, org, slug, session, raw ::
            GoogleLogin(end, env, sub, email, name, id, org, slug, session, raw) == Err(IntegrityError))
      && (forall env, session :: LinkGoogle(end, env, session, sub)
            == Err(if CurrentUser(end, env, session).Ok? then IntegrityError else CurrentUser(end, env, session).error))
  {
    var end := Run(db, steps);
    RunKeepsInv(db, steps);
    assert owner in end.users && end.users[owner] == db.users[owner];
    hide Run;
    forall env, email, name, id, org, slug, session, raw
      ensures GoogleLogin(end, env, sub, email, name, id, org, slug, session, raw) == Err(IntegrityError)
    {
      BurntIdentityIsRefused(end, owner, sub, email, name, id, org, slug);
      hide GoogleAccount;
    }
    forall env, session
      ensures LinkGoogle(end, env, session, sub)
              == Err(if CurrentUser(end, env, session).Ok? then IntegrityError
                else CurrentUser(end, env, session).error)
    {
      if CurrentUser(end, env, session).Ok? {
        NoLiveHolder(end.users, owner, sub);
        LinkingSucceedsIff(end, env, session, sub);
        assert end.users[CurrentUser(end, env, session).value].deleted == false;
      }
    }
  }

  lemma NoLiveHolder(rows: Accounts.UserTable, owner: Id, sub: string)
    requires Accounts.Sound(rows) && owner in rows && rows[owner].deleted && rows[owner].googleSub == Some(sub)
    ensures Accounts.WithSub(rows, sub) == {} && Held(rows, sub)
  {
    forall i ensures i !in Accounts.WithSub(rows, sub) {}
  }

  lemma BurntIdentityIsRefused(db: Db, owner: Id, sub: string, email: string, name: string, id: Id, org: Id,
                               slug: Fallbacks)
    requires Inv(db) && owner in db.users && db.users[owner].deleted && db.users[owner].googleSub == Some(sub)
    ensures GoogleAccount(db, sub, email, name, id, org, slug) == Err(IntegrityError)
  {
    NoLiveHolder(db.users, owner, sub);
    Accounts.LookupsAreUnambiguous(db.users, email, sub);
    OneOrNone(Accounts.WithSub(db.users, sub));
    OneOrNone(Accounts.WithEmail(db.users, email));
    if Accounts.WithEmail(db.users, email) != {} {
      var i :| i in Accounts.WithEmail(db.users, email);
      AddressIsLinked(db, i, sub, email, name, id, org, slug);
    } else {
      assert !Accounts.Fits(db.users, id, Accounts.User(email, name, Accounts.Enabled, true, None, Some(sub), false))
        || id == owner;
      hide ScalarOneOrNone, Accounts.Fits, Workspaces.Found, Inv;
    }
  }
}
