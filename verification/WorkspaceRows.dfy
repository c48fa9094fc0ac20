/** What one call does to every single organization and membership. */
module WorkspaceRows {
  import opened Outcomes
  import opened Credentials
  import opened Slug
  import opened Text
  import opened Lifecycle
  import opened AccountMoves
  import opened AccountSafety
  import Accounts
  import Sessions
  import W = Workspaces

  /** The text if it has any, without the white space around it, else the other one. */
  function Given(text: Option<string>, other: string): string {
    if text.Some? && Strip(text.value) != "" then Strip(text.value) else other
  }

  // ---- Registering -----------------------------------------------------------------------------

  /** A registration founds a personal workspace, a business one a second, both with
      the new account as owner and only member, under slugs no organization has. */
  lemma RegisterFounds(db: Db, env: Env, email: string, password: string, name: string, business: bool,
                       org: Option<string>, g: Generated)
    requires Register(db, env, email, password, name, business, org, g).Ok?
    ensures
      var ws, ws' := db.workspaces, Register(db, env, email, password, name, business, org, g).value.0.workspaces;
      var personal := W.Organization(
        name + "'s Workspace", FirstFree(name + "-workspace", g.personalSlug, W.LiveSlugs(ws.orgs), 1), true, false);
      var team := Given(org, name + "'s Team");
      var own := ws.orgs[g.personalOrg := personal];
      && g.personalOrg !in ws.orgs && (forall i :: i in ws.orgs ==> ws.orgs[i].slug != personal.slug)
      && if !business then
           ws' == W.Workspaces(own, ws.members + [W.Membership(g.personalOrg, email, Some(g.user), true)])
         else
           var second := W.Organization(team, FirstFree(team, g.businessSlug, W.LiveSlugs(own), 1), false, false);
           && g.businessOrg !in own && (forall i :: i in own ==> own[i].slug != second.slug)
           && ws' == W.Workspaces(own[g.businessOrg := second],
                ws.members + [W.Membership(g.personalOrg, email, Some(g.user), true)]
                           + [W.Membership(g.businessOrg, email, Some(g.user), true)])
  {
    hide Strip, FirstFree, W.LiveSlugs, IssueVerification, Accounts.Insert, Accounts.WithEmail;
    var all := NewWorkspaces(db.workspaces, email, name, business, org, g).value;
    var u := Accounts.User(email, name, Accounts.Enabled, false, Some(PasswordHash(password)), None, false);
    var before := db.(users := Accounts.Insert(db.users, g.user, u).value, workspaces := all);
    VerificationIssued(before, env, g.user, g.token, g.raw);
    assert Register(db, env, email, password, name, business, org, g).value.0.workspaces == all;
  }

  // ---- Signing in --------------------------------------------------------------------------------

  /** The memberships of the address that were still pending belong to the user now;
      no other changes. */
  ghost predicate LinksPending(before: seq<W.Membership>, after: seq<W.Membership>, email: string, user: Id) {
    && |after| == |before|
    && forall k :: 0 <= k < |before| ==>
      after[k] == if before[k].email == email && before[k].user == None
                  then W.Membership(before[k].org, email, Some(user), before[k].owner) else before[k]
  }

  lemma LoginLinks(db: Db, env: Env, email: string, password: string, session: Id, raw: string)
    requires Login(db, env, email, password, session, raw).Ok?
    ensures
      var db' := Login(db, env, email, password, session, raw).value.0;
      && session in db'.sessions && db'.workspaces.orgs == db.workspaces.orgs
      && LinksPending(db.workspaces.members, db'.workspaces.members, email, db'.sessions[session].user)
  {
    EmailLookup(db.users, email);
    hide ScalarOneOrNone, Accounts.WithEmail;
  }

  /** With Google the pending memberships of the account's own address are linked;
      a new account also gets its personal workspace. */
  lemma GoogleLinks(db: Db, env: Env, sub: string, email: string, name: string, id: Id, org: Id, slug: Fallbacks,
                    session: Id, raw: string)
    requires Inv(db) && GoogleLogin(db, env, sub, email, name, id, org, slug, session, raw).Ok?
    ensures
      var ws, db' := db.workspaces, GoogleLogin(db, env, sub, email, name, id, org, slug, session, raw).value.0;
      && session in db'.sessions && db'.sessions[session].user in db'.users
      && var user := db'.sessions[session].user;
         if NobodyLinked(db.users, sub) && NobodyHas(db.users, email) then
           var personal := W.Organization(
             name + "'s Workspace", FirstFree(name + "-workspace", slug, W.LiveSlugs(ws.orgs), 1), true, false);
           && user == id && org !in ws.orgs && (forall i :: i in ws.orgs ==> ws.orgs[i].slug != personal.slug)
           && db'.workspaces.orgs == ws.orgs[org := personal]
           && LinksPending(ws.members + [W.Membership(org, email, Some(id), true)], db'.workspaces.members, email, id)
         else
           && db'.workspaces.orgs == ws.orgs
           && LinksPending(ws.members, db'.workspaces.members, db'.users[user].email, user)
  {
    var account := GoogleAccount(db, sub, email, name, id, org, slug);
    GoogleWorkspace(db, sub, email, name, id, org, slug);
    hide GoogleAccount, Inv, FirstFree, W.LiveSlugs, NobodyLinked, NobodyHas;
  }

  lemma GoogleWorkspace(db: Db, sub: string, email: string, name: string, id: Id, org: Id, slug: Fallbacks)
    requires Inv(db) && GoogleAccount(db, sub, email, name, id, org, slug).Ok?
    ensures
      var ws, r := db.workspaces, GoogleAccount(db, sub, email, name, id, org, slug).value;
      if NobodyLinked(db.users, sub) && NobodyHas(db.users, email) then
        var personal := W.Organization(
          name + "'s Workspace", FirstFree(name + "-workspace", slug, W.LiveSlugs(ws.orgs), 1), true, false);
        && r.1 == id && id in r.0.users && r.0.users[id].email == email
        && org !in ws.orgs && (forall i :: i in ws.orgs ==> ws.orgs[i].slug != personal.slug)
        && r.0.workspaces
           == W.Workspaces(ws.orgs[org := personal], ws.members + [W.Membership(org, email, Some(id), true)])
      else r.0.workspaces == ws
  {
    OneOrNone(Accounts.WithSub(db.users, sub));
    EmailLookup(db.users, email);
    hide Inv, ScalarOneOrNone, FirstFree, W.LiveSlugs, Accounts.WithEmail;
  }

  // ---- Upgrading and deleting -----------------------------------------------------------------------

  /** The organization is a live personal workspace of the address. */
  ghost predicate IsPersonalOf(ws: W.Workspaces, org: Id, email: string) {
    && org in ws.orgs && ws.orgs[org].personal && !ws.orgs[org].deleted
    && exists k :: 0 <= k < |ws.members| && ws.members[k].org == org && ws.members[k].email == email
  }

  /** The upgrade turns the caller's personal workspace into a business one. */
  lemma UpgradeConverts(db: Db, env: Env, session: Id, name: Option<string>, org: Id)
    requires Inv(db) && UpgradeToBusiness(db, env, session, name).Ok? && org in db.workspaces.orgs
    ensures session in db.sessions && db.sessions[session].user in db.users
    ensures
      var ws, ws' := db.workspaces, UpgradeToBusiness(db, env, session, name).value.0.workspaces;
      var o := ws.orgs[org];
      && ws'.members == ws.members && org in ws'.orgs
      && ws'.orgs[org] == if IsPersonalOf(ws, org, db.users[db.sessions[session].user].email)
           then W.Organization(Given(name, "My Team"), o.slug, false, o.deleted) else o
  {
    var email := db.users[db.sessions[session].user].email;
    OnlyPersonal(db.workspaces, email, org);
    hide CurrentUser, W.PersonalOf, Inv, Strip, IsPersonalOf;
  }

  lemma OnlyPersonal(ws: W.Workspaces, email: string, org: Id)
    requires W.Sound(ws) && W.PersonalOf(ws, email).Some?
    ensures IsPersonalOf(ws, org, email) <==> W.PersonalOf(ws, email) == Some(org)
  {
    W.PersonalOfMeaning(ws, email);
    LivePersonal(ws, email);
    hide W.PersonalOf;
  }

  lemma LivePersonal(ws: W.Workspaces, email: string)
    requires W.PersonalOf(ws, email).Some?
    ensures W.LiveOrg(ws.orgs, W.PersonalOf(ws, email).value)
  {
    var ms := W.Listed(ws.orgs, ws.members, email);
    W.FirstPersonalFacts(ws.orgs, ms);
    var m :| m in ms && W.IsPersonalOwner(ws.orgs, m) && m.org == W.PersonalOf(ws, email).value;
    W.ListedHas(ws.orgs, ws.members, email, m);
  }

  /** Deleting an account deletes the live organizations in which its address is an owner. */
  lemma DeletionRemoves(db: Db, env: Env, session: Id, password: string, org: Id)
    requires DeleteAccount(db, env, session, password).Ok? && org in db.workspaces.orgs
    ensures session in db.sessions && db.sessions[session].user in db.users
    ensures
      var ws, ws' := db.workspaces, DeleteAccount(db, env, session, password).value.0.workspaces;
      var email := db.users[db.sessions[session].user].email;
      && ws'.members == ws.members && org in ws'.orgs
      && ws'.orgs[org]
         == if exists k :: 0 <= k < |ws.members|
                 && ws.members[k].org == org && ws.members[k].email == email && ws.members[k].owner
            then ws.orgs[org].(deleted := true) else ws.orgs[org]
  {
    var ws, email := db.workspaces, db.users[db.sessions[session].user].email;
    assert DeleteAccount(db, env, session, password).value.0.workspaces == W.Removed(ws, W.OwnedOrgs(ws, email)) by {
      hide CurrentUser, Sessions.After, W.Removed, W.OwnedOrgs, W.OwnsShared;
    }
    hide DeleteAccount;
    if k :| 0 <= k < |ws.members| && ws.members[k].org == org && ws.members[k].email == email && ws.members[k].owner {
      if !ws.orgs[org].deleted { assert W.OwnsAt(ws, email, k); }
    }
  }

  // ---- Inviting ----------------------------------------------------------------------------------------

  /** An invitation appends one membership, linked at once if the address has an account. */
  lemma InvitationAppends(db: Db, org: Id, email: string, owner: bool)
    requires AddMember(db, org, email, owner).Ok?
    ensures
      var ws, ws' := db.workspaces, AddMember(db, org, email, owner).value.0.workspaces;
      && ws'.orgs == ws.orgs && |ws'.members| == |ws.members| + 1 && ws'.members[..|ws.members|] == ws.members
      && var m := ws'.members[|ws.members|];
         && m == W.Membership(org, email, m.user, owner)
         && (m.user == None <==> NobodyHas(db.users, email))
         && (m.user.Some? ==> Owns(db.users, m.user.value, email))
  {
    EmailLookup(db.users, email);
    hide ScalarOneOrNone, Accounts.WithEmail, W.IsMember;
  }

  /** Every other call leaves organizations and memberships alone. */
  lemma WorkspacesLeftAlone(db: Db, env: Env, c: Call)
    requires !c.CallRegister? && !c.CallLogin? && !c.CallGoogleLogin? && !c.CallUpgrade? && !c.CallDeleteAccount?
    requires !c.CallAddMember?
    ensures Next(db, env, c).workspaces == db.workspaces
  {
    OthersUntouched(db, env, c);
  }
}
