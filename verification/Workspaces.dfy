/** Workspaces: organizations and the memberships that tie accounts to them. */
module Workspaces {
  import opened Outcomes
  import opened Credentials
  import opened Slug

  datatype Organization = Organization(name: string, slug: string, personal: bool, deleted: bool)

  /** Oldest membership first; `user` is None for an invitation not yet linked. */
  datatype Membership = Membership(org: Id, email: string, user: Option<Id>, owner: bool)

  datatype Workspaces = Workspaces(orgs: map<Id, Organization>, members: seq<Membership>)

  predicate LiveOrg(orgs: map<Id, Organization>, id: Id) { id in orgs && !orgs[id].deleted }

  /** What slug_exists sees. */
  function LiveSlugs(orgs: map<Id, Organization>): set<string> {
    set i | i in orgs && LiveOrg(orgs, i) :: orgs[i].slug
  }

  /** The unique constraint on slug; it covers deleted rows too. */
  predicate SlugFits(orgs: map<Id, Organization>, slug: string) {
    forall i :: i in orgs ==> orgs[i].slug != slug
  }

  function Founded(ws: Workspaces, id: Id, name: string, slug: string, personal: bool, email: string,
                   user: Id): Workspaces
  {
    Workspaces(ws.orgs[id := Organization(name, slug, personal, false)],
      ws.members + [Membership(id, email, Some(user), true)])
  }

  function SlugFor(ws: Workspaces, seed: string, tokens: Fallbacks): string {
    FirstFree(seed, tokens, LiveSlugs(ws.orgs), 1)
  }

  /** _create_workspace */
  function Found(ws: Workspaces, id: Id, name: string, seed: string, tokens: Fallbacks, personal: bool,
                 email: string, user: Id):
    Result<Workspaces, AuthError>
  {
    var slug := SlugFor(ws, seed, tokens);
    if id in ws.orgs || !SlugFits(ws.orgs, slug) then Err(IntegrityError)
    else Ok(Founded(ws, id, name, slug, personal, email, user))
  }

  /** link_pending_by_email */
  function Linked(ws: Workspaces, email: string, user: Id): Workspaces {
    ws.(members := seq(|ws.members|, i requires 0 <= i < |ws.members| =>
      if ws.members[i].email == email && ws.members[i].user.None?
      then ws.members[i].(user := Some(user)) else ws.members[i]))
  }

  /** list_by_user_email_with_orgs */
  function Listed(orgs: map<Id, Organization>, members: seq<Membership>, email: string): seq<Membership> {
    if members == [] then [] else
      var m := members[|members| - 1];
      Listed(orgs, members[..|members| - 1], email) + if m.email == email && LiveOrg(orgs, m.org) then [m] else []
  }

  predicate IsPersonalOwner(orgs: map<Id, Organization>, m: Membership) {
    m.org in orgs && orgs[m.org].personal && m.owner
  }

  function FirstPersonal(orgs: map<Id, Organization>, ms: seq<Membership>): Option<Id> {
    if ms == [] then None
    else if IsPersonalOwner(orgs, ms[0]) then Some(ms[0].org)
    else FirstPersonal(orgs, ms[1..])
  }

  /** The workspace upgrade_to_business converts. */
  function PersonalOf(ws: Workspaces, email: string): Option<Id> {
    FirstPersonal(ws.orgs, Listed(ws.orgs, ws.members, email))
  }

  function Converted(ws: Workspaces, org: Id, name: string): Workspaces
    requires org in ws.orgs
  {
    ws.(orgs := ws.orgs[org := ws.orgs[org].(personal := false, name := name)])
  }

  /** Some other address is a member as well. */
  predicate Shared(ws: Workspaces, org: Id, email: string) {
    exists k :: 0 <= k < |ws.members| && ws.members[k].org == org && ws.members[k].email != email
  }

  predicate OwnsShared(ws: Workspaces, email: string) {
    exists k :: 0 <= k < |ws.members| && OwnsAt(ws, email, k) && Shared(ws, ws.members[k].org, email)
  }

  /** Membership k is an ownership of a live workspace by the address. */
  predicate OwnsAt(ws: Workspaces, email: string, k: nat)
    requires k < |ws.members|
  {
    ws.members[k].email == email && ws.members[k].owner && LiveOrg(ws.orgs, ws.members[k].org)
  }

  function OwnedOrgs(ws: Workspaces, email: string): set<Id> {
    set k | 0 <= k < |ws.members| && OwnsAt(ws, email, k) :: ws.members[k].org
  }

  function Removed(ws: Workspaces, ids: set<Id>): Workspaces {
    ws.(orgs := map i | i in ws.orgs :: if i in ids then ws.orgs[i].(deleted := true) else ws.orgs[i])
  }

  predicate IsMember(ws: Workspaces, org: Id, email: string) {
    exists k :: 0 <= k < |ws.members| && ws.members[k].org == org && ws.members[k].email == email
  }

  lemma {:induction false} ListedHas(orgs: map<Id, Organization>, members: seq<Membership>, email: string,
                                     m: Membership)
    ensures m in Listed(orgs, members, email) <==> m in members && m.email == email && LiveOrg(orgs, m.org)
    decreases |members|
  {
    if members != [] {
      var init, last := members[..|members| - 1], members[|members| - 1];
      ListedHas(orgs, init, email, m);
      hide LiveOrg;
      assert m in members <==> m in init || m == last;
    }
  }

  /** The organizations owned through the listed memberships. */
  function OwnersIn(ms: seq<Membership>): set<Id> { set j | 0 <= j < |ms| && ms[j].owner :: ms[j].org }

  lemma ListedOwners(ws: Workspaces, email: string)
    ensures OwnersIn(Listed(ws.orgs, ws.members, email)) == OwnedOrgs(ws, email)
    ensures OwnsShared(ws, email) <==> exists org :: org in OwnedOrgs(ws, email) && Shared(ws, org, email)
  {
    var ms := Listed(ws.orgs, ws.members, email);
    forall org ensures org in OwnersIn(ms) <==> org in OwnedOrgs(ws, email) {
      if org in OwnersIn(ms) {
        var j :| 0 <= j < |ms| && ms[j].owner && ms[j].org == org;
        ListedHas(ws.orgs, ws.members, email, ms[j]);
        var k :| 0 <= k < |ws.members| && ws.members[k] == ms[j];
        assert OwnsAt(ws, email, k);
      }
      if org in OwnedOrgs(ws, email) {
        var k :| 0 <= k < |ws.members| && OwnsAt(ws, email, k) && ws.members[k].org == org;
        ListedHas(ws.orgs, ws.members, email, ws.members[k]);
        var j :| 0 <= j < |ms| && ms[j] == ws.members[k];
      }
    }
    if OwnsShared(ws, email) {
      var k :| 0 <= k < |ws.members| && OwnsAt(ws, email, k) && Shared(ws, ws.members[k].org, email);
      assert ws.members[k].org in OwnedOrgs(ws, email);
    }
  }

  lemma RemovedTwice(ws: Workspaces, ids: set<Id>, more: set<Id>)
    ensures Removed(Removed(ws, ids), more) == Removed(ws, ids + more)
  {
  }

  lemma {:induction false} FirstPersonalFacts(orgs: map<Id, Organization>, ms: seq<Membership>)
    ensures FirstPersonal(orgs, ms) == None <==> forall m :: m in ms ==> !IsPersonalOwner(orgs, m)
    ensures FirstPersonal(orgs, ms).Some? ==>
      exists m :: m in ms && IsPersonalOwner(orgs, m) && m.org == FirstPersonal(orgs, ms).value
  {
    if ms != [] && !IsPersonalOwner(orgs, ms[0]) { FirstPersonalFacts(orgs, ms[1..]); }
  }

  // ---- The repositories ----------------------------------------------------------------------

  class WorkspaceRepository {
    var orgs: map<Id, Organization>
    var members: seq<Membership>

    function Value(): Workspaces
      reads this
    {
      Workspaces(orgs, members)
    }

    constructor ()
      ensures Value() == Workspaces(map[], [])
    {
      orgs, members := map[], [];
    }

    method CreateWorkspace(id: Id, name: string, seed: string, tokens: Fallbacks, personal: bool, email: string,
                           user: Id)
      returns (ok: bool)
      modifies this
      ensures ok <==> Found(old(Value()), id, name, seed, tokens, personal, email, user).Ok?
      ensures !ok ==> Found(old(Value()), id, name, seed, tokens, personal, email, user) == Err(IntegrityError)
      ensures Value() == if ok then Found(old(Value()), id, name, seed, tokens, personal, email, user).value
        else old(Value())
    {
      var slug, _ := UniqueSlug(seed, tokens, LiveSlugs(orgs));
      ok := id !in orgs && SlugFits(orgs, slug);
      if ok {
        orgs := orgs[id := Organization(name, slug, personal, false)];
        members := members + [Membership(id, email, Some(user), true)];
      }
    }

    method LinkPendingByEmail(email: string, user: Id)
      modifies this
      ensures Value() == Linked(old(Value()), email, user)
    {
      members := seq(|members|, i requires 0 <= i < |members| reads this =>
        if members[i].email == email && members[i].user.None? then members[i].(user := Some(user)) else members[i]);
    }

    method ListByUserEmail(email: string) returns (ms: seq<Membership>)
      ensures ms == Listed(orgs, members, email)
    {
      ms := [];
      for i := 0 to |members|
        invariant ms == Listed(orgs, members[..i], email)
      {
        assert members[..i + 1][..i] == members[..i];
        if members[i].email == email && LiveOrg(orgs, members[i].org) { ms := ms + [members[i]]; }
      }
      assert members[..|members|] == members;
    }

    method HasOtherMembers(org: Id, email: string) returns (r: bool)
      ensures r <==> Shared(Value(), org, email)
    {
      r := exists k :: 0 <= k < |members| && members[k].org == org && members[k].email != email;
    }

    method Convert(org: Id, name: string)
      requires org in orgs
      modifies this
      ensures Value() == Converted(old(Value()), org, name)
    {
      orgs := orgs[org := orgs[org].(personal := false, name := name)];
    }

    method SoftDelete(org: Id)
      modifies this
      ensures Value() == Removed(old(Value()), {org})
    {
      if org in orgs { orgs := orgs[org := orgs[org].(deleted := true)]; }
      assert orgs == Removed(old(Value()), {org}).orgs;
    }

    method AddMember(m: Membership)
      modifies this
      ensures Value() == old(Value()).(members := old(members) + [m])
    {
      members := members + [m];
    }
  }

  // ---- What every change keeps -----------------------------------------------------------------

  predicate PersonalAt(ws: Workspaces, k: nat)
    requires k < |ws.members|
  {
    ws.members[k].org in ws.orgs && ws.orgs[ws.members[k].org].personal
  }

  /** Slugs are unique, memberships point at organizations, a personal workspace
      has its owner as only member, and no address has two. */
  ghost predicate Sound(ws: Workspaces) {
    && (forall i, j :: i in ws.orgs && j in ws.orgs && ws.orgs[i].slug == ws.orgs[j].slug ==> i == j)
    && (forall k :: 0 <= k < |ws.members| ==> ws.members[k].org in ws.orgs)
    && (forall k :: 0 <= k < |ws.members| && PersonalAt(ws, k) ==> ws.members[k].owner)
    && (forall k, l :: 0 <= k < l < |ws.members| && PersonalAt(ws, k) && PersonalAt(ws, l) ==>
          ws.members[k].email != ws.members[l].email && ws.members[k].org != ws.members[l].org)
  }

  /** The address holds no personal workspace, live or deleted. */
  ghost predicate NoPersonal(ws: Workspaces, email: string) {
    forall k :: 0 <= k < |ws.members| && PersonalAt(ws, k) ==> ws.members[k].email != email
  }

  /** Personal memberships are those of before, and at most those of one new address. */
  ghost predicate PersonalFrom(ws: Workspaces, ws': Workspaces, email: Option<string>) {
    forall k :: 0 <= k < |ws'.members| && PersonalAt(ws', k) ==>
      (k < |ws.members| && PersonalAt(ws, k) && ws.members[k].email == ws'.members[k].email)
        || email == Some(ws'.members[k].email)
  }

  lemma FoundKeeps(ws: Workspaces, id: Id, name: string, seed: string, tokens: Fallbacks, personal: bool,
                   email: string, user: Id)
    requires Sound(ws) && Found(ws, id, name, seed, tokens, personal, email, user).Ok?
    requires personal ==> NoPersonal(ws, email)
    ensures Sound(Found(ws, id, name, seed, tokens, personal, email, user).value)
    ensures PersonalFrom(ws, Found(ws, id, name, seed, tokens, personal, email, user).value,
      if personal then Some(email) else None)
  {
    hide SlugFor;
    var ws' := Found(ws, id, name, seed, tokens, personal, email, user).value;
    forall k | 0 <= k < |ws.members| ensures PersonalAt(ws', k) <==> PersonalAt(ws, k) {}
  }

  lemma LinkedKeeps(ws: Workspaces, email: string, user: Id)
    requires Sound(ws)
    ensures Sound(Linked(ws, email, user)) && PersonalFrom(ws, Linked(ws, email, user), None)
  {
    forall k | 0 <= k < |ws.members| ensures PersonalAt(Linked(ws, email, user), k) <==> PersonalAt(ws, k) {}
  }

  lemma ConvertedKeeps(ws: Workspaces, org: Id, name: string)
    requires Sound(ws) && org in ws.orgs
    ensures Sound(Converted(ws, org, name)) && PersonalFrom(ws, Converted(ws, org, name), None)
  {
    forall k | 0 <= k < |ws.members|
      ensures PersonalAt(Converted(ws, org, name), k) <==> PersonalAt(ws, k) && ws.members[k].org != org
    {
    }
  }

  lemma RemovedKeeps(ws: Workspaces, ids: set<Id>)
    requires Sound(ws)
    ensures Sound(Removed(ws, ids)) && PersonalFrom(ws, Removed(ws, ids), None)
  {
    forall k | 0 <= k < |ws.members| ensures PersonalAt(Removed(ws, ids), k) <==> PersonalAt(ws, k) {}
  }

  lemma AddedKeeps(ws: Workspaces, m: Membership)
    requires Sound(ws) && m.org in ws.orgs && !ws.orgs[m.org].personal
    ensures Sound(ws.(members := ws.members + [m])) && PersonalFrom(ws, ws.(members := ws.members + [m]), None)
  {
    var ws' := ws.(members := ws.members + [m]);
    forall k | 0 <= k < |ws.members| ensures PersonalAt(ws', k) <==> PersonalAt(ws, k) {}
  }

  /** Membership k makes its address an owner of a live personal workspace. */
  ghost predicate OwnsPersonal(ws: Workspaces, k: nat, email: string) {
    && k < |ws.members| && ws.members[k].email == email && ws.members[k].owner
    && ws.members[k].org in ws.orgs && ws.orgs[ws.members[k].org].personal && !ws.orgs[ws.members[k].org].deleted
  }

  lemma {:induction false} FirstPersonalConcat(orgs: map<Id, Organization>, a: seq<Membership>, b: seq<Membership>)
    ensures FirstPersonal(orgs, a + b) == if FirstPersonal(orgs, a).Some? then FirstPersonal(orgs, a)
      else FirstPersonal(orgs, b)
  {
    if a == [] {
      assert a + b == b;
    } else {
      assert (a + b)[1..] == a[1..] + b;
      FirstPersonalConcat(orgs, a[1..], b);
    }
  }

  /** In any table at all the upgrade takes the oldest such membership. */
  lemma {:induction false} PersonalOfIsOldest(ws: Workspaces, email: string)
    ensures PersonalOf(ws, email).None? <==> forall k :: 0 <= k < |ws.members| ==> !OwnsPersonal(ws, k, email)
    ensures PersonalOf(ws, email).Some? ==>
      exists k :: 0 <= k < |ws.members| && OwnsPersonal(ws, k, email)
                  && ws.members[k].org == PersonalOf(ws, email).value
                  && forall i :: 0 <= i < k ==> !OwnsPersonal(ws, i, email)
    decreases |ws.members|
  {
    if ws.members != [] {
      var last := |ws.members| - 1;
      var m, init := ws.members[last], ws.(members := ws.members[..last]);
      PersonalOfIsOldest(init, email);
      var tail := if m.email == email && LiveOrg(ws.orgs, m.org) then [m] else [];
      FirstPersonalConcat(ws.orgs, Listed(ws.orgs, init.members, email), tail);
      assert FirstPersonal(ws.orgs, tail) == if OwnsPersonal(ws, last, email) then Some(m.org) else None;
      assert forall k :: 0 <= k < last ==> (OwnsPersonal(init, k, email) <==> OwnsPersonal(ws, k, email));
      hide OwnsPersonal, FirstPersonal;
    }
  }

  /** upgrade_to_business finds a workspace exactly when the address has a live personal one. */
  lemma PersonalOfMeaning(ws: Workspaces, email: string)
    requires Sound(ws)
    ensures PersonalOf(ws, email).Some? <==>
      exists k :: 0 <= k < |ws.members| && PersonalAt(ws, k) && ws.members[k].email == email
        && LiveOrg(ws.orgs, ws.members[k].org)
    ensures PersonalOf(ws, email).Some? ==>
      exists k :: 0 <= k < |ws.members| && PersonalAt(ws, k) && ws.members[k].email == email
        && ws.members[k].org == PersonalOf(ws, email).value
  {
    var ms := Listed(ws.orgs, ws.members, email);
    FirstPersonalFacts(ws.orgs, ms);
    if PersonalOf(ws, email).Some? {
      var m :| m in ms && IsPersonalOwner(ws.orgs, m) && m.org == PersonalOf(ws, email).value;
      ListedHas(ws.orgs, ws.members, email, m);
      var k :| 0 <= k < |ws.members| && ws.members[k] == m;
      assert PersonalAt(ws, k);
    }
    forall k | 0 <= k < |ws.members| && PersonalAt(ws, k) && ws.members[k].email == email
      && LiveOrg(ws.orgs, ws.members[k].org)
      ensures PersonalOf(ws, email).Some?
    {
      ListedHas(ws.orgs, ws.members, email, ws.members[k]);
      assert IsPersonalOwner(ws.orgs, ws.members[k]);
    }
  }

  /** After the upgrade the address has no personal workspace left. */
  lemma UpgradeLeavesNone(ws: Workspaces, email: string, name: string)
    requires Sound(ws) && PersonalOf(ws, email).Some?
    ensures PersonalOf(ws, email).value in ws.orgs
    ensures NoPersonal(Converted(ws, PersonalOf(ws, email).value, name), email)
  {
    PersonalOfMeaning(ws, email);
    hide PersonalOf;
    var org := PersonalOf(ws, email).value;
    forall k | 0 <= k < |ws.members|
      ensures PersonalAt(Converted(ws, org, name), k) <==> PersonalAt(ws, k) && ws.members[k].org != org
    {
    }
  }
}
