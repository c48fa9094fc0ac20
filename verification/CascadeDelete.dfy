/** AuthService._cascade_delete_organization: soft-deleting a workspace
    together with everything scoped to it. */
module CascadeDelete {
  import opened Outcomes
  import opened Pagination
  import opened Sorting

  datatype InvitationStatus = Pending | Accepted | Declined | Cancelled

  /** Children carry the id of their organization; invitations also a status. */
  datatype Invitation = Invitation(org: nat, status: InvitationStatus)

  const CASCADE_LIMIT := 1000

  function OfOrg(org: nat): nat -> bool { (o: nat) => o == org }

  /** The live children of an organization. */
  function LiveChildren(t: Table<nat>, org: nat): set<Key> { Matching(t, OfOrg(org), true, None) }

  predicate IsPending(i: Invitation, org: nat) { i.org == org && i.status == Pending }

  /** What one page of list_by_org sees. */
  function Seen(t: Table<nat>, org: nat): seq<Key> {
    var all := Ordered(t, OfOrg(org), true, None);
    if |all| <= MAX_PAGE then all else all[..MAX_PAGE]
  }

  function Ids(items: seq<Key>): set<nat> { set k | k in items :: k.id }

  lemma CascadePage(t: Table<nat>, org: nat)
    ensures ListPage(t, CASCADE_LIMIT, None, true, OfOrg(org)).Ok?
    ensures ListPage(t, CASCADE_LIMIT, None, true, OfOrg(org)).value.items == Seen(t, org)
    ensures forall k :: k in Seen(t, org) ==> k in LiveChildren(t, org)
    ensures |set k | k in Seen(t, org)| == |Seen(t, org)|
  {
    PageIsPrefix(t, CASCADE_LIMIT, None, true, OfOrg(org));
    PageFacts(t, CASCADE_LIMIT, None, true, OfOrg(org));
    OrderIsTotal(true);
    OrderedFacts(t, OfOrg(org), true, None);
    SortedSize(Seen(t, org), Order(true));
  }

  /** list_by_org with a large explicit limit, followed by the deletes. */
  method DeletePage(repo: Repository<nat>, org: nat)
    modifies repo
    ensures repo.rows == Retire(old(repo.rows), Ids(Seen(old(repo.rows), org)))
  {
    CascadePage(repo.rows, org);
    var page := repo.List(CASCADE_LIMIT, None, true, OfOrg(org));
    var items := page.value.items;
    forall i | 0 <= i < |items| ensures items[i].id in repo.rows {
      assert items[i] in items;
      MatchingHas(repo.rows, OfOrg(org), true, None, items[i]);
    }
    repo.SoftDeleteAll(items);
  }

  /** list_for_org / list, which fetch every row, followed by the deletes. */
  method DeleteEvery(repo: Repository<nat>, org: nat)
    modifies repo
    ensures repo.rows == Retire(old(repo.rows), Ids(Ordered(old(repo.rows), OfOrg(org), false, None)))
    ensures LiveChildren(repo.rows, org) == {}
  {
    var items := repo.ListAll(OfOrg(org));
    ghost var before := repo.rows;
    OrderedFacts(before, OfOrg(org), false, None);
    forall i | 0 <= i < |items| ensures items[i].id in before {
      assert items[i] in items;
      MatchingHas(before, OfOrg(org), false, None, items[i]);
    }
    repo.SoftDeleteAll(items);
    RetireItems(before, OfOrg(org), false, items);
    assert Matching(repo.rows, OfOrg(org), true, None) == Matching(repo.rows, OfOrg(org), false, None);
  }

  class OrganizationStore {
    const projects: Repository<nat>
    const connections: Repository<nat>
    const budgets: Repository<nat>
    const apiKeys: Repository<nat>
    var invitations: map<nat, Invitation>
    var deletedOrgs: set<nat>

    ghost predicate Valid() {
      && projects != connections && projects != budgets && projects != apiKeys
      && connections != budgets && connections != apiKeys && budgets != apiKeys
    }

    constructor (p: Repository<nat>, c: Repository<nat>, b: Repository<nat>, k: Repository<nat>)
      requires p != c && p != b && p != k && c != b && c != k && b != k
      ensures Valid() && invitations == map[] && deletedOrgs == {}
      ensures projects == p && connections == c && budgets == b && apiKeys == k
    {
      projects, connections, budgets, apiKeys := p, c, b, k;
      invitations, deletedOrgs := map[], {};
    }

    /** The paginated tables lose what one page shows, the others everything. */
    method CascadeDeleteOrganization(org: nat)
      requires Valid()
      modifies this, projects, connections, budgets, apiKeys
      ensures projects.rows == Retire(old(projects.rows), Ids(Seen(old(projects.rows), org)))
      ensures connections.rows == Retire(old(connections.rows), Ids(Seen(old(connections.rows), org)))
      ensures budgets.rows == Retire(old(budgets.rows), Ids(Ordered(old(budgets.rows), OfOrg(org), false, None)))
      ensures apiKeys.rows == Retire(old(apiKeys.rows), Ids(Ordered(old(apiKeys.rows), OfOrg(org), false, None)))
      ensures LiveChildren(budgets.rows, org) == {} && LiveChildren(apiKeys.rows, org) == {}
      ensures invitations.Keys == old(invitations).Keys
      ensures forall i :: i in invitations && old(invitations)[i] == Invitation(org, Pending) ==>
        invitations[i] == Invitation(org, Cancelled)
      ensures forall i :: i in invitations && old(invitations)[i] != Invitation(org, Pending) ==>
        invitations[i] == old(invitations)[i]
      ensures deletedOrgs == old(deletedOrgs) + {org}
    {
      hide Retire, Ordered, Seen, Matching;
      DeletePage(projects, org);
      DeletePage(connections, org);
      DeleteEvery(budgets, org);
      DeleteEvery(apiKeys, org);
      invitations := map i | i in invitations ::
        if IsPending(invitations[i], org) then invitations[i].(status := Cancelled) else invitations[i];
      deletedOrgs := deletedOrgs + {org};
    }
  }

  /** The cascade promises no orphan rows, but a page is capped at 100: exactly
      the children beyond the first hundred stay live. */
  lemma OrphansLeft(t: Table<nat>, org: nat)
    ensures
      var before := |LiveChildren(t, org)|;
      |LiveChildren(Retire(t, Ids(Seen(t, org))), org)| == if before <= 100 then 0 else before - 100
  {
    CascadePage(t, org);
    OrderedSize(t, OfOrg(org), true, None);
    var seen := Seen(t, org);
    RetireItems(t, OfOrg(org), true, seen);
    var gone := set k | k in seen;
    assert gone <= LiveChildren(t, org);
    assert |LiveChildren(t, org) - gone| == |LiveChildren(t, org)| - |gone|;
  }

  /** So a cascade leaves no live child exactly when there were at most 100. */
  lemma CascadeIsComplete(t: Table<nat>, org: nat)
    ensures LiveChildren(Retire(t, Ids(Seen(t, org))), org) == {}
            <==> |LiveChildren(t, org)| <= 100
  {
    OrphansLeft(t, org);
  }

  /** The children of every other organization are untouched. */
  lemma CascadeIsScoped(t: Table<nat>, org: nat, id: nat)
    requires id in t && t[id].attrs != org
    ensures id in Retire(t, Ids(Seen(t, org))) && Retire(t, Ids(Seen(t, org)))[id] == t[id]
  {
    CascadePage(t, org);
    forall k | k in Seen(t, org) ensures k.id != id { assert k in LiveChildren(t, org); }
  }
}
