/** ConnectionManager: the two-index registry of live clients and the fan-out
    of events into their bounded queues. */
module ConnectionManager {
  import opened Outcomes
  import opened Events

  const QUEUE_MAXSIZE := 256

  type ConnectionId = string

  // ---- What one step does to the registry ------------------------------------

  datatype Conn = Conn(org: Uuid, queue: seq<Event>)

  datatype State = State(conns: map<ConnectionId, Conn>, byOrg: map<Uuid, set<ConnectionId>>)

  const EMPTY := State(map[], map[])

  function Members(byOrg: map<Uuid, set<ConnectionId>>, org: Uuid): set<ConnectionId> {
    if org in byOrg then byOrg[org] else {}
  }

  /** put_nowait: a full queue drops the event. */
  function Put(queue: seq<Event>, e: Event): seq<Event> {
    if |queue| < QUEUE_MAXSIZE then queue + [e] else queue
  }

  function Registered(s: State, cid: ConnectionId, org: Uuid): State {
    State(s.conns[cid := Conn(org, [])], s.byOrg[org := Members(s.byOrg, org) + {cid}])
  }

  function Unregistered(s: State, cid: ConnectionId): State {
    if cid !in s.conns then s else
      var org := s.conns[cid].org;
      var rest := Members(s.byOrg, org) - {cid};
      State(s.conns - {cid},
            if org !in s.byOrg then s.byOrg else if rest == {} then s.byOrg - {org} else s.byOrg[org := rest])
  }

  function PutAll(conns: map<ConnectionId, Conn>, ids: set<ConnectionId>, e: Event): map<ConnectionId, Conn> {
    map c | c in conns :: if c in ids then conns[c].(queue := Put(conns[c].queue, e)) else conns[c]
  }

  function Dispatched(s: State, org: Uuid, e: Event): State {
    s.(conns := PutAll(s.conns, Members(s.byOrg, org), e))
  }

  function Received(s: State, cid: ConnectionId): State {
    if cid !in s.conns || s.conns[cid].queue == [] then s
    else s.(conns := s.conns[cid := s.conns[cid].(queue := s.conns[cid].queue[1..])])
  }

  /** by_org is exactly the inverse index of the connections, without empty sets. */
  ghost predicate Indexed(s: State) {
    && (forall org, c :: c in Members(s.byOrg, org) <==> c in s.conns && s.conns[c].org == org)
    && (forall org :: org in s.byOrg ==> s.byOrg[org] != {})
  }

  lemma RegisterKeepsIndex(s: State, cid: ConnectionId, org: Uuid)
    requires Indexed(s) && cid !in s.conns
    ensures Indexed(Registered(s, cid, org))
  {
    forall o, c
      ensures c in Members(Registered(s, cid, org).byOrg, o)
              <==> c in Registered(s, cid, org).conns && Registered(s, cid, org).conns[c].org == o
    {
      assert c in Members(s.byOrg, o) <==> c in s.conns && s.conns[c].org == o;
    }
  }

  lemma UnregisterKeepsIndex(s: State, cid: ConnectionId)
    requires Indexed(s)
    ensures Indexed(Unregistered(s, cid))
  {
    if cid in s.conns {
      var s' := Unregistered(s, cid);
      var org := s.conns[cid].org;
      assert cid in Members(s.byOrg, org);
      forall o, c ensures c in Members(s'.byOrg, o) <==> c in s'.conns && s'.conns[c].org == o {
        assert c in Members(s.byOrg, o) <==> c in s.conns && s.conns[c].org == o;
      }
    }
  }

  lemma DispatchKeepsIndex(s: State, org: Uuid, e: Event)
    requires Indexed(s)
    ensures Indexed(Dispatched(s, org, e))
  {
  }

  lemma ReceiveKeepsIndex(s: State, cid: ConnectionId)
    requires Indexed(s)
    ensures Indexed(Received(s, cid))
  {
  }

  // ---- The object --------------------------------------------------------------

  class ConnectionManager {
    var connections: map<ConnectionId, Conn>
    var byOrg: map<Uuid, set<ConnectionId>>
    /** The metrics behind the on_dispatch and on_drop callbacks. */
    var dispatchedTotal: nat
    var droppedTotal: nat

    ghost predicate Valid()
      reads this
    {
      Indexed(Registry())
    }

    ghost function Registry(): State
      reads this
    {
      State(connections, byOrg)
    }

    constructor ()
      ensures Valid() && Registry() == EMPTY
      ensures dispatchedTotal == droppedTotal == 0
    {
      connections, byOrg := map[], map[];
      dispatchedTotal, droppedTotal := 0, 0;
    }

    /** connectionId is a fresh uuid4. */
    method Register(connectionId: ConnectionId, organizationId: Uuid) returns (info: Conn)
      requires Valid() && connectionId !in connections
      modifies this
      ensures Valid() && Registry() == Registered(old(Registry()), connectionId, organizationId)
      ensures info == connections[connectionId]
      ensures dispatchedTotal == old(dispatchedTotal) && droppedTotal == old(droppedTotal)
    {
      RegisterKeepsIndex(Registry(), connectionId, organizationId);
      info := Conn(organizationId, []);
      connections := connections[connectionId := info];
      byOrg := byOrg[organizationId := Members(byOrg, organizationId) + {connectionId}];
    }

    method Unregister(connectionId: ConnectionId) returns (info: Option<Conn>)
      requires Valid()
      modifies this
      ensures Valid() && Registry() == Unregistered(old(Registry()), connectionId)
      ensures info == if connectionId in old(connections) then Some(old(connections)[connectionId]) else None
      ensures dispatchedTotal == old(dispatchedTotal) && droppedTotal == old(droppedTotal)
    {
      UnregisterKeepsIndex(Registry(), connectionId);
      if connectionId !in connections { return None; }
      info := Some(connections[connectionId]);
      var org := info.value.org;
      connections := connections - {connectionId};
      if org in byOrg {
        var rest := byOrg[org] - {connectionId};
        if rest == {} { byOrg := byOrg - {org}; } else { byOrg := byOrg[org := rest]; }
      }
    }

    /** Only the organization's own queues change; each either takes the event
        or, when full, counts it as dropped. */
    method Dispatch(organizationId: Uuid, e: Event)
      requires Valid()
      modifies this
      ensures Valid() && Registry() == Dispatched(old(Registry()), organizationId, e)
      ensures var full := Full(old(connections), Members(byOrg, organizationId));
              && droppedTotal == old(droppedTotal) + |full|
              && dispatchedTotal == old(dispatchedTotal) + |Members(byOrg, organizationId) - full|
    {
      DispatchKeepsIndex(Registry(), organizationId, e);
      FanOut(Members(byOrg, organizationId), e);
    }

    /** The loop over the members of one organization. */
    method FanOut(ids: set<ConnectionId>, e: Event)
      requires ids <= connections.Keys
      modifies this
      ensures byOrg == old(byOrg) && connections == PutAll(old(connections), ids, e)
      ensures var full := Full(old(connections), ids);
              && droppedTotal == old(droppedTotal) + |full|
              && dispatchedTotal == old(dispatchedTotal) + |ids - full|
    {
      ghost var before := connections;
      ghost var full, queued, dropped := Full(connections, ids), {}, {};
      NothingPut(before, ids, e);
      var todo := ids;
      hide Full, PutAll;
      while todo != {}
        invariant todo <= ids && byOrg == old(byOrg)
        invariant connections == PutAll(before, ids - todo, e)
        invariant forall c :: c in queued <==> c in ids && c !in todo && c !in full
        invariant forall c :: c in dropped <==> c in ids && c !in todo && c in full
        invariant droppedTotal == old(droppedTotal) + |dropped|
        invariant dispatchedTotal == old(dispatchedTotal) + |queued|
      {
        var cid :| cid in todo;
        PutOne(before, ids, todo, cid, e);
        var info := connections[cid];
        if |info.queue| < QUEUE_MAXSIZE {
          connections := connections[cid := info.(queue := info.queue + [e])];
          dispatchedTotal := dispatchedTotal + 1;
          queued := queued + {cid};
        } else {
          droppedTotal := droppedTotal + 1;
          dropped := dropped + {cid};
        }
        todo := todo - {cid};
      }
      assert ids - todo == ids && queued == ids - full && dropped == full;
    }

    /** One turn of receive(): the oldest queued event, if there is one. */
    method Receive(connectionId: ConnectionId) returns (r: Option<Event>)
      requires Valid()
      modifies this
      ensures Valid() && Registry() == Received(old(Registry()), connectionId)
      ensures r == if connectionId in connections && old(connections)[connectionId].queue != []
                   then Some(old(connections)[connectionId].queue[0]) else None
      ensures dispatchedTotal == old(dispatchedTotal) && droppedTotal == old(droppedTotal)
    {
      ReceiveKeepsIndex(Registry(), connectionId);
      if connectionId !in connections { return None; }
      var info := connections[connectionId];
      if info.queue == [] { return None; }
      r := Some(info.queue[0]);
      connections := connections[connectionId := info.(queue := info.queue[1..])];
    }

    method ConnectionCount(organizationId: Option<Uuid>) returns (n: nat)
      requires Valid()
      ensures organizationId.None? ==> n == |connections|
      ensures organizationId.Some? ==> n == |set c | c in connections && connections[c].org == organizationId.value|
    {
      if organizationId.None? {
        n := |connections|;
      } else {
        n := |Members(byOrg, organizationId.value)|;
        assert Members(byOrg, organizationId.value)
               == set c | c in connections && connections[c].org == organizationId.value;
      }
    }
  }

  /** The clients whose queue cannot take another event. */
  function Full(conns: map<ConnectionId, Conn>, ids: set<ConnectionId>): set<ConnectionId> {
    set c | c in ids && c in conns && |conns[c].queue| >= QUEUE_MAXSIZE
  }

  lemma NothingPut(conns: map<ConnectionId, Conn>, ids: set<ConnectionId>, e: Event)
    ensures PutAll(conns, ids - ids, e) == conns
    ensures Full(conns, ids) <= ids
  {
  }

  lemma PutOne(conns: map<ConnectionId, Conn>, ids: set<ConnectionId>, todo: set<ConnectionId>, c: ConnectionId,
               e: Event)
    requires c in todo && todo <= ids && c in conns
    ensures var now := PutAll(conns, ids - todo, e);
            && c in now && now[c] == conns[c]
            && PutAll(conns, ids - (todo - {c}), e) == now[c := conns[c].(queue := Put(conns[c].queue, e))]
            && (|conns[c].queue| >= QUEUE_MAXSIZE ==> PutAll(conns, ids - (todo - {c}), e) == now)
    ensures c in Full(conns, ids) <==> |conns[c].queue| >= QUEUE_MAXSIZE
  {
  }

  // ---- Runs ------------------------------------------------------------------

  datatype Op =
    | Register(cid: ConnectionId, org: Uuid)
    | Unregister(cid: ConnectionId)
    | Dispatch(org: Uuid, e: Event)
    | Receive(cid: ConnectionId)

  function Step(s: State, op: Op): State {
    match op
    case Register(cid, org) => Registered(s, cid, org)
    case Unregister(cid) => Unregistered(s, cid)
    case Dispatch(org, e) => Dispatched(s, org, e)
    case Receive(cid) => Received(s, cid)
  }

  function Run(ops: seq<Op>): State {
    if ops == [] then EMPTY else Step(Run(ops[..|ops| - 1]), ops[|ops| - 1])
  }

  /** uuid4 never repeats the id of a live connection. */
  ghost predicate FreshIds(ops: seq<Op>) {
    forall i :: 0 <= i < |ops| && ops[i].Register? ==> ops[i].cid !in Run(ops[..i]).conns
  }

  /** What one client ought to observe, told from its own point of view: a
      FIFO of 256 places, with no registry and no other client in sight.
      `offered` are its organization's events since it registered. */
  datatype Mailbox = Mailbox(org: Uuid, queue: seq<Event>, delivered: seq<Event>, offered: seq<Event>, dropped: nat)

  function Observe(box: Option<Mailbox>, cid: ConnectionId, op: Op): Option<Mailbox> {
    match op
    case Register(c, org) => if c == cid then Some(Mailbox(org, [], [], [], 0)) else box
    case Unregister(c) => if c == cid then None else box
    case Dispatch(org, e) =>
      if box.None? || box.value.org != org then box
      else if |box.value.queue| < 256 then
        Some(box.value.(queue := box.value.queue + [e], offered := box.value.offered + [e]))
      else Some(box.value.(offered := box.value.offered + [e], dropped := box.value.dropped + 1))
    case Receive(c) =>
      if c != cid || box.None? || box.value.queue == [] then box
      else Some(box.value.(queue := box.value.queue[1..], delivered := box.value.delivered + [box.value.queue[0]]))
  }

  function Observed(ops: seq<Op>, cid: ConnectionId): Option<Mailbox> {
    if ops == [] then None else Observe(Observed(ops[..|ops| - 1], cid), cid, ops[|ops| - 1])
  }

  ghost predicate Agrees(s: State, cid: ConnectionId, box: Option<Mailbox>) {
    if box.None? then cid !in s.conns
    else cid in s.conns && s.conns[cid] == Conn(box.value.org, box.value.queue)
  }

  lemma StepAgrees(s: State, cid: ConnectionId, box: Option<Mailbox>, op: Op)
    requires Indexed(s) && Agrees(s, cid, box)
    ensures Agrees(Step(s, op), cid, Observe(box, cid, op))
  {
  }

  /** In every run the registry stays indexed, and every client sees exactly
      its own bounded FIFO: fan-out through the shared index never mixes up
      organizations, and a slow client costs nobody else an event. */
  lemma {:induction false} RunRefinesMailboxes(ops: seq<Op>, cid: ConnectionId)
    requires FreshIds(ops)
    ensures Indexed(Run(ops))
    ensures Agrees(Run(ops), cid, Observed(ops, cid))
    decreases |ops|
  {
    if ops != [] {
      var init, op := ops[..|ops| - 1], ops[|ops| - 1];
      assert FreshIds(init) by {
        forall i | 0 <= i < |init| && init[i].Register? ensures init[i].cid !in Run(init[..i]).conns {
          assert init[..i] == ops[..i] && init[i] == ops[i];
        }
      }
      RunRefinesMailboxes(init, cid);
      StepAgrees(Run(init), cid, Observed(init, cid), op);
      assert op.Register? ==> op.cid !in Run(ops[..|ops| - 1]).conns;
      match op
      case Register(c, org) => RegisterKeepsIndex(Run(init), c, org);
      case Unregister(c) => UnregisterKeepsIndex(Run(init), c);
      case Dispatch(org, e) => DispatchKeepsIndex(Run(init), org, e);
      case Receive(c) => ReceiveKeepsIndex(Run(init), c);
    }
  }

  // ---- What the bounded FIFO guarantees --------------------------------------

  /** a is b with some elements left out, in the same order. */
  ghost predicate Subsequence(a: seq<Event>, b: seq<Event>) {
    a == [] || (b != [] && (Subsequence(a, b[..|b| - 1])
                            || (a[|a| - 1] == b[|b| - 1] && Subsequence(a[..|a| - 1], b[..|b| - 1]))))
  }

  ghost predicate Sound(box: Mailbox) {
    && |box.queue| <= 256
    && Subsequence(box.delivered + box.queue, box.offered)
    && |box.delivered| + |box.queue| + box.dropped == |box.offered|
    && (box.dropped == 0 ==> box.delivered + box.queue == box.offered)
  }

  lemma SubsequenceGrows(a: seq<Event>, b: seq<Event>, e: Event)
    requires Subsequence(a, b)
    ensures Subsequence(a, b + [e]) && Subsequence(a + [e], b + [e])
  {
    assert (b + [e])[..|b|] == b && (a + [e])[..|a|] == a;
  }

  lemma ObserveIsSound(box: Option<Mailbox>, cid: ConnectionId, op: Op)
    requires box.Some? ==> Sound(box.value)
    ensures Observe(box, cid, op).Some? ==> Sound(Observe(box, cid, op).value)
  {
    if box.Some? {
      var b := box.value;
      if op.Dispatch? {
        SubsequenceGrows(b.delivered + b.queue, b.offered, op.e);
        assert b.delivered + (b.queue + [op.e]) == (b.delivered + b.queue) + [op.e];
      }
      if op.Receive? && b.queue != [] {
        assert b.delivered + [b.queue[0]] + b.queue[1..] == b.delivered + b.queue;
      }
    }
  }

  /** For every live connection of every run: what was delivered plus what is
      queued is an order-preserving subsequence of its organization's events
      since registration, the queue never exceeds 256, and every offered event
      is delivered, queued or dropped; nothing is missing if nothing was dropped. */
  lemma {:induction false} MailboxesAreSound(ops: seq<Op>, cid: ConnectionId)
    ensures Observed(ops, cid).Some? ==> Sound(Observed(ops, cid).value)
    decreases |ops|
  {
    if ops != [] {
      MailboxesAreSound(ops[..|ops| - 1], cid);
      ObserveIsSound(Observed(ops[..|ops| - 1], cid), cid, ops[|ops| - 1]);
    }
  }

  /** The events dispatched to an organization since the client registered,
      read off the run itself. */
  function SinceRegistration(ops: seq<Op>, cid: ConnectionId, org: Uuid): seq<Event> {
    if ops == [] then [] else
      var before := SinceRegistration(ops[..|ops| - 1], cid, org);
      match ops[|ops| - 1]
      case Register(c, _) => if c == cid then [] else before
      case Dispatch(o, e) => if o == org then before + [e] else before
      case _ => before
  }

  lemma {:induction false} OfferedIsOwnOrganization(ops: seq<Op>, cid: ConnectionId)
    ensures Observed(ops, cid).Some? ==>
              Observed(ops, cid).value.offered == SinceRegistration(ops, cid, Observed(ops, cid).value.org)
    decreases |ops|
  {
    if ops != [] { OfferedIsOwnOrganization(ops[..|ops| - 1], cid); }
  }

  /** A client that is never 256 events behind loses nothing. */
  lemma {:induction false} NoDropWithoutOverflow(ops: seq<Op>, cid: ConnectionId)
    requires forall i :: 0 <= i < |ops| && Observed(ops[..i], cid).Some?
               ==> |Observed(ops[..i], cid).value.queue| < 256
    ensures Observed(ops, cid).Some? ==> Observed(ops, cid).value.dropped == 0
    decreases |ops|
  {
    if ops != [] {
      var init := ops[..|ops| - 1];
      forall i | 0 <= i < |init| && Observed(init[..i], cid).Some?
        ensures |Observed(init[..i], cid).value.queue| < 256
      {
        assert init[..i] == ops[..i];
      }
      NoDropWithoutOverflow(init, cid);
    }
  }
}
