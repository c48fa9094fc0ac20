/** A client that reconnects: what replay_since and its queue give it together,
    in one run of publishing, dispatching and receiving. */
module Resume {
  import opened Outcomes
  import opened Events
  import Bus = EventBus
  import Manager = ConnectionManager

  /** `Deliver` is one turn of the dispatch loop, which takes the oldest message
      not yet taken; `Lose` is a publish while Redis is down. */
  datatype Op =
    | Publish(e: Event)
    | Lose(e: Event)
    | Expire(org: Uuid)
    | Deliver
    | Register(cid: string, org: Uuid)
    | Unregister(cid: string)
    | Receive(cid: string)

  /** The messages on the wire, in order. */
  function Sent(ops: seq<Op>): seq<Event> {
    if ops == [] then [] else
      Sent(ops[..|ops| - 1]) + if ops[|ops| - 1].Publish? then [ops[|ops| - 1].e] else []
  }

  /** How many of them the dispatch loop has taken. */
  function Taken(ops: seq<Op>): (n: nat)
    ensures n <= |Sent(ops)|
  {
    if ops == [] then 0 else
      var before := Taken(ops[..|ops| - 1]);
      if ops[|ops| - 1].Deliver? && before < |Sent(ops[..|ops| - 1])| then before + 1 else before
  }

  function BusOp(op: Op): seq<Bus.Op> {
    match op
    case Publish(e) => [Bus.Publish(e)]
    case Lose(e) => [Bus.Lost(e)]
    case Expire(org) => [Bus.Expire(org)]
    case _ => []
  }

  /** What the run is for the event bus. */
  function BusOps(ops: seq<Op>): seq<Bus.Op> {
    if ops == [] then [] else BusOps(ops[..|ops| - 1]) + BusOp(ops[|ops| - 1])
  }

  /** What the dispatch loop does with a message. */
  function Handled(m: Bus.Message): seq<Manager.Op> {
    match Bus.Receive(m)
    case None => []
    case Some((org, e)) => [Manager.Dispatch(org, e)]
  }

  /** The message the dispatch loop takes next. */
  function Waiting(ops: seq<Op>): Option<Event> {
    if Taken(ops) < |Sent(ops)| then Some(Sent(ops)[Taken(ops)]) else None
  }

  function ManagerOp(waiting: Option<Event>, op: Op): seq<Manager.Op> {
    match op
    case Deliver =>
      if waiting.None? then []
      else Handled(Bus.Message(OrgChannel(waiting.value.org), Bus.Json(waiting.value)))
    case Register(cid, org) => [Manager.Register(cid, org)]
    case Unregister(cid) => [Manager.Unregister(cid)]
    case Receive(cid) => [Manager.Receive(cid)]
    case _ => []
  }

  /** What the run is for the connection manager. */
  function ManagerOps(ops: seq<Op>): seq<Manager.Op> {
    if ops == [] then [] else
      ManagerOps(ops[..|ops| - 1]) + ManagerOp(Waiting(ops[..|ops| - 1]), ops[|ops| - 1])
  }

  /** The events of one organization. */
  function Of(events: seq<Event>, org: Uuid): seq<Event> {
    if events == [] then [] else
      Of(events[..|events| - 1], org) + if events[|events| - 1].org == org then [events[|events| - 1]] else []
  }

  function Published(ops: seq<Op>, org: Uuid): seq<Event> { Of(Sent(ops), org) }

  function Dispatched(ops: seq<Op>, org: Uuid): seq<Event> { Of(Sent(ops)[..Taken(ops)], org) }

  lemma OfSnoc(events: seq<Event>, e: Event, org: Uuid)
    ensures Of(events + [e], org) == Of(events, org) + if e.org == org then [e] else []
  {
    assert (events + [e])[..|events|] == events;
  }

  lemma {:induction false} OfPrefix(events: seq<Event>, n: nat, org: Uuid)
    requires n <= |events|
    ensures Of(events[..n], org) <= Of(events, org)
    decreases |events|
  {
    if n < |events| {
      OfPrefix(events[..|events| - 1], n, org);
      assert events[..|events| - 1][..n] == events[..n];
    } else {
      assert events[..n] == events;
    }
  }

  /** One more operation: what it publishes and dispatches of an organization. */
  lemma LastPublished(ops: seq<Op>, org: Uuid)
    requires ops != []
    ensures
      var init, op := ops[..|ops| - 1], ops[|ops| - 1];
      Published(ops, org) == if op.Publish? && op.e.org == org then Published(init, org) + [op.e]
        else Published(init, org)
  {
    var init, op := ops[..|ops| - 1], ops[|ops| - 1];
    assert Sent(ops) == if op.Publish? then Sent(init) + [op.e] else Sent(init);
    hide Sent, Of;
    if op.Publish? { OfSnoc(Sent(init), op.e, org); }
  }

  lemma LastDispatched(ops: seq<Op>, org: Uuid)
    requires ops != []
    ensures
      var init, op := ops[..|ops| - 1], ops[|ops| - 1];
      Dispatched(ops, org)
      == if op.Deliver? && Waiting(init).Some? && Waiting(init).value.org == org
         then Dispatched(init, org) + [Waiting(init).value] else Dispatched(init, org)
  {
    var init, op := ops[..|ops| - 1], ops[|ops| - 1];
    var sent, n := Sent(init), Taken(init);
    assert Sent(ops) == if op.Publish? then sent + [op.e] else sent;
    assert Taken(ops) == if op.Deliver? && n < |sent| then n + 1 else n;
    hide Sent, Taken, Of;
    if op.Deliver? && n < |sent| {
      OfSnoc(sent[..n], sent[n], org);
      assert sent[..n + 1] == sent[..n] + [sent[n]];
    } else {
      assert Sent(ops)[..n] == sent[..n];
    }
  }

  /** Only what was published is dispatched, in the same order. */
  lemma DispatchedIsPrefix(ops: seq<Op>, org: Uuid)
    ensures Dispatched(ops, org) <= Published(ops, org)
  {
    OfPrefix(Sent(ops), Taken(ops), org);
  }

  lemma {:induction false} HistoryGrows(ops: seq<Op>, q: nat, org: Uuid)
    requires q <= |ops|
    ensures Published(ops[..q], org) <= Published(ops, org)
    ensures Dispatched(ops[..q], org) <= Dispatched(ops, org)
    decreases |ops|
  {
    hide Published, Dispatched, Sent, Taken;
    if q < |ops| {
      assert ops[..|ops| - 1][..q] == ops[..q];
      HistoryGrows(ops[..|ops| - 1], q, org);
      LastPublished(ops, org);
      LastDispatched(ops, org);
    } else {
      assert ops[..q] == ops;
    }
  }

  predicate IsSuffix(a: seq<Event>, b: seq<Event>) { |a| <= |b| && a == b[|b| - |a|..] }

  /** A list that has not expired goes back to some point of the history and
      holds, or held before it was trimmed, all since then. */
  lemma {:induction false} LifetimeIsSuffix(ops: seq<Op>, org: Uuid)
    ensures IsSuffix(Bus.Lifetime(BusOps(ops), org), Published(ops, org))
    decreases |ops|
  {
    if ops == [] {
      assert BusOps(ops) == [];
    } else {
      hide *;
      var init, op := ops[..|ops| - 1], ops[|ops| - 1];
      LifetimeIsSuffix(init, org);
      LastPublished(ops, org);
      LastLifetime(ops, org);
      SuffixGrows(Bus.Lifetime(BusOps(init), org), Published(init, org), op);
    }
  }

  lemma SuffixGrows(kept: seq<Event>, history: seq<Event>, op: Op)
    requires IsSuffix(kept, history)
    ensures IsSuffix([], history)
    ensures op.Publish? ==> IsSuffix(kept + [op.e], history + [op.e])
  {
  }

  lemma LastLifetime(ops: seq<Op>, org: Uuid)
    requires ops != []
    ensures
      var before, op := Bus.Lifetime(BusOps(ops[..|ops| - 1]), org), ops[|ops| - 1];
      Bus.Lifetime(BusOps(ops), org)
      == if op.Publish? && op.e.org == org then before + [op.e] else if op == Expire(org) then [] else before
  {
    var before, more := BusOps(ops[..|ops| - 1]), BusOp(ops[|ops| - 1]);
    assert BusOps(ops) == before + more;
    hide BusOps;
    assert |more| == 1 ==> (before + more)[..|before|] == before;
    assert |more| == 0 ==> before + more == before;
  }

  // ---- The queue of a registered client --------------------------------------------------------------

  /** The client registers at p and stays. */
  ghost predicate RegisteredAt(ops: seq<Op>, p: nat, cid: string, org: Uuid)
    requires p < |ops|
  {
    && ops[p] == Register(cid, org)
    && forall i ::
      p < i < |ops| ==> !(ops[i].Register? && ops[i].cid == cid) && !(ops[i].Unregister? && ops[i].cid == cid)
  }

  lemma MessageIsHandled(e: Event)
    ensures Handled(Bus.Message(OrgChannel(e.org), Bus.Json(e))) == [Manager.Dispatch(e.org, e)]
  {
    Bus.PublishReachesItsOrganization(e);
  }

  /** Since it registered, the client has been offered exactly what was
      dispatched to its organization since then. */
  lemma {:induction false} OfferedSinceRegistration(ops: seq<Op>, p: nat, cid: string, org: Uuid)
    requires p < |ops| && RegisteredAt(ops, p, cid, org)
    ensures Dispatched(ops[..p], org) <= Dispatched(ops, org)
    ensures Manager.SinceRegistration(ManagerOps(ops), cid, org) == Dispatched(ops, org)[|Dispatched(ops[..p], org)|..]
    ensures Manager.Observed(ManagerOps(ops), cid).Some? && Manager.Observed(ManagerOps(ops), cid).value.org == org
    decreases |ops|
  {
    hide *;
    var init := ops[..|ops| - 1];
    RegisteredEarlier(ops, p, cid, org);
    LastDispatched(ops, org);
    LastOffered(ops, cid, org);
    LastObserved(ops, cid);
    if p < |init| {
      OfferedSinceRegistration(init, p, cid, org);
      Later(Dispatched(ops[..p], org), Dispatched(init, org), Waiting(init));
    }
  }

  lemma RegisteredEarlier(ops: seq<Op>, p: nat, cid: string, org: Uuid)
    requires p < |ops| && RegisteredAt(ops, p, cid, org)
    ensures
      var init, op := ops[..|ops| - 1], ops[|ops| - 1];
      if p == |init| then ops[..p] == init && op == Register(cid, org)
      else init[..p] == ops[..p] && RegisteredAt(init, p, cid, org)
           && !(op.Register? && op.cid == cid) && !(op.Unregister? && op.cid == cid)
  {
    var init := ops[..|ops| - 1];
    assert forall i :: 0 <= i < |init| ==> init[i] == ops[i];
  }

  lemma Later(from: seq<Event>, all: seq<Event>, e: Option<Event>)
    requires from <= all
    ensures e.Some? ==> from <= all + [e.value] && (all + [e.value])[|from|..] == all[|from|..] + [e.value]
  {
  }

  lemma LastManagerOp(ops: seq<Op>)
    requires ops != []
    ensures
      var before, op, waiting := ManagerOps(ops[..|ops| - 1]), ops[|ops| - 1], Waiting(ops[..|ops| - 1]);
      match op
      case Deliver =>
        ManagerOps(ops) == if waiting.None? then before
          else before + [Manager.Dispatch(waiting.value.org, waiting.value)]
      case Register(cid, org) => ManagerOps(ops) == before + [Manager.Register(cid, org)]
      case Unregister(cid) => ManagerOps(ops) == before + [Manager.Unregister(cid)]
      case Receive(cid) => ManagerOps(ops) == before + [Manager.Receive(cid)]
      case _ => ManagerOps(ops) == before
  {
    var waiting := Waiting(ops[..|ops| - 1]);
    if waiting.Some? { MessageIsHandled(waiting.value); }
    hide Waiting, Handled;
  }

  lemma LastOffered(ops: seq<Op>, cid: string, org: Uuid)
    requires ops != []
    ensures
      var init, op := ops[..|ops| - 1], ops[|ops| - 1];
      var before := Manager.SinceRegistration(ManagerOps(init), cid, org);
      Manager.SinceRegistration(ManagerOps(ops), cid, org)
      == if op.Register? && op.cid == cid then []
         else if op.Deliver? && Waiting(init).Some? && Waiting(init).value.org == org
           then before + [Waiting(init).value]
         else before
  {
    LastManagerOp(ops);
    var before, waiting := ManagerOps(ops[..|ops| - 1]), Waiting(ops[..|ops| - 1]);
    hide *;
    match ops[|ops| - 1]
    case Deliver =>
      if waiting.Some? { SinceSnoc(before, Manager.Dispatch(waiting.value.org, waiting.value), cid, org); }
    case Register(c, o) => SinceSnoc(before, Manager.Register(c, o), cid, org);
    case Unregister(c) => SinceSnoc(before, Manager.Unregister(c), cid, org);
    case Receive(c) => SinceSnoc(before, Manager.Receive(c), cid, org);
    case _ =>
  }

  lemma SinceSnoc(before: seq<Manager.Op>, m: Manager.Op, cid: string, org: Uuid)
    ensures
      var since := Manager.SinceRegistration(before, cid, org);
      Manager.SinceRegistration(before + [m], cid, org)
      == if m.Register? && m.cid == cid then [] else if m.Dispatch? && m.org == org then since + [m.e] else since
  {
    assert (before + [m])[..|before|] == before;
  }

  lemma LastObserved(ops: seq<Op>, cid: string)
    requires ops != []
    ensures
      var op, before := ops[|ops| - 1], Manager.Observed(ManagerOps(ops[..|ops| - 1]), cid);
      var after := Manager.Observed(ManagerOps(ops), cid);
      if op.Register? && op.cid == cid then after.Some? && after.value.org == op.org
      else if op.Unregister? && op.cid == cid then true
      else before.Some? ==> after.Some? && after.value.org == before.value.org
  {
    LastManagerOp(ops);
    var before, waiting := ManagerOps(ops[..|ops| - 1]), Waiting(ops[..|ops| - 1]);
    hide *;
    match ops[|ops| - 1]
    case Deliver =>
      if waiting.Some? { ObservedSnoc(before, Manager.Dispatch(waiting.value.org, waiting.value), cid); }
    case Register(c, o) => ObservedSnoc(before, Manager.Register(c, o), cid);
    case Unregister(c) => ObservedSnoc(before, Manager.Unregister(c), cid);
    case Receive(c) => ObservedSnoc(before, Manager.Receive(c), cid);
    case _ =>
  }

  lemma ObservedSnoc(before: seq<Manager.Op>, m: Manager.Op, cid: string)
    ensures
      var box, after := Manager.Observed(before, cid), Manager.Observed(before + [m], cid);
      if m.Register? && m.cid == cid then after.Some? && after.value.org == m.org
      else if m.Unregister? && m.cid == cid then true
      else box.Some? ==> after.Some? && after.value.org == box.value.org
  {
    assert (before + [m])[..|before|] == before;
    assert Manager.Observed(before + [m], cid) == Manager.Observe(Manager.Observed(before, cid), cid, m);
    hide Manager.Observed;
  }

  // ---- Reconnecting ------------------------------------------------------------------------------------

  /** The list of an organization read at the end of the run, from an event that
      is in its current lifetime on. */
  lemma ReplayAtEnd(size: int, ops: seq<Op>, org: Uuid, j: nat)
    requires size >= 1 && Bus.DistinctIds(Published(ops, org))
    requires |Published(ops, org)| - |Bus.Lifetime(BusOps(ops), org)| <= j < |Published(ops, org)|
    ensures
      var history := Published(ops, org);
      Bus.After(Bus.Parse(Bus.Entry(Bus.Run(size, BusOps(ops)), org)), Some(history[j].id))
      == Bus.Suffix(history[j + 1..], size)
  {
    var history, kept := Published(ops, org), Bus.Lifetime(BusOps(ops), org);
    var off := |history| - |kept|;
    LifetimeIsSuffix(ops, org);
    hide Published, BusOps, Bus.Lifetime, Bus.Parse, Bus.After, Bus.Entry, Bus.Run;
    Bus.ReplaySinceId(size, BusOps(ops), org, j - off);
    assert kept[j - off] == history[j] && kept[j - off + 1..] == history[j + 1..];
  }

  /** What replay_since returns to the client at step q. */
  function Replayed(size: int, ops: seq<Op>, q: nat, org: Uuid, id: Uuid): seq<Event>
    requires q <= |ops|
  {
    Bus.After(Bus.Parse(Bus.Entry(Bus.Run(size, BusOps(ops[..q])), org)), Some(id))
  }

  /** A client whose last event was the j-th registers at p, reads the replay list
      at q and receives from its queue. Its queue in the registry is that of its
      mailbox. What it gets together with what still waits is every event after the
      j-th up to the read, and everything dispatched since it registered, exactly
      when at most `size` events were published since the j-th and none was dropped. */
  lemma ResumeHasNoGap(size: int, ops: seq<Op>, p: nat, q: nat, cid: string, org: Uuid, j: nat)
    requires size >= 1 && p < q <= |ops| && RegisteredAt(ops, p, cid, org)
    requires Manager.FreshIds(ManagerOps(ops)) && Bus.DistinctIds(Published(ops, org))
    requires
      var read := |Published(ops[..q], org)|;
      read - |Bus.Lifetime(BusOps(ops[..q]), org)| <= j < read <= |Published(ops, org)|
    ensures
      var history, box := Published(ops, org), Manager.Observed(ManagerOps(ops), cid);
      var before, read, now := |Dispatched(ops[..p], org)|, |Published(ops[..q], org)|, |Dispatched(ops, org)|;
      && box.Some? && before <= read && before <= now <= |history|
      && cid in Manager.Run(ManagerOps(ops)).conns
      && Manager.Run(ManagerOps(ops)).conns[cid] == Manager.Conn(org, box.value.queue)
      && (Replayed(size, ops, q, org, history[j].id) + (box.value.delivered + box.value.queue)
            == history[j + 1..read] + history[before..now]
          <==> read - (j + 1) <= size && box.value.dropped == 0)
  {
    var history := Published(ops, org);
    var past := ops[..q];
    var before, read, now := |Dispatched(ops[..p], org)|, |Published(past, org)|, |Dispatched(ops, org)|;
    Positions(ops, p, q, org);
    QueueOf(ops, p, cid, org);
    var box := Manager.Observed(ManagerOps(ops), cid).value;
    hide Published, Dispatched, ManagerOps, BusOps, Bus.Lifetime, Manager.Observed, Manager.Run, Bus.After,
      Bus.Parse, Bus.Run, RegisteredAt, Manager.FreshIds;
    assert Published(past, org) == history[..read];
    ReplayAtEnd(size, past, org, j);
    assert history[..read][j + 1..] == history[j + 1..read] && history[..read][j] == history[j];
    Exactly(Replayed(size, ops, q, org, history[j].id), history[j + 1..read], size,
      box.delivered + box.queue, history[before..now], box.dropped);
  }

  lemma Exactly(replayed: seq<Event>, wanted: seq<Event>, size: nat, got: seq<Event>, offered: seq<Event>, dropped: nat)
    requires replayed == Bus.Suffix(wanted, size)
    requires |got| + dropped == |offered| && (dropped == 0 ==> got == offered)
    ensures replayed + got == wanted + offered <==> |wanted| <= size && dropped == 0
  {
    if replayed + got == wanted + offered {
      assert |replayed| + |got| == |wanted| + |offered|;
    }
  }

  lemma Positions(ops: seq<Op>, p: nat, q: nat, org: Uuid)
    requires p < q <= |ops|
    ensures Published(ops[..q], org) <= Published(ops, org)
    ensures Dispatched(ops[..p], org) <= Dispatched(ops, org) <= Published(ops, org)
    ensures |Dispatched(ops[..p], org)| <= |Published(ops[..q], org)|
  {
    HistoryGrows(ops, q, org);
    HistoryGrows(ops, p, org);
    HistoryGrows(ops[..q], p, org);
    assert ops[..q][..p] == ops[..p];
    DispatchedIsPrefix(ops, org);
    DispatchedIsPrefix(ops[..q], org);
    hide Published, Dispatched;
  }

  /** The client's mailbox: it is the queue of the registry, and holds, with what
      was delivered and dropped, what was dispatched since registration. */
  lemma QueueOf(ops: seq<Op>, p: nat, cid: string, org: Uuid)
    requires p < |ops| && RegisteredAt(ops, p, cid, org) && Manager.FreshIds(ManagerOps(ops))
    requires Dispatched(ops[..p], org) <= Dispatched(ops, org) <= Published(ops, org)
    ensures
      var box, m := Manager.Observed(ManagerOps(ops), cid), Manager.Run(ManagerOps(ops));
      var offered := Published(ops, org)[|Dispatched(ops[..p], org)|..|Dispatched(ops, org)|];
      && box.Some? && cid in m.conns && m.conns[cid] == Manager.Conn(org, box.value.queue)
      && |box.value.delivered + box.value.queue| + box.value.dropped == |offered|
      && (box.value.dropped == 0 ==> box.value.delivered + box.value.queue == offered)
  {
    hide *;
    OfferedSinceRegistration(ops, p, cid, org);
    QueueFacts(ManagerOps(ops), cid);
    RestOfPrefix(Published(ops, org), Dispatched(ops, org), |Dispatched(ops[..p], org)|);
  }

  lemma RestOfPrefix(history: seq<Event>, prefix: seq<Event>, from: nat)
    requires from <= |prefix| && prefix <= history
    ensures prefix[from..] == history[from..|prefix|]
  {
  }

  /** What the connection manager promises of one registered client. */
  lemma QueueFacts(ms: seq<Manager.Op>, cid: string)
    requires Manager.FreshIds(ms) && Manager.Observed(ms, cid).Some?
    ensures
      var box, m := Manager.Observed(ms, cid).value, Manager.Run(ms);
      var offered := Manager.SinceRegistration(ms, cid, box.org);
      && cid in m.conns && m.conns[cid] == Manager.Conn(box.org, box.queue)
      && |box.delivered + box.queue| + box.dropped == |offered|
      && (box.dropped == 0 ==> box.delivered + box.queue == offered)
  {
    Manager.RunRefinesMailboxes(ms, cid);
    Manager.MailboxesAreSound(ms, cid);
    Manager.OfferedIsOwnOrganization(ms, cid);
    hide Manager.Observed, Manager.Run, Manager.SinceRegistration, Manager.Subsequence, Manager.FreshIds;
  }

  /** When the j-th event had been dispatched before the registration and the
      dispatch loop has caught up with the read, the client misses nothing and
      gets twice exactly what was published between registration and read. */
  lemma ResumedClientMissesNothing(size: int, ops: seq<Op>, p: nat, q: nat, cid: string, org: Uuid, j: nat)
    requires size >= 1 && p < q <= |ops| && RegisteredAt(ops, p, cid, org)
    requires Manager.FreshIds(ManagerOps(ops)) && Bus.DistinctIds(Published(ops, org))
    requires
      var before, read, now := |Dispatched(ops[..p], org)|, |Published(ops[..q], org)|, |Dispatched(ops, org)|;
      && read - |Bus.Lifetime(BusOps(ops[..q]), org)| <= j < before
      && read <= now && read <= |Published(ops, org)| && read - (j + 1) <= size
    requires forall i :: 0 <= i < |ManagerOps(ops)| && Manager.Observed(ManagerOps(ops)[..i], cid).Some? ==>
      |Manager.Observed(ManagerOps(ops)[..i], cid).value.queue| < 256
    ensures
      var history, box := Published(ops, org), Manager.Observed(ManagerOps(ops), cid);
      var before, read, now := |Dispatched(ops[..p], org)|, |Published(ops[..q], org)|, |Dispatched(ops, org)|;
      && before <= read <= now <= |history| && box.Some?
      && Replayed(size, ops, q, org, history[j].id) + (box.value.delivered + box.value.queue)
         == history[j + 1..before] + history[before..read] + history[before..read] + history[read..now]
  {
    hide *;
    Positions(ops, p, q, org);
    ResumeHasNoGap(size, ops, p, q, cid, org, j);
    Manager.NoDropWithoutOverflow(ManagerOps(ops), cid);
    Overlap(Published(ops, org), j, |Dispatched(ops[..p], org)|, |Published(ops[..q], org)|, |Dispatched(ops, org)|);
  }

  lemma Overlap(history: seq<Event>, j: nat, before: nat, read: nat, now: nat)
    requires j < before <= read <= now <= |history|
    ensures history[j + 1..read] + history[before..now]
      == history[j + 1..before] + history[before..read] + history[before..read] + history[read..now]
  {
    assert history[j + 1..read] == history[j + 1..before] + history[before..read];
    assert history[before..now] == history[before..read] + history[read..now];
  }
}
