/** EventBus: publishing to a capped replay list, and resuming from an id. */
module EventBus {
  import opened Outcomes
  import opened Events

  /** One element of the Redis list; model_validate_json skips garbage. */
  datatype Raw = Json(event: Event) | Garbage

  /** LTRIM key start -1, with Redis's meaning of a negative start. */
  function Ltrim<T>(s: seq<T>, start: int): seq<T> {
    if start >= 0 then (if start >= |s| then [] else s[start..])
    else if |s| + start < 0 then s else s[|s| + start..]
  }

  function Parse(raw: seq<Raw>): seq<Event> {
    if raw == [] then [] else (if raw[0].Json? then [raw[0].event] else []) + Parse(raw[1..])
  }

  /** The events after the first one with this id; everything if there is none. */
  function After(events: seq<Event>, id: Option<Uuid>): seq<Event> {
    if id.None? then events else
      var i := FirstWith(events, id.value);
      if i == |events| then events else events[i + 1..]
  }

  function FirstWith(events: seq<Event>, id: Uuid): (i: nat)
    ensures i <= |events|
    ensures i < |events| ==> events[i].id == id
    ensures forall j :: 0 <= j < i ==> events[j].id != id
  {
    if events == [] || events[0].id == id then 0 else 1 + FirstWith(events[1..], id)
  }

  function Entry(replay: map<Uuid, seq<Raw>>, org: Uuid): seq<Raw> {
    if org in replay then replay[org] else []
  }

  /** RPUSH then LTRIM on the organization's list. */
  function Append(replay: map<Uuid, seq<Raw>>, e: Event, size: int): map<Uuid, seq<Raw>> {
    replay[e.org := Ltrim(Entry(replay, e.org) + [Json(e)], -size)]
  }

  /** A Pub/Sub message. */
  datatype Message = Message(channel: string, data: Raw)

  /** What the dispatch loop makes of a message. */
  function Receive(m: Message): Option<(Uuid, Event)> {
    match OrgIdFromChannel(m.channel)
    case None => None
    case Some(org) => if m.data.Json? then Some((org, m.data.event)) else None
  }

  class EventBus {
    const size: int
    var replay: map<Uuid, seq<Raw>>
    var sent: seq<Message>

    constructor (size: int := 200)
      ensures this.size == size && replay == map[] && sent == []
    {
      this.size := size;
      replay, sent := map[], [];
    }

    /** One MULTI/EXEC pipeline; a Redis error loses the event and is swallowed. */
    method Publish(e: Event, redisUp: bool)
      modifies this
      ensures sent == if redisUp then old(sent) + [Message(OrgChannel(e.org), Json(e))] else old(sent)
      ensures replay == if redisUp then Append(old(replay), e, size) else old(replay)
    {
      if redisUp {
        sent := sent + [Message(OrgChannel(e.org), Json(e))];
        var list := Entry(replay, e.org) + [Json(e)];
        replay := replay[e.org := Ltrim(list, -size)];
      }
    }

    /** The TTL of an organization's list runs out. */
    method Expire(org: Uuid)
      modifies this
      ensures replay == old(replay) - {org} && sent == old(sent)
    {
      replay := replay - {org};
    }

    method ReplaySince(org: Uuid, lastEventId: Option<Uuid>, redisUp: bool) returns (r: seq<Event>)
      ensures r == if redisUp then After(Parse(Entry(replay, org)), lastEventId) else []
    {
      if !redisUp { return []; }
      var raw := Entry(replay, org);
      var events: seq<Event> := [];
      for i := 0 to |raw|
        invariant events + Parse(raw[i..]) == Parse(raw)
      {
        if raw[i].Json? { events := events + [raw[i].event]; }
      }
      assert events == Parse(raw);
      if lastEventId.None? { return events; }
      r := EventsAfter(events, lastEventId.value);
    }
  }

  method EventsAfter(events: seq<Event>, id: Uuid) returns (r: seq<Event>)
    ensures r == After(events, Some(id))
  {
    for i := 0 to |events|
      invariant forall j :: 0 <= j < i ==> events[j].id != id
    {
      if events[i].id == id {
        assert FirstWith(events, id) == i;
        return events[i + 1..];
      }
    }
    return events;
  }

  // ---- Runs ------------------------------------------------------------------

  datatype Op = Publish(e: Event) | Lost(e: Event) | Expire(org: Uuid)

  /** The replay lists after a run, each operation doing what the method does. */
  function Run(size: int, ops: seq<Op>): map<Uuid, seq<Raw>> {
    if ops == [] then map[] else
      var before := Run(size, ops[..|ops| - 1]);
      match ops[|ops| - 1]
      case Publish(e) => Append(before, e, size)
      case Lost(_) => before
      case Expire(org) => before - {org}
  }

  /** The events of an organization published since its list last expired. */
  function Lifetime(ops: seq<Op>, org: Uuid): seq<Event> {
    if ops == [] then [] else
      var before := Lifetime(ops[..|ops| - 1], org);
      match ops[|ops| - 1]
      case Publish(e) => if e.org == org then before + [e] else before
      case Lost(_) => before
      case Expire(o) => if o == org then [] else before
  }

  function Suffix<T>(s: seq<T>, n: nat): seq<T> { if |s| <= n then s else s[|s| - n..] }

  /** What a buffer of the configured size keeps of a history: with a size of
      0 everything (LTRIM 0 -1), with a negative size nothing. */
  function Kept(size: int, history: seq<Event>): seq<Event> {
    if size == 0 then history else if size < 0 then [] else Suffix(history, size)
  }

  function Encode(events: seq<Event>): seq<Raw> { seq(|events|, i requires 0 <= i < |events| => Json(events[i])) }

  lemma TrimStep(size: int, history: seq<Event>, e: Event)
    ensures Ltrim(Encode(Kept(size, history)) + [Json(e)], -size) == Encode(Kept(size, history + [e]))
  {
    assert Encode(Kept(size, history)) + [Json(e)] == Encode(Kept(size, history) + [e]);
    TrimEncoded(Kept(size, history) + [e], -size);
    TrimKept(size, history, e);
    hide *;
  }

  lemma TrimEncoded(events: seq<Event>, start: int)
    ensures Ltrim(Encode(events), start) == Encode(Ltrim(events, start))
  {
  }

  lemma TrimKept(size: int, history: seq<Event>, e: Event)
    ensures Ltrim(Kept(size, history) + [e], -size) == Kept(size, history + [e])
  {
  }

  /** In every run each organization's buffer holds exactly the newest events
      of its current lifetime, whatever happens to other organizations. */
  lemma {:induction false} BufferContents(size: int, ops: seq<Op>, org: Uuid)
    ensures Entry(Run(size, ops), org) == Encode(Kept(size, Lifetime(ops, org)))
    decreases |ops|
  {
    if ops != [] {
      var init := ops[..|ops| - 1];
      BufferContents(size, init, org);
      match ops[|ops| - 1]
      case Publish(e) => if e.org == org { TrimStep(size, Lifetime(init, org), e); }
      case Lost(_) =>
      case Expire(o) =>
    }
  }

  lemma {:induction false} ParseEncode(events: seq<Event>)
    ensures Parse(Encode(events)) == events
  {
    if events != [] {
      assert Encode(events)[1..] == Encode(events[1..]);
      ParseEncode(events[1..]);
    }
  }

  ghost predicate DistinctIds(events: seq<Event>) {
    forall i, j :: 0 <= i < j < |events| ==> events[i].id != events[j].id
  }

  lemma FirstInSuffix(history: seq<Event>, off: nat, j: nat)
    requires off <= j < |history| && DistinctIds(history)
    ensures FirstWith(history[off..], history[j].id) == j - off
  {
    var f := FirstWith(history[off..], history[j].id);
    assert history[off..][j - off] == history[j];
    assert f < |history| - off ==> history[off..][f] == history[off + f];
    hide FirstWith;
  }

  lemma Evicted(history: seq<Event>, off: nat, j: nat)
    requires j < off <= |history| && DistinctIds(history)
    ensures FirstWith(history[off..], history[j].id) == |history| - off
  {
    var i := FirstWith(history[off..], history[j].id);
    assert forall k :: 0 <= k < |history| - off ==> history[off..][k] == history[off + k];
  }

  /** The scan over a suffix of the history, from an event inside it or before it. */
  lemma ReplayOfSuffix(history: seq<Event>, off: nat, j: nat)
    requires off <= |history| && j < |history| && DistinctIds(history)
    ensures After(history[off..], Some(history[j].id)) == if off <= j then history[j + 1..] else history[off..]
  {
    hide FirstWith, DistinctIds;
    if off <= j {
      FirstInSuffix(history, off, j);
      assert history[off..][j - off + 1..] == history[j + 1..];
    } else {
      Evicted(history, off, j);
    }
  }

  lemma SuffixOfShort<T>(s: seq<T>, n: nat)
    requires |s| <= n
    ensures Suffix(s, n) == s
  {
  }

  lemma SuffixOfSuffix(s: seq<Event>, n: nat, j: nat)
    requires j < |s| - n
    ensures Suffix(s[j + 1..], n) == Suffix(s, n)
  {
  }

  lemma ReplayOfKept(size: int, history: seq<Event>, j: nat)
    requires size >= 1 && DistinctIds(history) && j < |history|
    ensures After(Kept(size, history), Some(history[j].id)) == Suffix(history[j + 1..], size)
  {
    var kept := Kept(size, history);
    var off := |history| - |kept|;
    assert kept == history[off..];
    assert size <= |history| ==> off == |history| - size;
    hide After, DistinctIds, Kept;
    ReplayOfSuffix(history, off, j);
    if off <= j { SuffixOfShort(history[j + 1..], size); } else { SuffixOfSuffix(history, size, j); }
  }

  /** replay_since(id): for the j-th event of the current lifetime, exactly the
      last min(size, k) of the k events published after it, in order. */
  lemma ReplaySinceId(size: int, ops: seq<Op>, org: Uuid, j: nat)
    requires size >= 1
    requires DistinctIds(Lifetime(ops, org)) && j < |Lifetime(ops, org)|
    ensures
      var history := Lifetime(ops, org);
      var replayed := After(Parse(Entry(Run(size, ops), org)), Some(history[j].id));
      && replayed == Suffix(history[j + 1..], size)
      && (replayed == history[j + 1..] <==> |history| - (j + 1) <= size)
  {
    var history := Lifetime(ops, org);
    BufferContents(size, ops, org);
    ParseEncode(Kept(size, history));
    ReplayOfKept(size, history, j);
  }

  /** Every published message reaches the dispatch loop with its own organization. */
  lemma PublishReachesItsOrganization(e: Event)
    ensures Receive(Message(OrgChannel(e.org), Json(e))) == Some((e.org, e))
  {
    ChannelRoundTrip(e.org);
  }
}
