/** Delivery of data packets, seen between awaits: JSON requests waiting under a per-channel lock, the
    callback table, the channel queues, and everything that can overtake everything else. */
module Delivery {
  import opened Bytes
  import opened ChannelRegistry

  datatype FutureState = Waiting | Done(body: bytes) | Cancelled

  /** `set_result`, which the dispatcher skips on a future that is already done. */
  function Resolve(state: FutureState, body: bytes): FutureState
  {
    if state.Waiting? then Done(body) else state
  }

  /** A request holding its channel's lock: the channel id it wrote to and the future it awaits. */
  datatype Request = Request(channelId: int, future: nat)

  /** Requests are keyed by the serial of the channel whose lock they hold; callbacks by channel id. */
  datatype Conn = Conn(
    mux: Mux,
    callbacks: map<int, nat>,
    futures: seq<FutureState>,
    requests: map<nat, Request>,
    unsolicited: seq<bytes>)

  datatype Event =
    | Registry(change: ChannelRegistry.Event)
    | Packet(channelId: int, body: bytes)
    | Read(serial: nat)
    | Begin(serial: nat, channelId: int)
    | Return(serial: nat)
    | Expire(serial: nat)
    | TimedOut(serial: nat)
    | Abandon(serial: nat, cancelled: bool)

  // ----- The steps ----------------------------------------------------------------------

  /** The first open channel with the id, or the length. */
  function Routed(reg: seq<Chan>, channelId: int): (at: nat)
    ensures at <= |reg| && (at < |reg| ==> reg[at].isOpen && reg[at].serverId == channelId)
    ensures forall i :: 0 <= i < at ==> !(reg[i].isOpen && reg[i].serverId == channelId)
  {
    if reg == [] || (reg[0].isOpen && reg[0].serverId == channelId) then 0 else 1 + Routed(reg[1..], channelId)
  }

  function Enqueue(reg: seq<Chan>, at: nat, body: bytes): seq<Chan>
    requires at < |reg|
  {
    reg[at := reg[at].(queue := reg[at].queue + [body])]
  }

  function Deliver(n: Conn, channelId: int, body: bytes): Conn
  {
    if channelId in n.callbacks then
      var f := n.callbacks[channelId];
      n.(callbacks := n.callbacks - {channelId},
         futures := if f < |n.futures| then n.futures[f := Resolve(n.futures[f], body)] else n.futures)
    else
      var at := Routed(n.mux.reg, channelId);
      if at < |n.mux.reg| then n.(mux := n.mux.(reg := Enqueue(n.mux.reg, at, body)))
      else n.(unsolicited := n.unsolicited + [body])
  }

  /** The position of the channel with the serial, or the length. */
  function Position(reg: seq<Chan>, serial: nat): (at: nat)
    ensures at <= |reg| && (at < |reg| ==> reg[at].serial == serial)
    ensures forall i :: 0 <= i < at ==> reg[i].serial != serial
  {
    if reg == [] || reg[0].serial == serial then 0 else 1 + Position(reg[1..], serial)
  }

  /** `read_response` taking the oldest queued packet. */
  function TakeOldest(reg: seq<Chan>, serial: nat): seq<Chan>
  {
    var at := Position(reg, serial);
    if at < |reg| && reg[at].queue != [] then reg[at := reg[at].(queue := reg[at].queue[1..])] else reg
  }

  function SetFuture(futures: seq<FutureState>, f: nat, state: FutureState): seq<FutureState>
  {
    if f < |futures| && futures[f].Waiting? then futures[f := state] else futures
  }

  predicate Settled(n: Conn, serial: nat)
  {
    serial in n.requests && n.requests[serial].future < |n.futures| && !n.futures[n.requests[serial].future].Waiting?
  }

  function Step(n: Conn, e: Event): Conn
  {
    match e
    case Registry(change) => n.(mux := ChannelRegistry.Step(n.mux, change))
    case Packet(channelId, body) => Deliver(n, channelId, body)
    case Read(serial) => n.(mux := n.mux.(reg := TakeOldest(n.mux.reg, serial)))
    case Begin(serial, channelId) =>
      if serial in n.requests then n  // the lock is held
      else n.(futures := n.futures + [Waiting], callbacks := n.callbacks[channelId := |n.futures|],
              requests := n.requests[serial := Request(channelId, |n.futures|)])
    case Return(serial) =>
      if Settled(n, serial) then n.(requests := n.requests - {serial}) else n
    case Expire(serial) =>
      if serial in n.requests then n.(futures := SetFuture(n.futures, n.requests[serial].future, Cancelled)) else n
    case TimedOut(serial) =>
      if Settled(n, serial) then
        n.(callbacks := n.callbacks - {n.requests[serial].channelId}, requests := n.requests - {serial})
      else n
    case Abandon(serial, cancelled) =>
      if serial in n.requests then
        n.(futures := if cancelled then SetFuture(n.futures, n.requests[serial].future, Cancelled) else n.futures,
           requests := n.requests - {serial})
      else n
  }

  function Run(n: Conn, events: seq<Event>): Conn
    decreases events
  {
    if events == [] then n else Run(Step(n, events[0]), events[1..])
  }

  // ----- A request still waited for is never overwritten ----------------------------------

  /** Channels with requests outstanding have different ids. */
  predicate DistinctIds(n: Conn, e: Event)
  {
    e.Begin? ==> forall s :: s in n.requests ==> n.requests[s].channelId != e.channelId || s == e.serial
  }

  predicate DistinctIdsRun(n: Conn, events: seq<Event>)
    decreases events
  {
    events != [] ==> DistinctIds(n, events[0]) && DistinctIdsRun(Step(n, events[0]), events[1..])
  }

  /** Every future still waited for is the one registered under its channel's id. */
  predicate Awaited(n: Conn)
  {
    && (forall id :: id in n.callbacks ==> n.callbacks[id] < |n.futures|)
    && (forall s :: s in n.requests ==> Registered(n, n.requests[s]))
    && (forall s, t :: s in n.requests && t in n.requests && s != t ==> Apart(n.requests[s], n.requests[t]))
  }

  predicate Apart(r: Request, q: Request) { r.channelId != q.channelId && r.future != q.future }

  predicate Registered(n: Conn, r: Request)
  {
    r.future < |n.futures|
    && (n.futures[r.future].Waiting? ==> r.channelId in n.callbacks && n.callbacks[r.channelId] == r.future)
  }

  lemma StepKeepsAwaited(n: Conn, e: Event)
    requires Awaited(n) && DistinctIds(n, e)
    ensures Awaited(Step(n, e))
  {
    hide Routed, Enqueue, TakeOldest, ChannelRegistry.Step, Deliver;
    if e.Begin? && e.serial !in n.requests {
      BeginKeepsAwaited(n, e.serial, e.channelId);
    } else if e.Packet? {
      DeliverKeepsAwaited(n, e.channelId, e.body);
    }
  }

  lemma BeginKeepsAwaited(n: Conn, serial: nat, channelId: int)
    requires Awaited(n) && DistinctIds(n, Begin(serial, channelId)) && serial !in n.requests
    ensures Awaited(Step(n, Begin(serial, channelId)))
  {
  }

  lemma DeliverKeepsAwaited(n: Conn, channelId: int, body: bytes)
    requires Awaited(n)
    ensures Awaited(Deliver(n, channelId, body))
  {
    hide Routed, Enqueue;
  }

  lemma {:induction false} RequestsAreNeverOverwritten(n: Conn, events: seq<Event>)
    requires Awaited(n) && DistinctIdsRun(n, events)
    ensures Awaited(Run(n, events))
    decreases events
  {
    hide Awaited, Step, DistinctIds;
    if events != [] {
      StepKeepsAwaited(n, events[0]);
      RequestsAreNeverOverwritten(Step(n, events[0]), events[1..]);
    }
  }

  // Distinct ids of outstanding requests follow from distinct ids of open channels.

  /** The device gives every open channel an id of its own. */
  predicate OpenIdsDiffer(reg: seq<Chan>)
  {
    forall i, j :: 0 <= i < j < |reg| && reg[i].isOpen && reg[j].isOpen ==> reg[i].serverId != reg[j].serverId
  }

  predicate Owns(reg: seq<Chan>, serial: nat, channelId: int)
  {
    exists c :: c in reg && c.serial == serial && c.isOpen && c.serverId == channelId
  }

  predicate IsRegistered(reg: seq<Chan>, serial: nat)
  {
    exists c :: c in reg && c.serial == serial
  }

  /** Every outstanding request is on an open registered channel, under that channel's id. */
  predicate Grounded(n: Conn)
  {
    && DistinctSerials(n.mux.reg, n.mux.serials)
    && forall s :: s in n.requests ==> Owns(n.mux.reg, s, n.requests[s].channelId)
  }

  /** Requests are made on open registered channels, and a channel is not dropped under a request. */
  predicate Proper(n: Conn, e: Event)
  {
    && OpenIdsDiffer(n.mux.reg)
    && (e.Begin? ==> Owns(n.mux.reg, e.serial, e.channelId))
    && (e.Registry? ==> forall s :: s in n.requests ==> IsRegistered(Step(n, e).mux.reg, s))
  }

  predicate ProperRun(n: Conn, events: seq<Event>)
    decreases events
  {
    events != [] ==> Proper(n, events[0]) && ProperRun(Step(n, events[0]), events[1..])
  }

  lemma SameOwner(reg: seq<Chan>, s: nat, t: nat, channelId: int)
    requires OpenIdsDiffer(reg) && Owns(reg, s, channelId) && Owns(reg, t, channelId)
    ensures s == t
  {
    var i :| 0 <= i < |reg| && reg[i].serial == s && reg[i].isOpen && reg[i].serverId == channelId;
    var j :| 0 <= j < |reg| && reg[j].serial == t && reg[j].isOpen && reg[j].serverId == channelId;
    assert i == j;
  }

  lemma ProperIsDistinct(n: Conn, e: Event)
    requires Grounded(n) && Proper(n, e)
    ensures DistinctIds(n, e)
  {
    hide OpenIdsDiffer, Owns, Step;
    if e.Begin? {
      forall s | s in n.requests && n.requests[s].channelId == e.channelId
        ensures s == e.serial
      {
        SameOwner(n.mux.reg, s, e.serial, e.channelId);
      }
    }
  }

  /** A channel stays open under its id as long as it is registered. */
  lemma RegistryKeepsOwner(m: Mux, e: ChannelRegistry.Event, serial: nat, channelId: int)
    requires DistinctSerials(m.reg, m.serials) && Owns(m.reg, serial, channelId)
    requires IsRegistered(ChannelRegistry.Step(m, e).reg, serial)
    ensures Owns(ChannelRegistry.Step(m, e).reg, serial, channelId)
  {
    hide ChannelRegistry.Step;
    var i :| 0 <= i < |m.reg| && m.reg[i].serial == serial && m.reg[i].isOpen && m.reg[i].serverId == channelId;
    var c' :| c' in ChannelRegistry.Step(m, e).reg && c'.serial == serial;
    OpenedOnceByItsOwnKind(m, e, c');
    var c :| c in m.reg && Kept(c, c') && OwnKind(c, c', e);
    var j :| 0 <= j < |m.reg| && m.reg[j] == c;
    assert i == j;
  }

  lemma QueuesKeepOwners(reg: seq<Chan>, at: nat, queue: seq<bytes>, serial: nat, channelId: int)
    requires at < |reg| && Owns(reg, serial, channelId)
    ensures Owns(reg[at := reg[at].(queue := queue)], serial, channelId)
  {
    var reg' := reg[at := reg[at].(queue := queue)];
    var i :| 0 <= i < |reg| && reg[i].serial == serial && reg[i].isOpen && reg[i].serverId == channelId;
    assert reg'[i].serial == serial && reg'[i].isOpen && reg'[i].serverId == channelId;
  }

  lemma StepKeepsGrounded(n: Conn, e: Event)
    requires Grounded(n) && Proper(n, e)
    ensures Grounded(Step(n, e))
  {
    hide Owns, DistinctSerials, OpenIdsDiffer, ChannelRegistry.Step, Routed, Position;
    SerialsStep(n, e);
    forall s | s in Step(n, e).requests
      ensures Owns(Step(n, e).mux.reg, s, Step(n, e).requests[s].channelId)
    {
      if s in n.requests {
        match e
        case Registry(change) => {
          RegistryKeepsOwner(n.mux, change, s, n.requests[s].channelId);
        }
        case Packet(channelId, body) => {
          var at := Routed(n.mux.reg, channelId);
          if at < |n.mux.reg| {
            QueuesKeepOwners(n.mux.reg, at, n.mux.reg[at].queue + [body], s, n.requests[s].channelId);
          }
        }
        case Read(serial) => {
          var at := Position(n.mux.reg, serial);
          if at < |n.mux.reg| && n.mux.reg[at].queue != [] {
            QueuesKeepOwners(n.mux.reg, at, n.mux.reg[at].queue[1..], s, n.requests[s].channelId);
          }
        }
        case _ => {}
      }
    }
  }

  /** In every run in which the device gives open channels different ids, requests are made on open
      registered channels, and no channel is dropped under a request, no future still waited for is
      overwritten. */
  lemma {:induction false} LockProtectsRequests(n: Conn, events: seq<Event>)
    requires Awaited(n) && Grounded(n) && ProperRun(n, events)
    ensures DistinctIdsRun(n, events) && Awaited(Run(n, events)) && Grounded(Run(n, events))
    decreases events
  {
    hide Awaited, Grounded, Step, DistinctIds, Proper;
    if events != [] {
      ProperIsDistinct(n, events[0]);
      StepKeepsAwaited(n, events[0]);
      StepKeepsGrounded(n, events[0]);
      LockProtectsRequests(Step(n, events[0]), events[1..]);
    }
  }

  /** The next packet on the channel of a waiting request is its reply, and goes nowhere else. */
  lemma ReplyReachesRequest(n: Conn, serial: nat, body: bytes)
    requires Awaited(n) && serial in n.requests && n.futures[n.requests[serial].future].Waiting?
    ensures var r := n.requests[serial];
            var n' := Step(n, Packet(r.channelId, body));
            && n'.futures == n.futures[r.future := Done(body)]
            && n'.mux == n.mux && n'.unsolicited == n.unsolicited && r.channelId !in n'.callbacks
            && Step(n', Return(serial)).requests == n.requests - {serial}
  {
    assert Registered(n, n.requests[serial]);
  }

  /** A future that has a result, or was cancelled, never changes again. */
  lemma {:induction false} ResolvedAtMostOnce(n: Conn, events: seq<Event>, f: nat)
    requires f < |n.futures| && !n.futures[f].Waiting?
    ensures f < |Run(n, events).futures| && Run(n, events).futures[f] == n.futures[f]
    decreases events
  {
    hide Routed, Enqueue, TakeOldest, ChannelRegistry.Step;
    if events != [] {
      ResolvedAtMostOnce(Step(n, events[0]), events[1..], f);
    }
  }

  // ----- Every packet has one destination ---------------------------------------------------

  /** The outstanding requests whose reply has come in. */
  function Answered(n: Conn): set<nat>
  {
    set s | s in n.requests && HasReply(n, n.requests[s])
  }

  predicate HasReply(n: Conn, r: Request) { r.future < |n.futures| && n.futures[r.future].Done? }

  function Queued(reg: seq<Chan>): nat
  {
    if reg == [] then 0 else |reg[0].queue| + Queued(reg[1..])
  }

  /** Packets that somebody will get: the reply of an outstanding request, what channels have queued, and
      the unsolicited packets. A result in a future that no request awaits is nobody's. */
  function Held(n: Conn): nat
  {
    |Answered(n)| + Queued(n.mux.reg) + |n.unsolicited|
  }

  lemma {:induction false} QueuedAt(reg: seq<Chan>, at: nat, body: bytes)
    requires at < |reg|
    ensures Queued(Enqueue(reg, at, body)) == Queued(reg) + 1
  {
    if at == 0 {
      assert Enqueue(reg, at, body)[1..] == reg[1..];
    } else {
      assert Enqueue(reg, at, body)[1..] == Enqueue(reg[1..], at - 1, body);
      QueuedAt(reg[1..], at - 1, body);
    }
  }

  /** An outstanding request waits for the future registered under the id. */
  predicate Expected(n: Conn, channelId: int)
    requires channelId in n.callbacks
  {
    exists s :: s in n.requests && WaitsFor(n, n.requests[s], n.callbacks[channelId])
  }

  predicate WaitsFor(n: Conn, r: Request, f: nat) { r.future == f && f < |n.futures| && n.futures[f].Waiting? }

  /** The callback under the id was left behind by a request that gave up. */
  predicate Stale(n: Conn, channelId: int)
  {
    channelId in n.callbacks && !Expected(n, channelId)
  }

  /** A data packet ends up with exactly one outstanding request, channel queue or the unsolicited path,
      unless the callback under its id is stale; then, and only then, it is lost. */
  lemma PacketHasOneDestination(n: Conn, channelId: int, body: bytes)
    requires Awaited(n)
    ensures Held(Step(n, Packet(channelId, body))) == Held(n) + if Stale(n, channelId) then 0 else 1
  {
    if channelId in n.callbacks {
      CallbackTakesPacket(n, channelId, body);
    } else {
      hide Answered, Queued, Routed;
      var at := Routed(n.mux.reg, channelId);
      QueueingAnswersNobody(n, channelId, body);
      if at < |n.mux.reg| {
        QueuedAt(n.mux.reg, at, body);
      }
    }
  }

  lemma QueueingAnswersNobody(n: Conn, channelId: int, body: bytes)
    requires channelId !in n.callbacks
    ensures Answered(Deliver(n, channelId, body)) == Answered(n)
  {
    hide Routed;
  }

  lemma CallbackTakesPacket(n: Conn, channelId: int, body: bytes)
    requires Awaited(n) && channelId in n.callbacks
    ensures var n' := Deliver(n, channelId, body);
            && n'.mux == n.mux && n'.unsolicited == n.unsolicited
            && |Answered(n')| == |Answered(n)| + if Expected(n, channelId) then 1 else 0
  {
    var n', f := Deliver(n, channelId, body), n.callbacks[channelId];
    if Expected(n, channelId) {
      var s :| s in n.requests && WaitsFor(n, n.requests[s], f);
      forall t | t in n.requests && t != s
        ensures n.requests[t].future != f
      {
        assert Apart(n.requests[t], n.requests[s]);
      }
      hide Awaited;
      AnsweredGrows(n, n', s);
    } else {
      hide Awaited;
      forall t | t in n.requests
        ensures HasReply(n', n.requests[t]) == HasReply(n, n.requests[t])
      {
        assert !WaitsFor(n, n.requests[t], f);
      }
      AnsweredSame(n, n');
    }
  }

  lemma AnsweredGrows(n: Conn, n': Conn, s: nat)
    requires n'.requests == n.requests && s in n.requests
    requires HasReply(n', n.requests[s]) && !HasReply(n, n.requests[s])
    requires forall t :: t in n.requests && t != s ==> HasReply(n', n.requests[t]) == HasReply(n, n.requests[t])
    ensures |Answered(n')| == |Answered(n)| + 1
  {
    hide HasReply;
    assert Answered(n') == Answered(n) + {s};
  }

  lemma AnsweredSame(n: Conn, n': Conn)
    requires n'.requests == n.requests
    requires forall t :: t in n.requests ==> HasReply(n', n.requests[t]) == HasReply(n, n.requests[t])
    ensures Answered(n') == Answered(n)
  {
    hide HasReply;
  }

  /** Such callbacks do arise: after a request is cancelled while it waits, or given up while its write is
      pending, the packet that answers it is lost. */
  lemma AbandonedRequestLosesReply(serial: nat, channelId: int, body: bytes, cancelled: bool)
    ensures var n := Conn(Mux([], 0, 0, [], [], []), map[], [], map[], []);
            var n' := Step(Step(n, Begin(serial, channelId)), Abandon(serial, cancelled));
            && Awaited(n') && Stale(n', channelId)
            && Held(Step(n', Packet(channelId, body))) == Held(n')
  {
    var n := Conn(Mux([], 0, 0, [], [], []), map[], [], map[], []);
    var n' := Step(Step(n, Begin(serial, channelId)), Abandon(serial, cancelled));
    assert n'.futures == [if cancelled then Cancelled else Waiting];
    PacketHasOneDestination(n', channelId, body);
  }

  /** A request that times out leaves nothing behind: its future is cancelled, its callback is gone, and the
      reply that comes late is queued or unsolicited like any other packet. */
  lemma TimeoutLeavesNothing(n: Conn, serial: nat, body: bytes)
    requires Awaited(n) && serial in n.requests && n.futures[n.requests[serial].future].Waiting?
    ensures var r := n.requests[serial];
            var n' := Step(Step(n, Expire(serial)), TimedOut(serial));
            && n'.futures == n.futures[r.future := Cancelled] && n'.callbacks == n.callbacks - {r.channelId}
            && n'.requests == n.requests - {serial} && n'.mux == n.mux && n'.unsolicited == n.unsolicited
            && Awaited(n') && Held(Step(n', Packet(r.channelId, body))) == Held(n') + 1
  {
    var n1 := Step(n, Expire(serial));
    var n' := Step(n1, TimedOut(serial));
    assert Registered(n, n.requests[serial]);
    StepKeepsAwaited(n, Expire(serial));
    StepKeepsAwaited(n1, TimedOut(serial));
    PacketHasOneDestination(n', n.requests[serial].channelId, body);
  }

  // ----- Queues keep arrival order ------------------------------------------------------------

  /** What the event queues on the channel with the serial, and what it reads from it. */
  function QueuedBy(n: Conn, e: Event, serial: nat): seq<bytes>
  {
    if e.Packet? && e.channelId !in n.callbacks then
      var at := Routed(n.mux.reg, e.channelId);
      if at < |n.mux.reg| && n.mux.reg[at].serial == serial then [e.body] else []
    else []
  }

  function ReadBy(n: Conn, e: Event, serial: nat): seq<bytes>
  {
    if e.Read? && e.serial == serial then
      var at := Position(n.mux.reg, serial);
      if at < |n.mux.reg| && n.mux.reg[at].queue != [] then [n.mux.reg[at].queue[0]] else []
    else []
  }

  function QueuedIn(n: Conn, events: seq<Event>, serial: nat): seq<bytes>
    decreases events
  {
    if events == [] then [] else QueuedBy(n, events[0], serial) + QueuedIn(Step(n, events[0]), events[1..], serial)
  }

  function ReadIn(n: Conn, events: seq<Event>, serial: nat): seq<bytes>
    decreases events
  {
    if events == [] then [] else ReadBy(n, events[0], serial) + ReadIn(Step(n, events[0]), events[1..], serial)
  }

  /** Channel `c` became `c'`, with `put` queued on it and `got` read from it in between. */
  predicate Carries(c: Chan, put: seq<bytes>, got: seq<bytes>, c': Chan)
  {
    c'.serial == c.serial && c.queue + put == got + c'.queue
  }

  lemma QueueStep(n: Conn, e: Event, c': Chan)
    requires DistinctSerials(n.mux.reg, n.mux.serials)
    requires c' in Step(n, e).mux.reg && c'.serial < n.mux.serials
    ensures exists c :: c in n.mux.reg && Carries(c, QueuedBy(n, e, c'.serial), ReadBy(n, e, c'.serial), c')
  {
    hide Routed, Position, ChannelRegistry.Step;
    match e
    case Registry(change) => {
      OpenedOnceByItsOwnKind(n.mux, change, c');
      var c :| c in n.mux.reg && Kept(c, c') && OwnKind(c, c', change);
      assert Carries(c, [], [], c');
    }
    case Packet(channelId, body) => DeliverStep(n, channelId, body, c');
    case Read(serial) => ReadStep(n, serial, c');
    case Begin(_, _) => assert Carries(c', [], [], c');
    case Return(_) => assert Carries(c', [], [], c');
    case Expire(_) => assert Carries(c', [], [], c');
    case TimedOut(_) => assert Carries(c', [], [], c');
    case Abandon(_, _) => assert Carries(c', [], [], c');
  }

  lemma DeliverStep(n: Conn, channelId: int, body: bytes, c': Chan)
    requires DistinctSerials(n.mux.reg, n.mux.serials) && c' in Deliver(n, channelId, body).mux.reg
    ensures exists c :: c in n.mux.reg && Carries(c, QueuedBy(n, Packet(channelId, body), c'.serial), [], c')
  {
    hide Routed;
    var at := Routed(n.mux.reg, channelId);
    if channelId in n.callbacks || at == |n.mux.reg| {
      assert Carries(c', [], [], c');
    } else {
      var j :| 0 <= j < |n.mux.reg| && Enqueue(n.mux.reg, at, body)[j] == c';
      var c := n.mux.reg[j];
      assert j != at ==> c.serial != n.mux.reg[at].serial;
      assert QueuedBy(n, Packet(channelId, body), c'.serial) == if j == at then [body] else [];
      assert Carries(c, QueuedBy(n, Packet(channelId, body), c'.serial), [], c');
    }
  }

  lemma ReadStep(n: Conn, serial: nat, c': Chan)
    requires DistinctSerials(n.mux.reg, n.mux.serials) && c' in TakeOldest(n.mux.reg, serial)
    ensures exists c :: c in n.mux.reg && Carries(c, [], ReadBy(n, Read(serial), c'.serial), c')
  {
    hide Position;
    var at := Position(n.mux.reg, serial);
    if at < |n.mux.reg| && n.mux.reg[at].queue != [] {
      var j :| 0 <= j < |n.mux.reg| && TakeOldest(n.mux.reg, serial)[j] == c';
      var c := n.mux.reg[j];
      assert j != at ==> c.serial != serial;
      assert ReadBy(n, Read(serial), c'.serial) == if j == at then [c.queue[0]] else [];
      assert Carries(c, [], ReadBy(n, Read(serial), c'.serial), c');
    } else {
      assert Carries(c', [], [], c');
    }
  }

  /** Over every run a channel's queue holds, in arrival order, what was queued on it and not yet read. */
  lemma {:induction false} QueuesKeepArrivalOrder(n: Conn, events: seq<Event>, c': Chan)
    requires DistinctSerials(n.mux.reg, n.mux.serials)
    requires c' in Run(n, events).mux.reg && c'.serial < n.mux.serials
    ensures exists c :: c in n.mux.reg && Carries(c, QueuedIn(n, events, c'.serial), ReadIn(n, events, c'.serial), c')
    decreases events
  {
    hide Step, DistinctSerials, QueuedBy, ReadBy;
    if events == [] {
      assert Carries(c', [], [], c');
    } else {
      var e, serial := events[0], c'.serial;
      SerialsStep(n, e);
      QueuesKeepArrivalOrder(Step(n, e), events[1..], c');
      var put, got := QueuedIn(Step(n, e), events[1..], serial), ReadIn(Step(n, e), events[1..], serial);
      var c1 :| c1 in Step(n, e).mux.reg && Carries(c1, put, got, c');
      QueueStep(n, e, c1);
      var c :| c in n.mux.reg && Carries(c, QueuedBy(n, e, serial), ReadBy(n, e, serial), c1);
      CarriesOn(c, QueuedBy(n, e, serial), ReadBy(n, e, serial), c1, put, got, c');
    }
  }

  lemma CarriesOn(c: Chan, put: seq<bytes>, got: seq<bytes>, c1: Chan, put': seq<bytes>, got': seq<bytes>, c': Chan)
    requires Carries(c, put, got, c1) && Carries(c1, put', got', c')
    ensures Carries(c, put + put', got + got', c')
  {
    calc {
      c.queue + (put + put');
      { Associative(c.queue, put, put'); }
      c.queue + put + put';
      got + c1.queue + put';
      { Associative(got, c1.queue, put'); }
      got + (c1.queue + put');
      got + (got' + c'.queue);
      { Associative(got, got', c'.queue); }
      got + got' + c'.queue;
    }
  }

  lemma SerialsStep(n: Conn, e: Event)
    requires DistinctSerials(n.mux.reg, n.mux.serials)
    ensures DistinctSerials(Step(n, e).mux.reg, Step(n, e).mux.serials) && n.mux.serials <= Step(n, e).mux.serials
  {
    hide Routed, Position;
    if e.Registry? {
      hide ChannelRegistry.Step, DistinctSerials;
      StepKeepsSerials(n.mux, e.change);
      StepCountsSerials(n.mux, e.change);
    }
  }
}
