/** One port's land-forward: inbound frames wait for the guest to bind its port, are then
    authenticated, and their payloads handed to the flow's loopback socket. */
module LandForwarding {
  import opened Common
  import opened Bytes
  import opened Keys
  import opened Transit
  import opened Flows

  const READINESS_TIMEOUT: nat := 10_000
  const READINESS_NEG_TTL: nat := 30_000
  const REPLAY_MAX_PKTS: nat := 4
  const REPLAY_MAX_BYTES: nat := 8 * 1024

  datatype Readiness = Unknown | Probing(deadline: nat) | Ready | NotReady(until: nat)

  /** What the world does to one delivery: the time, whether a superseded reply pump stops in time,
      whether a loopback socket can be opened. */
  datatype Env = Env(now: nat, joined: bool, socket: bool)

  datatype Drops = Drops(
    headerAuthFail: nat, nonceReplay: nat, staleEpoch: nat, agentMapFull: nat,
    replayBufferOverflow: nat, udpReadinessTimeout: nat, loopbackBindFail: nat, mapFullEvicted: nat)
  {
    /** The true drops: an eviction is not one. */
    function Lost(): nat {
      headerAuthFail + nonceReplay + staleEpoch + agentMapFull + replayBufferOverflow + udpReadinessTimeout +
        loopbackBindFail
    }
  }

  function NoDrops(): Drops {
    Drops(0, 0, 0, 0, 0, 0, 0, 0)
  }

  type Held = (Bytes, Addr)

  function TotalLen(pending: seq<Held>): nat {
    if pending == [] then 0 else TotalLen(pending[..|pending| - 1]) + |pending[|pending| - 1].0|
  }

  /** The replay buffer: within both caps, its size tracked exactly, and holding frames `waiting` in the
      order they arrived. */
  ghost predicate BufferOk(pending: seq<Held>, pendingBytes: nat, waiting: seq<nat>, received: seq<Bytes>) {
    && |pending| <= REPLAY_MAX_PKTS && pendingBytes == TotalLen(pending) <= REPLAY_MAX_BYTES
    && WaitsFor(pending, waiting, received)
  }

  ghost predicate WaitsFor(pending: seq<Held>, waiting: seq<nat>, received: seq<Bytes>) {
    && |waiting| == |pending|
    && (forall i, j :: 0 <= i < j < |waiting| ==> waiting[i] < waiting[j])
    && (forall i :: 0 <= i < |waiting| ==> waiting[i] < |received| && received[waiting[i]] == pending[i].0)
  }

  ghost predicate SentBeforeWaiting(sent: seq<Sent>, waiting: seq<nat>) {
    forall i :: 0 <= i < |waiting| ==> SentBelow(sent, waiting[i])
  }

  lemma NothingYet(mac: Mac, secret: Bytes)
    ensures History(map[], map[], []) && Genuine(mac, secret, [], []) && InArrivalOrder([])
    ensures TotalLen([]) == 0 && WaitsFor([], [], []) && SentBeforeWaiting([], [])
  {}

  lemma OneMoreFrame(pending: seq<Held>, waiting: seq<nat>, received: seq<Bytes>, sent: seq<Sent>, frame: Bytes,
                     src: Addr)
    requires WaitsFor(pending, waiting, received) && SentBeforeWaiting(sent, waiting) && SentBelow(sent, |received|)
    ensures WaitsFor(pending + [(frame, src)], waiting + [|received|], received + [frame])
    ensures WaitsFor(pending, waiting, received + [frame])
    ensures SentBeforeWaiting(sent, waiting + [|received|])
    ensures TotalLen(pending + [(frame, src)]) == TotalLen(pending) + |frame|
  {
    assert (pending + [(frame, src)])[..|pending|] == pending;
  }

  function Evicting(flows: FlowMap, drops: Drops): Drops {
    if |flows| < MAX_FLOWS then drops else drops.(mapFullEvicted := drops.mapFullEvicted + 1)
  }

  /** The map after admitting a flow (`None` if no socket could be opened for it). */
  ghost predicate Created(flows: FlowMap, flows': FlowMap, hdr: Header, f: Option<Flow>) {
    match f
    case Some(begun) => hdr.flowId in flows' && flows'[hdr.flowId] == begun && MadeRoom(flows, flows' - {hdr.flowId})
    case None => MadeRoom(flows, flows')
  }

  lemma RoomTaken(flows: FlowMap, room: FlowMap, hdr: Header, f: Flow)
    requires MadeRoom(flows, room) && hdr.flowId !in flows && room.Keys <= flows.Keys
    ensures Created(flows, room[hdr.flowId := f], hdr, Some(f))
    ensures flows.Keys - room[hdr.flowId := f].Keys == flows.Keys - room.Keys
  {
    hide MadeRoom;
    assert room[hdr.flowId := f] - {hdr.flowId} == room;
  }

  lemma NothingTaken(flows: FlowMap, room: FlowMap, hdr: Header)
    requires MadeRoom(flows, room)
    ensures Created(flows, room, hdr, None)
  {}

  /** The flow map, the counters, the log of what was sent, and where each flow's stay in the map began. */
  datatype Books = Books(flows: FlowMap, drops: Drops, sent: seq<Sent>, stays: map<u32, nat>)

  /** The flows gone from the map. */
  function Gone(b: Books, b': Books): set<u32> {
    b.flows.Keys - b'.flows.Keys
  }

  /** Nothing is sent, and flows that leave end their stay. */
  ghost predicate Dropped(b: Books, b': Books, after: Drops) {
    b'.drops == after && b'.sent == b.sent && b'.stays == b.stays - Gone(b, b')
  }

  /** The payload is sent as part of the flow's present stay. */
  ghost predicate SentOn(b: Books, b': Books, no: nat, hdr: Header, payload: Bytes) {
    && hdr.flowId in b.stays && b'.stays == b.stays
    && b'.sent == b.sent + [Sent(no, b.stays[hdr.flowId], hdr, payload)]
  }

  /** The payload is the first of a new stay. */
  ghost predicate SentFirst(b: Books, b': Books, no: nat, hdr: Header, payload: Bytes) {
    && b'.stays == (b.stays - Gone(b, b'))[hdr.flowId := |b.sent|]
    && b'.sent == b.sent + [Sent(no, |b.sent|, hdr, payload)]
  }

  /** Exactly what one delivery does. */
  ghost predicate Delivered(mac: Mac, secret: Bytes, b: Books, b': Books, frame: Bytes, src: Addr, env: Env, no: nat) {
    match Open(mac, secret, HostToAgent, frame)
    case None => b'.flows == b.flows && Dropped(b, b', b.drops.(headerAuthFail := b.drops.headerAuthFail + 1))
    case Some((hdr, payload)) => Routed(b, b', hdr, payload, src, env, no)
  }

  ghost predicate Routed(b: Books, b': Books, hdr: Header, payload: Bytes, src: Addr, env: Env, no: nat) {
    match Decide(b.flows, hdr)
    case Replay => b'.flows == b.flows && Dropped(b, b', b.drops.(nonceReplay := b.drops.nonceReplay + 1))
    case StaleEpoch => b'.flows == b.flows && Dropped(b, b', b.drops.(staleEpoch := b.drops.staleEpoch + 1))
    case Forward =>
      && b'.flows == b.flows[hdr.flowId := b.flows[hdr.flowId].(inNonceHw := hdr.nonce, lastSeen := env.now)]
      && b'.drops == b.drops && SentOn(b, b', no, hdr, payload)
    case Supersede => Replaced(b, b', hdr, payload, src, env, no)
    case New =>
      var evicted := Evicting(b.flows, b.drops);
      && Created(b.flows, b'.flows, hdr, if env.socket then Some(Flow(hdr.epoch, hdr.nonce, env.now, src)) else None)
      && (if env.socket then b'.drops == evicted && SentFirst(b, b', no, hdr, payload)
          else Dropped(b, b', evicted.(loopbackBindFail := evicted.loopbackBindFail + 1)))
  }

  /** The flow begins again at the new epoch on its old socket, or on a new one, or is lost. */
  ghost predicate Replaced(b: Books, b': Books, hdr: Header, payload: Bytes, src: Addr, env: Env, no: nat) {
    && b'.flows - {hdr.flowId} == b.flows - {hdr.flowId}
    && if env.joined || env.socket then
         && hdr.flowId in b'.flows && b'.flows[hdr.flowId] == Flow(hdr.epoch, hdr.nonce, env.now, src)
         && b'.drops == b.drops && SentOn(b, b', no, hdr, payload)
       else
         hdr.flowId !in b'.flows && Dropped(b, b', b.drops.(loopbackBindFail := b.drops.loopbackBindFail + 1))
  }

  /** Each held frame delivered in turn, oldest first. */
  ghost predicate Replayed(mac: Mac, secret: Bytes, books: seq<Books>, held: seq<Held>, envs: nat -> Env,
                           nos: seq<nat>) {
    && |books| == |held| + 1 && |nos| == |held|
    && forall i: nat :: i < |held| ==>
         Delivered(mac, secret, books[i], books[i + 1], held[i].0, held[i].1, envs(i), nos[i])
  }

  /** Held if it fits in the buffer, else dropped. */
  ghost predicate HeldBack(b: Books, b': Books, pending: seq<Held>, pending': seq<Held>, frame: Bytes, src: Addr) {
    && b'.flows == b.flows && b'.sent == b.sent && b'.stays == b.stays
    && if |pending| < REPLAY_MAX_PKTS && TotalLen(pending) + |frame| <= REPLAY_MAX_BYTES then
         pending' == pending + [(frame, src)] && b'.drops == b.drops
       else
         pending' == pending && b'.drops == b.drops.(replayBufferOverflow := b.drops.replayBufferOverflow + 1)
  }

  datatype Action = Deliver | Hold | Refuse

  /** The readiness gate: what becomes of a frame, and of the gate. The clock may be read twice. */
  function Gate(readiness: Readiness, now: nat, later: nat, bound: bool): (Readiness, Action) {
    match readiness
    case Ready => (Ready, Deliver)
    case Unknown => if bound then (Ready, Deliver) else (Probing(now + READINESS_TIMEOUT), Hold)
    case Probing(_) => (readiness, Hold)
    case NotReady(until) => if now >= until then (Probing(later + READINESS_TIMEOUT), Hold) else (readiness, Refuse)
  }

  function Idle(flows: FlowMap, now: nat, ttl: nat): set<u32> {
    set id | id in flows && flows[id].lastSeen + ttl < now
  }

  /** Flows idle for more than `ttl` are left behind. */
  method StillActive(flows: FlowMap, now: nat, ttl: nat) returns (keep: FlowMap)
    ensures keep == flows - Idle(flows, now, ttl)
  {
    keep := map[];
    var todo := flows.Keys;
    while todo != {}
      invariant todo <= flows.Keys
      invariant keep == flows - todo - Idle(flows, now, ttl)
      decreases todo
    {
      var id :| id in todo;
      if Monus(now, flows[id].lastSeen) <= ttl {
        keep := keep[id := flows[id]];
      }
      todo := todo - {id};
    }
  }

  datatype Event =
    | Datagram(frame: Bytes, src: Addr, bound: bool, now: nat, later: nat, env: Env)
    | Poll(now: nat, later: nat, bound: bool, envs: nat -> Env)
    | Reply(flowId: u32, at: nat)
    | Sweep(sweptAt: nat)

  function Frames(events: seq<Event>): seq<Bytes> {
    if events == [] then [] else
      Frames(events[..|events| - 1]) + (var e := events[|events| - 1]; if e.Datagram? then [e.frame] else [])
  }

  datatype State = State(
    books: Books, readiness: Readiness, pending: seq<Held>, pendingBytes: nat, waiting: seq<nat>, received: seq<Bytes>,
    flushed: nat)

  ghost predicate LogFine(mac: Mac, secret: Bytes, flows: FlowMap, stays: map<u32, nat>, sent: seq<Sent>,
                          received: seq<Bytes>) {
    && |flows| <= MAX_FLOWS && History(flows, stays, sent)
    && Genuine(mac, secret, received, sent) && InArrivalOrder(sent)
  }

  /** The log and the buffer are in order, and every frame received was sent on, dropped or is waiting. */
  ghost predicate StateOk(mac: Mac, secret: Bytes, s: State) {
    && LogFine(mac, secret, s.books.flows, s.books.stays, s.books.sent, s.received)
    && BufferOk(s.pending, s.pendingBytes, s.waiting, s.received) && SentBeforeWaiting(s.books.sent, s.waiting)
    && |s.received| == |s.books.sent| + s.flushed + s.books.drops.Lost() + |s.pending|
    && s.books.drops.agentMapFull == 0
    && (s.pending != [] ==> s.readiness.Probing?)
  }

  // ---- what each event does ---------------------------------------------------------------

  /** One event, exactly. `path` is the books it went through: one delivery a step. */
  ghost predicate Stepped(mac: Mac, secret: Bytes, ttl: nat, s: State, s': State, e: Event, path: seq<Books>) {
    && path != [] && path[0] == s.books && path[|path| - 1] == s'.books
    && match e
       case Datagram(frame, src, bound, now, later, env) =>
         |path| == 2 && Inbound(mac, secret, s, s', frame, src, bound, now, later, env)
       case Poll(now, later, bound, envs) => Polled(mac, secret, s, s', now, later, bound, envs, path)
       case Reply(flowId, at) => |path| == 2 && s' == s.(books := Stamped(s.books, flowId, at))
       case Sweep(at) =>
         |path| == 2 && s' == s.(books := Swept(s.books, at, ttl), flushed := s.flushed + s.books.drops.Lost())
  }

  ghost predicate Inbound(mac: Mac, secret: Bytes, s: State, s': State, frame: Bytes, src: Addr, bound: bool, now: nat,
                          later: nat, env: Env) {
    && s'.received == s.received + [frame] && s'.flushed == s.flushed
    && s'.readiness == Gate(s.readiness, now, later, bound).0
    && s'.waiting == s.waiting + (if |s'.pending| > |s.pending| then [|s.received|] else [])
    && match Gate(s.readiness, now, later, bound).1
       case Deliver => s'.pending == [] && Delivered(mac, secret, s.books, s'.books, frame, src, env, |s.received|)
       case Hold => HeldBack(s.books, s'.books, s.pending, s'.pending, frame, src)
       case Refuse =>
         && s'.pending == s.pending && s'.books.flows == s.books.flows
         && var drops := s.books.drops;
            Dropped(s.books, s'.books, drops.(udpReadinessTimeout := drops.udpReadinessTimeout + 1))
  }

  ghost predicate Polled(mac: Mac, secret: Bytes, s: State, s': State, now: nat, later: nat, bound: bool,
                         envs: nat -> Env, path: seq<Books>) {
    && s'.received == s.received && s'.flushed == s.flushed
    && if s.readiness.Probing? && bound then
         && s'.readiness == Ready && s'.pending == []
         && Replayed(mac, secret, path, s.pending, envs, s.waiting)
       else if s.readiness.Probing? && now >= s.readiness.deadline then
         var drops := s.books.drops;
         && |path| == 2 && s'.readiness == NotReady(later + READINESS_NEG_TTL) && s'.pending == []
         && s'.books == s.books.(drops := drops.(udpReadinessTimeout := drops.udpReadinessTimeout + |s.pending|))
       else
         |path| == 2 && s' == s
  }

  function Stamped(b: Books, flowId: u32, at: nat): Books {
    if flowId in b.flows then b.(flows := b.flows[flowId := b.flows[flowId].(lastSeen := at)]) else b
  }

  /** Flows idle for more than `ttl` leave the map and end their stay; the counters are flushed. */
  function Swept(b: Books, now: nat, ttl: nat): Books {
    var idle := Idle(b.flows, now, ttl);
    Books(b.flows - idle, NoDrops(), b.sent, b.stays - idle)
  }

  ghost predicate Ran(mac: Mac, secret: Bytes, ttl: nat, trace: seq<State>, paths: seq<seq<Books>>,
                      events: seq<Event>) {
    && |trace| == |events| + 1 && |paths| == |events|
    && forall i :: 0 <= i < |events| ==> Stepped(mac, secret, ttl, trace[i], trace[i + 1], events[i], paths[i])
  }

  class LandForward {
    const mac: Mac
    const secret: Bytes
    const flowIdleTtl: nat
    var flows: FlowMap
    var readiness: Readiness
    var pending: seq<Held>
    var pendingBytes: nat
    var drops: Drops
    /** Every frame received, what was sent on, which frames are waiting, where each flow's stay in the
        map began, and the true drops already flushed. */
    ghost var received: seq<Bytes>
    ghost var sent: seq<Sent>
    ghost var waiting: seq<nat>
    ghost var stays: map<u32, nat>
    ghost var flushed: nat

    constructor (mac: Mac, secret: Bytes, flowIdleTtl: nat)
      ensures Valid() && received == [] && sent == [] && flushed == 0 && drops == NoDrops() && readiness == Unknown
      ensures this.mac == mac && this.secret == secret && this.flowIdleTtl == flowIdleTtl
    {
      hide History, Genuine, InArrivalOrder, SentBelow, TotalLen, WaitsFor, SentBeforeWaiting;
      this.mac, this.secret, this.flowIdleTtl := mac, secret, flowIdleTtl;
      flows, readiness, pending, pendingBytes, drops := map[], Unknown, [], 0, NoDrops();
      received, sent, waiting, stays, flushed := [], [], [], map[], 0;
      NothingYet(mac, secret);
    }

    ghost function Now(): Books
      reads this`flows, this`drops, this`sent, this`stays
    {
      Books(flows, drops, sent, stays)
    }

    ghost function Here(): State
      reads this
    {
      State(Now(), readiness, pending, pendingBytes, waiting, received, flushed)
    }

    ghost predicate LogOk()
      reads this`flows, this`stays, this`sent, this`received
    {
      LogFine(mac, secret, flows, stays, sent, received)
    }

    /** Frames that were sent on or dropped. */
    ghost function Settled(): nat
      reads this`sent, this`flushed, this`drops
    {
      |sent| + flushed + drops.Lost()
    }

    ghost predicate Valid()
      reads this
    {
      StateOk(mac, secret, Here())
    }

    /** As `Valid`, but the last frame received has yet to be dealt with. */
    ghost predicate Arriving(frame: Bytes)
      reads this`flows, this`stays, this`sent, this`received, this`flushed, this`drops
      reads this`pending, this`pendingBytes, this`waiting
    {
      && received != [] && received[|received| - 1] == frame
      && LogOk() && BufferOk(pending, pendingBytes, waiting, received[..|received| - 1])
      && SentBeforeWaiting(sent, waiting) && SentBelow(sent, |received| - 1)
      && |received| == Settled() + |pending| + 1
      && drops.agentMapFull == 0
    }

    ghost method Arrive(frame: Bytes)
      requires Valid()
      modifies this`received
      ensures Arriving(frame) && received == old(received) + [frame]
    {
      hide History, InArrivalOrder, SentBelow, BufferOk, SentBeforeWaiting;
      StillGenuine(mac, secret, received, sent, frame);
      received := received + [frame];
      assert received[..|received| - 1] == old(received);
    }

    method OnInbound(frame: Bytes, src: Addr, bound: bool, now: nat, later: nat, env: Env)
      requires Valid()
      modifies this
      ensures Valid() && Inbound(mac, secret, old(Here()), Here(), frame, src, bound, now, later, env)
    {
      hide StateOk, Settled, Arriving, Delivered, HeldBack, Dropped;
      WaitingIsProbing(mac, secret, Here());
      Arrive(frame);
      match readiness {
        case Ready =>
          DeliverNow(frame, src, env);
        case Unknown =>
          if bound {
            readiness := Ready;
            DeliverNow(frame, src, env);
          } else {
            readiness := Probing(now + READINESS_TIMEOUT);
            HoldOne(frame, src);
          }
        case Probing(_) =>
          HoldOne(frame, src);
        case NotReady(until) =>
          if now < until {
            RefuseOne(frame);
          } else {
            readiness := Probing(later + READINESS_TIMEOUT);
            HoldOne(frame, src);
          }
      }
    }

    method DeliverNow(frame: Bytes, src: Addr, env: Env)
      requires Arriving(frame) && pending == []
      modifies this`flows, this`drops, this`sent, this`stays
      ensures Valid() && Delivered(mac, secret, old(Now()), Now(), frame, src, env, |received| - 1)
    {
      hide History, Genuine, InArrivalOrder, SentBelow, Delivered;
      DeliverOne(frame, src, env, |received| - 1);
      assert waiting == [];
    }

    method RefuseOne(frame: Bytes)
      requires Arriving(frame) && (pending != [] ==> readiness.Probing?)
      modifies this`drops
      ensures Valid()
      ensures Dropped(old(Now()), Now(), old(drops).(udpReadinessTimeout := old(drops).udpReadinessTimeout + 1))
    {
      hide History, Genuine, InArrivalOrder, SentBelow;
      OneMoreFrame(pending, waiting, received[..|received| - 1], sent, frame, 0);
      assert received == received[..|received| - 1] + [frame];
      drops := drops.(udpReadinessTimeout := drops.udpReadinessTimeout + 1);
    }

    /** `buffer`: hold the frame just received, or drop it if the buffer is full. */
    method HoldOne(frame: Bytes, src: Addr)
      requires Arriving(frame) && readiness.Probing?
      modifies this`pending, this`pendingBytes, this`waiting, this`drops
      ensures Valid() && HeldBack(old(Now()), Now(), old(pending), pending, frame, src)
      ensures waiting == old(waiting) + (if |pending| > |old(pending)| then [|received| - 1] else [])
    {
      hide History, Genuine, InArrivalOrder, SentBelow, WaitsFor, SentBeforeWaiting, TotalLen;
      OneMoreFrame(pending, waiting, received[..|received| - 1], sent, frame, src);
      assert received == received[..|received| - 1] + [frame];
      if |pending| >= REPLAY_MAX_PKTS || pendingBytes + |frame| > REPLAY_MAX_BYTES {
        drops := drops.(replayBufferOverflow := drops.replayBufferOverflow + 1);
        return;
      }
      pendingBytes := pendingBytes + |frame|;
      pending := pending + [(frame, src)];
      waiting := waiting + [|received| - 1];
    }

    method PollReadiness(now: nat, later: nat, bound: bool, envs: nat -> Env) returns (ghost path: seq<Books>)
      requires Valid()
      modifies this
      ensures Valid() && path != [] && path[0] == old(Now()) && path[|path| - 1] == Now() && AllRemember(path)
      ensures Polled(mac, secret, old(Here()), Here(), now, later, bound, envs, path)
    {
      hide History, Genuine, InArrivalOrder, SentBelow, Delivered;
      if readiness.Probing? && bound {
        readiness := Ready;
        path := DrainPending(envs);
        return;
      }
      if readiness.Probing? && now >= readiness.deadline {
        drops := drops.(udpReadinessTimeout := drops.udpReadinessTimeout + |pending|);
        pending, pendingBytes, waiting := [], 0, [];
        readiness := NotReady(later + READINESS_NEG_TTL);
      }
      path := [old(Now()), Now()];
    }

    /** Replay the held frames, oldest first: each is sent on or dropped for a reason of its own. */
    method DrainPending(envs: nat -> Env) returns (ghost path: seq<Books>)
      requires LogOk() && WaitsFor(pending, waiting, received) && SentBeforeWaiting(sent, waiting)
      requires |received| == Settled() + |pending| && drops.agentMapFull == 0
      modifies this`flows, this`pending, this`pendingBytes, this`drops, this`sent, this`waiting, this`stays
      ensures LogOk() && pending == [] && waiting == [] && pendingBytes == 0
      ensures |received| == Settled() && drops.agentMapFull == 0
      ensures Replayed(mac, secret, path, old(pending), envs, old(waiting)) && AllRemember(path)
      ensures path[0] == old(Now()) && path[|old(pending)|] == Now()
    {
      hide History, Genuine, InArrivalOrder, SentBelow, Delivered;
      var held := pending;
      ghost var nos := waiting;
      pending, pendingBytes, waiting := [], 0, [];
      path := [Now()];
      for i := 0 to |held|
        invariant |path| == i + 1 && path[0] == old(Now()) && path[i] == Now() && AllRemember(path)
        invariant forall k: nat :: k < i ==>
                    Delivered(mac, secret, path[k], path[k + 1], held[k].0, held[k].1, envs(k), nos[k])
        invariant LogOk() && drops.agentMapFull == 0
        invariant forall k :: i <= k < |held| ==> SentBelow(sent, nos[k])
        invariant |received| == Settled() + |held| - i
        invariant pending == [] && waiting == [] && pendingBytes == 0
      {
        DeliverOne(held[i].0, held[i].1, envs(i), nos[i]);
        path := path + [Now()];
        forall k | i < k < |held| ensures SentBelow(sent, nos[k]) { StillBelow(sent, nos[i] + 1, nos[k]); }
      }
    }

    /** `deliver`: authenticate frame number `no` and send its payload on, or drop it. */
    method DeliverOne(frame: Bytes, src: Addr, env: Env, ghost no: nat)
      requires LogOk() && no < |received| && received[no] == frame && SentBelow(sent, no)
      modifies this`flows, this`drops, this`sent, this`stays
      ensures LogOk() && SentBelow(sent, no + 1) && Settled() == old(Settled()) + 1
      ensures drops.agentMapFull == old(drops).agentMapFull
      ensures Delivered(mac, secret, old(Now()), Now(), frame, src, env, no)
    {
      hide LogOk, SentBelow, Sealed, Open, Routed;
      StillBelow(sent, no, no + 1);
      var plain := Open(mac, secret, HostToAgent, frame);
      if plain.None? {
        drops := drops.(headerAuthFail := drops.headerAuthFail + 1);
        return;
      }
      var (hdr, payload) := plain.value;
      OpensExactlySealed(mac, secret, HostToAgent, frame, hdr, payload);
      Route(hdr, payload, src, env, no);
    }

    method Route(hdr: Header, payload: Bytes, src: Addr, env: Env, ghost no: nat)
      requires LogOk() && SentBelow(sent, no) && no < |received|
      requires received[no] == Sealed(mac, secret, HostToAgent, hdr, payload)
      modifies this`flows, this`drops, this`sent, this`stays
      ensures LogOk() && SentBelow(sent, no + 1) && Settled() == old(Settled()) + 1
      ensures drops.agentMapFull == old(drops).agentMapFull
      ensures Routed(old(Now()), Now(), hdr, payload, src, env, no)
    {
      hide History, Genuine, InArrivalOrder, SentBelow, Sealed, Admits;
      StillBelow(sent, no, no + 1);
      match Decide(flows, hdr) {
        case Replay => drops := drops.(nonceReplay := drops.nonceReplay + 1);
        case StaleEpoch => drops := drops.(staleEpoch := drops.staleEpoch + 1);
        case Forward =>
          NewerIsAdmitted(flows, stays, sent, hdr);
          var f := flows[hdr.flowId].(inNonceHw := hdr.nonce, lastSeen := env.now);
          SendOn(hdr, payload, f, no, stays[hdr.flowId]);
        case Supersede =>
          Replace(hdr, payload, src, env, no);
        case New =>
          NewStayIsAdmitted(flows, stays, sent, hdr);
          CreateFlowOn(hdr, payload, src, false, env, no, |sent|);
      }
    }

    /** The host rebound this flow at a higher epoch: its entry is removed and made again. */
    method Replace(hdr: Header, payload: Bytes, src: Addr, env: Env, ghost no: nat)
      requires LogOk() && SentBelow(sent, no) && no < |received|
      requires received[no] == Sealed(mac, secret, HostToAgent, hdr, payload)
      requires Decide(flows, hdr) == Supersede
      modifies this`flows, this`drops, this`sent, this`stays
      ensures LogOk() && SentBelow(sent, no + 1)
      ensures Replaced(old(Now()), Now(), hdr, payload, src, env, no)
    {
      hide History, Genuine, InArrivalOrder, SentBelow, Sealed, Admits;
      NewerIsAdmitted(flows, stays, sent, hdr);
      ghost var stay := stays[hdr.flowId];
      Left(flows, stays, sent, {hdr.flowId});
      RoomIsThere(flows, hdr.flowId);
      flows, stays := flows - {hdr.flowId}, stays - {hdr.flowId};
      CreateFlowOn(hdr, payload, src, env.joined, env, no, stay);
      assert flows - {hdr.flowId} == old(flows) - {hdr.flowId};
    }

    /** Hand a payload to the flow's socket and record it in the flow. */
    method SendOn(hdr: Header, payload: Bytes, f: Flow, ghost no: nat, ghost stay: nat)
      requires LogOk() && Admits(sent, stay, hdr) && f.epoch == hdr.epoch && f.inNonceHw == hdr.nonce
      requires hdr.flowId in flows || |flows| < MAX_FLOWS
      requires SentBelow(sent, no) && no < |received| && received[no] == Sealed(mac, secret, HostToAgent, hdr, payload)
      modifies this`flows, this`sent, this`stays
      ensures LogOk() && SentBelow(sent, no + 1)
      ensures flows == old(flows)[hdr.flowId := f] && sent == old(sent) + [Sent(no, stay, hdr, payload)]
      ensures stays == old(stays)[hdr.flowId := stay]
    {
      hide History, Genuine, InArrivalOrder, SentBelow, Sealed, Admits;
      ghost var e := Sent(no, stay, hdr, payload);
      Logged(flows, stays, sent, e, f);
      LogGrows(mac, secret, received, sent, e);
      OneMore(flows, hdr.flowId, f);
      sent := sent + [e];
      flows, stays := flows[hdr.flowId := f], stays[hdr.flowId := stay];
    }

    /** A full map gives up its least recently active flow. */
    method MakeRoom()
      requires LogOk()
      modifies this`flows, this`drops, this`stays
      ensures LogOk() && |flows| < MAX_FLOWS && MadeRoom(old(flows), flows) && flows.Keys <= old(flows).Keys
      ensures drops == Evicting(old(flows), old(drops)) && stays == old(stays) - (old(flows).Keys - flows.Keys)
    {
      hide History, Genuine, InArrivalOrder;
      if |flows| >= MAX_FLOWS {
        var victim := Oldest(flows);
        // A full map has a victim: the source's branch that counts `agent_map_full` is never taken.
        if victim.None? { assert false; }
        Left(flows, stays, sent, {victim.value});
        RoomIsThere(flows, victim.value);
        flows, stays := flows - {victim.value}, stays - {victim.value};
        drops := drops.(mapFullEvicted := drops.mapFullEvicted + 1);
      }
    }

    /** `create_flow_on`: make room in a full map, open a socket unless one is reused, send, insert. */
    method CreateFlowOn(hdr: Header, payload: Bytes, src: Addr, reuse: bool, env: Env, ghost no: nat, ghost stay: nat)
      requires LogOk() && Admits(sent, stay, hdr) && hdr.flowId !in flows
      requires SentBelow(sent, no) && no < |received| && received[no] == Sealed(mac, secret, HostToAgent, hdr, payload)
      modifies this`flows, this`drops, this`sent, this`stays
      ensures LogOk() && SentBelow(sent, no + 1)
      ensures Created(old(flows), flows, hdr,
                      if reuse || env.socket then Some(Flow(hdr.epoch, hdr.nonce, env.now, src)) else None)
      ensures var left := old(stays) - (old(flows).Keys - flows.Keys);
              stays == if reuse || env.socket then left[hdr.flowId := stay] else left
      ensures var evicted := Evicting(old(flows), old(drops));
              if reuse || env.socket then drops == evicted && sent == old(sent) + [Sent(no, stay, hdr, payload)]
              else drops == evicted.(loopbackBindFail := evicted.loopbackBindFail + 1) && sent == old(sent)
    {
      hide LogOk, SentBelow, Sealed, Admits, MadeRoom, Created;
      StillBelow(sent, no, no + 1);
      MakeRoom();
      if !reuse && !env.socket {
        NothingTaken(old(flows), flows, hdr);
        drops := drops.(loopbackBindFail := drops.loopbackBindFail + 1);
        return;
      }
      RoomTaken(old(flows), flows, hdr, Flow(hdr.epoch, hdr.nonce, env.now, src));
      SendOn(hdr, payload, Flow(hdr.epoch, hdr.nonce, env.now, src), no, stay);
    }

    /** A reply pump stamps the flow's activity clock. */
    method NoteReply(flowId: u32, now: nat)
      requires Valid()
      modifies this`flows
      ensures Valid() && Now() == Stamped(old(Now()), flowId, now)
    {
      if flowId in flows {
        Touched(flows, stays, sent, flowId, now);
        OneMore(flows, flowId, flows[flowId].(lastSeen := now));
        flows := flows[flowId := flows[flowId].(lastSeen := now)];
      }
    }

    /** Flows idle for more than the time to live leave the map; the counters are flushed. */
    method SweepIdle(now: nat)
      requires Valid()
      modifies this`flows, this`stays, this`drops, this`flushed
      ensures Valid() && Now() == Swept(old(Now()), now, flowIdleTtl) && flushed == old(flushed) + old(drops).Lost()
    {
      hide History, Genuine, InArrivalOrder, SentBelow, BufferOk, SentBeforeWaiting, Idle;
      var keep := StillActive(flows, now, flowIdleTtl);
      ghost var gone := Idle(flows, now, flowIdleTtl);
      Left(flows, stays, sent, gone);
      Fewer(flows, gone);
      flows, stays := keep, stays - gone;
      flushed := flushed + drops.Lost();
      drops := NoDrops();
    }

    method OneEvent(e: Event) returns (ghost path: seq<Books>)
      requires Valid()
      modifies this
      ensures Valid() && Stepped(mac, secret, flowIdleTtl, old(Here()), Here(), e, path) && AllRemember(path)
    {
      hide StateOk, Inbound, Polled, History;
      ghost var before := Now();
      StateRemembers(mac, secret, Here());
      match e {
        case Datagram(frame, src, bound, now, later, env) => OnInbound(frame, src, bound, now, later, env);
        case Poll(now, later, bound, envs) =>
          path := PollReadiness(now, later, bound, envs);
          return;
        case Reply(flowId, at) => NoteReply(flowId, at);
        case Sweep(at) => SweepIdle(at);
      }
      StateRemembers(mac, secret, Here());
      path := [before, Now()];
    }

    /** Every run of events. `trace` is the state after each, `paths` the deliveries in between. At every index
        each frame received was sent on, is waiting or was dropped; what was sent on is genuine and in arrival
        order; the map and the buffer keep their bounds. While a flow is in the map its datagrams rise, and
        one already sent is refused. */
    method Run(events: seq<Event>) returns (ghost trace: seq<State>, ghost paths: seq<seq<Books>>)
      requires Valid()
      modifies this
      ensures Valid() && Ran(mac, secret, flowIdleTtl, trace, paths, events)
      ensures trace[0] == old(Here()) && trace[|events|] == Here()
      ensures forall i :: 0 <= i < |trace| ==> StateOk(mac, secret, trace[i])
      ensures received == old(received) + Frames(events)
      ensures NoneReplayed(Joined(paths))
    {
      hide StateOk, Stepped, AllRemember;
      trace, paths := [Here()], [];
      for i := 0 to |events|
        invariant Valid() && |trace| == i + 1 && |paths| == i && trace[0] == old(Here()) && trace[i] == Here()
        invariant forall k :: 0 <= k < i ==>
                    Stepped(mac, secret, flowIdleTtl, trace[k], trace[k + 1], events[k], paths[k])
        invariant forall k :: 0 <= k < i ==> AllRemember(paths[k])
        invariant forall k :: 0 <= k <= i ==> StateOk(mac, secret, trace[k])
        invariant received == old(received) + Frames(events[..i])
      {
        assert events[..i + 1][..i] == events[..i];
        ghost var path := OneEvent(events[i]);
        SteppedReceives(mac, secret, flowIdleTtl, trace[i], Here(), events[i], path);
        trace, paths := trace + [Here()], paths + [path];
      }
      assert events[..|events|] == events;
      if events != [] {
        JoinedRuns(mac, secret, flowIdleTtl, trace, paths, events);
        NoReplays(Joined(paths));
      }
    }
  }

  lemma WaitingIsProbing(mac: Mac, secret: Bytes, s: State)
    requires StateOk(mac, secret, s)
    ensures |s.waiting| == |s.pending| && (s.pending != [] ==> s.readiness.Probing?)
  {}

  lemma StateRemembers(mac: Mac, secret: Bytes, s: State)
    requires StateOk(mac, secret, s)
    ensures Remembers(s.books)
  {}

  lemma SteppedReceives(mac: Mac, secret: Bytes, ttl: nat, s: State, s': State, e: Event, path: seq<Books>)
    requires Stepped(mac, secret, ttl, s, s', e, path)
    ensures s'.received == s.received + (if e.Datagram? then [e.frame] else [])
  {
    hide Delivered, HeldBack, Replayed;
  }

  // ---- no replays while a flow stays ---------------------------------------------------------

  ghost predicate Remembers(b: Books) {
    History(b.flows, b.stays, b.sent)
  }

  ghost predicate AllRemember(path: seq<Books>) {
    forall i :: 0 <= i < |path| ==> Remembers(path[i])
  }

  /** What one delivery, and every other change, does to stays: a flow still there is in the same one, a flow
      that came has one never used before, and what is sent belongs to its flow's present one. */
  ghost predicate Continues(b: Books, b': Books) {
    && b.sent <= b'.sent && |b'.sent| <= |b.sent| + 1
    && (forall id :: id in b.flows && id in b'.flows ==> id in b.stays && id in b'.stays && b'.stays[id] == b.stays[id])
    && (forall id :: id !in b.flows && id in b'.flows ==> id in b'.stays && b'.stays[id] == |b.sent|)
    && (|b'.sent| > |b.sent| ==>
          var e := b'.sent[|b.sent|];
          e.hdr.flowId in b'.flows && e.hdr.flowId in b'.stays && b'.stays[e.hdr.flowId] == e.stay)
  }

  ghost predicate BooksRun(books: seq<Books>) {
    AllRemember(books) && forall i :: 0 <= i < |books| - 1 ==> Continues(books[i], books[i + 1])
  }

  /** What `Remembers` says of stays. */
  lemma StaysKnown(b: Books)
    requires Remembers(b)
    ensures b.stays.Keys == b.flows.Keys
  {}

  lemma SentOnContinues(b: Books, b': Books, no: nat, hdr: Header, payload: Bytes)
    requires b.stays.Keys == b.flows.Keys == b'.flows.Keys && SentOn(b, b', no, hdr, payload)
    ensures Continues(b, b')
  {}

  lemma SentFirstContinues(b: Books, b': Books, no: nat, hdr: Header, payload: Bytes)
    requires b.stays.Keys == b.flows.Keys && hdr.flowId !in b.flows && SentFirst(b, b', no, hdr, payload)
    requires b'.stays.Keys == b'.flows.Keys
    ensures Continues(b, b')
  {}

  lemma DroppedContinues(b: Books, b': Books, after: Drops)
    requires b.stays.Keys == b.flows.Keys && b'.flows.Keys <= b.flows.Keys && Dropped(b, b', after)
    ensures Continues(b, b')
  {}

  lemma RoutedContinues(b: Books, b': Books, hdr: Header, payload: Bytes, src: Addr, env: Env, no: nat)
    requires b.stays.Keys == b.flows.Keys && b'.stays.Keys == b'.flows.Keys
    requires Routed(b, b', hdr, payload, src, env, no)
    ensures Continues(b, b')
  {
    hide SentOn, SentFirst, Continues;
    match Decide(b.flows, hdr)
    case Forward => SentOnContinues(b, b', no, hdr, payload);
    case Supersede =>
      SameKeys(b.flows, b'.flows, hdr.flowId);
      if env.joined || env.socket {
        SentOnContinues(b, b', no, hdr, payload);
      } else {
        DroppedContinues(b, b', b'.drops);
      }
    case New =>
      if env.socket { SentFirstContinues(b, b', no, hdr, payload); } else { DroppedContinues(b, b', b'.drops); }
    case _ => DroppedContinues(b, b', b'.drops);
  }

  lemma SameKeys(flows: FlowMap, flows': FlowMap, id: u32)
    requires flows' - {id} == flows - {id} && id in flows
    ensures if id in flows' then flows'.Keys == flows.Keys else flows'.Keys <= flows.Keys
  {
    assert flows.Keys == (flows - {id}).Keys + {id};
    if id in flows' { assert flows'.Keys == (flows' - {id}).Keys + {id}; } else { assert flows' - {id} == flows'; }
  }

  lemma DeliveryContinues(mac: Mac, secret: Bytes, b: Books, b': Books, frame: Bytes, src: Addr, env: Env, no: nat)
    requires Remembers(b) && Remembers(b') && Delivered(mac, secret, b, b', frame, src, env, no)
    ensures Continues(b, b')
  {
    StaysKnown(b);
    StaysKnown(b');
    hide Remembers, Open, Routed, Continues;
    var plain := Open(mac, secret, HostToAgent, frame);
    if plain.None? {
      DroppedContinues(b, b', b'.drops);
    } else {
      var (hdr, payload) := plain.value;
      RoutedContinues(b, b', hdr, payload, src, env, no);
    }
  }

  lemma OthersContinue(mac: Mac, secret: Bytes, ttl: nat, s: State, s': State, e: Event, path: seq<Books>)
    requires Stepped(mac, secret, ttl, s, s', e, path) && AllRemember(path) && |path| == 2
    requires !(e.Poll? && s.readiness.Probing? && e.bound)
    requires e.Datagram? ==> Gate(s.readiness, e.now, e.later, e.bound).1 != Deliver
    ensures Continues(path[0], path[1])
  {
    assert Remembers(path[0]) && Remembers(path[1]);
    hide NoReplay, StaysNumbered, Delivered;
  }

  lemma StepRuns(mac: Mac, secret: Bytes, ttl: nat, s: State, s': State, e: Event, path: seq<Books>)
    requires Stepped(mac, secret, ttl, s, s', e, path) && AllRemember(path)
    ensures BooksRun(path)
  {
    hide Delivered, Continues, Remembers, HeldBack;
    if e.Poll? && s.readiness.Probing? && e.bound {
      forall i | 0 <= i < |path| - 1 ensures Continues(path[i], path[i + 1]) {
        var held := s.pending[i];
        DeliveryContinues(mac, secret, path[i], path[i + 1], held.0, held.1, e.envs(i), s.waiting[i]);
      }
    } else if e.Datagram? && Gate(s.readiness, e.now, e.later, e.bound).1 == Deliver {
      DeliveryContinues(mac, secret, path[0], path[1], e.frame, e.src, e.env, |s.received|);
    } else {
      OthersContinue(mac, secret, ttl, s, s', e, path);
    }
  }

  function Joined(paths: seq<seq<Books>>): seq<Books> {
    if paths == [] then [] else Joined(paths[..|paths| - 1]) + paths[|paths| - 1]
  }

  lemma {:induction false} JoinedRuns(mac: Mac, secret: Bytes, ttl: nat, trace: seq<State>, paths: seq<seq<Books>>,
                                      events: seq<Event>)
    requires Ran(mac, secret, ttl, trace, paths, events) && events != []
    requires forall i :: 0 <= i < |paths| ==> AllRemember(paths[i])
    ensures var books := Joined(paths);
            BooksRun(books) && books != [] && books[0] == trace[0].books && books[|books| - 1] == trace[|events|].books
  {
    var n := |events| - 1;
    assert Stepped(mac, secret, ttl, trace[n], trace[n + 1], events[n], paths[n]);
    StepRuns(mac, secret, ttl, trace[n], trace[n + 1], events[n], paths[n]);
    hide Continues, Remembers;
    if n == 0 {
      assert paths[..0] == [] && Joined(paths) == [] + paths[0] == paths[0];
    } else {
      JoinedRuns(mac, secret, ttl, trace[..|events|], paths[..n], events[..n]);
      RunsJoin(Joined(paths[..n]), paths[n]);
    }
  }

  lemma RunsJoin(a: seq<Books>, b: seq<Books>)
    requires BooksRun(a) && BooksRun(b) && a != [] && b != [] && a[|a| - 1] == b[0]
    ensures BooksRun(a + b)
  {
    assert Continues(b[0], b[0]) by { assert Remembers(b[0]); }
    hide Continues, Remembers;
    forall i | 0 <= i < |a + b| - 1 ensures Continues((a + b)[i], (a + b)[i + 1]) {
      if i >= |a| { assert Continues(b[i - |a|], b[i - |a| + 1]); }
    }
  }

  /** Entry `i` of the log is sent in the step from `books[a]`. */
  ghost predicate Sends(books: seq<Books>, a: nat, i: nat) {
    a + 1 < |books| && |books[a].sent| <= i < |books[a + 1].sent|
  }

  ghost function HeaderSent(books: seq<Books>, a: nat, i: nat): Header
    requires Sends(books, a, i)
  {
    books[a + 1].sent[i].hdr
  }

  /** The flow is in the map from just after step `a` to `to`. */
  ghost predicate InMap(books: seq<Books>, id: u32, a: nat, to: nat) {
    to < |books| && forall k :: a < k <= to ==> id in books[k].flows
  }

  /** Entry `i`, sent in step `a`, and the map of `books[k]`, with the flow in the map all the while. */
  ghost predicate StillThere(books: seq<Books>, a: nat, i: nat, k: nat) {
    Sends(books, a, i) && a < k && InMap(books, HeaderSent(books, a, i).flowId, a, k)
  }

  ghost predicate SendsAgain(books: seq<Books>, a: nat, i: nat, b: nat, j: nat) {
    StillThere(books, a, i, b) && Sends(books, b, j) && HeaderSent(books, a, i).flowId == HeaderSent(books, b, j).flowId
  }

  /** A datagram sent on is refused for as long as its flow stays in the map, and what the flow sends on in that
      time is newer. */
  ghost predicate NoneReplayed(books: seq<Books>) {
    && (forall a: nat, i: nat, k: nat :: StillThere(books, a, i, k) ==>
          Decide(books[k].flows, HeaderSent(books, a, i)) in {Replay, StaleEpoch})
    && (forall a: nat, i: nat, b: nat, j: nat :: SendsAgain(books, a, i, b, j) ==>
          HeaderSent(books, a, i).Before(HeaderSent(books, b, j)))
  }

  /** The log only grows. */
  lemma {:induction false} LogKept(books: seq<Books>, a: nat, b: nat)
    requires BooksRun(books) && a <= b < |books|
    ensures books[a].sent <= books[b].sent
    decreases b
  {
    if a < b {
      LogKept(books, a, b - 1);
      assert Continues(books[b - 1], books[b - 1 + 1]);
    }
  }

  lemma EntryKept(books: seq<Books>, a: nat, i: nat, k: nat)
    requires BooksRun(books) && Sends(books, a, i) && a < k < |books|
    ensures i < |books[k].sent| && books[k].sent[i] == books[a + 1].sent[i]
  {
    hide BooksRun;
    LogKept(books, a + 1, k);
  }

  lemma SentInStay(books: seq<Books>, a: nat, i: nat)
    requires BooksRun(books) && Sends(books, a, i)
    ensures var e := books[a + 1].sent[i];
            && i == |books[a].sent| && e.hdr.flowId in books[a + 1].flows && e.hdr.flowId in books[a + 1].stays
            && books[a + 1].stays[e.hdr.flowId] == e.stay
  {
    hide Remembers;
    assert Continues(books[a], books[a + 1]);
  }

  /** While it is in the map, a flow is in the stay it sent in. */
  lemma {:induction false} SameStayInMap(books: seq<Books>, a: nat, i: nat, k: nat)
    requires BooksRun(books) && Sends(books, a, i) && a < k && InMap(books, HeaderSent(books, a, i).flowId, a, k)
    ensures var id := HeaderSent(books, a, i).flowId;
            id in books[k].stays && books[k].stays[id] == books[a + 1].sent[i].stay
    decreases k
  {
    hide Remembers;
    SentInStay(books, a, i);
    if a + 1 < k {
      SameStayInMap(books, a, i, k - 1);
      assert Continues(books[k - 1], books[k - 1 + 1]);
    }
  }

  /** Once it has left, every later stay is a new one. */
  lemma {:induction false} NewStayAfter(books: seq<Books>, id: u32, gone: nat, k: nat)
    requires BooksRun(books) && gone <= k < |books| && id !in books[gone].flows
    ensures id in books[k].flows ==> id in books[k].stays && books[k].stays[id] >= |books[gone].sent|
    decreases k
  {
    hide Remembers;
    if gone < k {
      NewStayAfter(books, id, gone, k - 1);
      LogKept(books, gone, k - 1);
      assert Continues(books[k - 1], books[k - 1 + 1]);
    }
  }

  /** Two datagrams of a flow were sent in one stay if and only if the flow was in the map all the while. */
  lemma StayExactly(books: seq<Books>, a: nat, i: nat, b: nat, j: nat)
    requires BooksRun(books) && Sends(books, a, i) && Sends(books, b, j) && a < b
    requires HeaderSent(books, a, i).flowId == HeaderSent(books, b, j).flowId
    ensures SameStay(books[a + 1].sent[i], books[b + 1].sent[j]) <==> InMap(books, HeaderSent(books, a, i).flowId, a, b)
  {
    var id := HeaderSent(books, a, i).flowId;
    SentInStay(books, a, i);
    SentInStay(books, b, j);
    assert Remembers(books[a + 1]);
    hide Remembers, NoReplay, Marked;
    assert books[a + 1].sent[i].stay <= i;
    if InMap(books, id, a, b) {
      SameStayInMap(books, a, i, b);
      assert Continues(books[b], books[b + 1]);
    } else {
      var k :| a < k <= b && id !in books[k].flows;
      NewStayAfter(books, id, k, b + 1);
      LogKept(books, a + 1, k);
    }
  }

  lemma RefusedInMap(books: seq<Books>, a: nat, i: nat, k: nat)
    requires BooksRun(books) && StillThere(books, a, i, k)
    ensures Decide(books[k].flows, HeaderSent(books, a, i)) in {Replay, StaleEpoch}
  {
    SameStayInMap(books, a, i, k);
    LogKept(books, a + 1, k);
    assert Remembers(books[k]);
    hide NoReplay, StaysNumbered, Marked, Decide;
    RefusedWhileItStays(books[k].flows, books[k].stays, books[k].sent, i);
  }

  lemma StayRises(b: Books, i: nat, j: nat)
    requires Remembers(b) && i < j < |b.sent| && SameStay(b.sent[i], b.sent[j])
    ensures b.sent[i].hdr.Before(b.sent[j].hdr)
  {
    hide StaysNumbered, Marked;
  }

  lemma RisesInMap(books: seq<Books>, a: nat, i: nat, b: nat, j: nat)
    requires BooksRun(books) && SendsAgain(books, a, i, b, j)
    ensures HeaderSent(books, a, i).Before(HeaderSent(books, b, j))
  {
    assert Remembers(books[b + 1]);
    hide BooksRun, InMap, Remembers;
    StayExactly(books, a, i, b, j);
    EntryKept(books, a, i, b + 1);
    EntryKept(books, a, i, b);
    StayRises(books[b + 1], i, j);
  }

  /** In every run of the books no datagram is replayed into a flow that is still in the map. */
  lemma NoReplays(books: seq<Books>)
    requires BooksRun(books)
    ensures NoneReplayed(books)
  {
    hide BooksRun;
    forall a: nat, i: nat, k: nat | StillThere(books, a, i, k)
      ensures Decide(books[k].flows, HeaderSent(books, a, i)) in {Replay, StaleEpoch}
    {
      RefusedInMap(books, a, i, k);
    }
    forall a: nat, i: nat, b: nat, j: nat | SendsAgain(books, a, i, b, j)
      ensures HeaderSent(books, a, i).Before(HeaderSent(books, b, j))
    {
      RisesInMap(books, a, i, b, j);
    }
  }
}
