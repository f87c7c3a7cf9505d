/** What becomes of a datagram, said with epochs, nonces and clock readings. */
module Deliveries {
  import opened Common
  import opened Bytes
  import opened Keys
  import opened Transit
  import opened Flows
  import opened LandForwarding

  /** A counter rises by one and nothing else changes: no payload is sent and no flow is touched. */
  ghost predicate OnlyCounts(b: Books, b': Books, drops: Drops) {
    b' == b.(drops := drops)
  }

  /** The payload goes on as the newest of its flow: epoch, nonce and time are recorded, and no other flow
      changes. */
  ghost predicate GoesOn(b: Books, b': Books, no: nat, hdr: Header, payload: Bytes, now: nat) {
    && |b'.sent| == |b.sent| + 1 && b'.sent[..|b.sent|] == b.sent
    && b'.sent[|b.sent|].no == no && b'.sent[|b.sent|].hdr == hdr && b'.sent[|b.sent|].payload == payload
    && hdr.flowId in b'.flows && b'.flows[hdr.flowId].epoch == hdr.epoch
    && b'.flows[hdr.flowId].inNonceHw == hdr.nonce && b'.flows[hdr.flowId].lastSeen == now
  }

  lemma Opened(mac: Mac, secret: Bytes, b: Books, b': Books, hdr: Header, payload: Bytes, src: Addr, env: Env, no: nat)
    requires Delivered(mac, secret, b, b', Sealed(mac, secret, HostToAgent, hdr, payload), src, env, no)
    ensures Routed(b, b', hdr, payload, src, env, no)
  {
    hide Open, Sealed, Routed;
    OpensExactlySealed(mac, secret, HostToAgent, Sealed(mac, secret, HostToAgent, hdr, payload), hdr, payload);
  }

  /** A genuine datagram of a flow in the map is sent on if and only if it is newer than the newest sent on (a
      higher nonce under the same epoch, or a higher epoch), and, for a higher epoch, a socket is to be had.
      Otherwise exactly one counter rises: for the same epoch the replays, for a lower one the stale epochs, for
      a higher one the failed binds. */
  lemma KnownFlow(mac: Mac, secret: Bytes, b: Books, b': Books, hdr: Header, payload: Bytes, src: Addr, env: Env,
                  no: nat)
    requires Delivered(mac, secret, b, b', Sealed(mac, secret, HostToAgent, hdr, payload), src, env, no)
    requires hdr.flowId in b.flows
    ensures var f := b.flows[hdr.flowId];
            && (|b'.sent| == |b.sent| + 1 <==>
                  (hdr.epoch == f.epoch && hdr.nonce > f.inNonceHw) ||
                  (hdr.epoch > f.epoch && (env.joined || env.socket)))
            && (|b'.sent| == |b.sent| + 1 ==>
                  GoesOn(b, b', no, hdr, payload, env.now) && b'.drops == b.drops &&
                  b'.flows - {hdr.flowId} == b.flows - {hdr.flowId})
            && (hdr.epoch == f.epoch && hdr.nonce <= f.inNonceHw ==>
                  OnlyCounts(b, b', b.drops.(nonceReplay := b.drops.nonceReplay + 1)))
            && (hdr.epoch < f.epoch ==> OnlyCounts(b, b', b.drops.(staleEpoch := b.drops.staleEpoch + 1)))
            && (hdr.epoch > f.epoch && !env.joined && !env.socket ==>
                  && b'.sent == b.sent && b'.flows == b.flows - {hdr.flowId}
                  && b'.drops == b.drops.(loopbackBindFail := b.drops.loopbackBindFail + 1))
  {
    hide Delivered;
    Opened(mac, secret, b, b', hdr, payload, src, env, no);
    if hdr.epoch > b.flows[hdr.flowId].epoch && !env.joined && !env.socket {
      assert b'.flows == b'.flows - {hdr.flowId};
    }
  }

  /** Below 256 flows all stay; at 256 a least recently active one leaves. */
  ghost predicate RoomFor(flows: FlowMap, room: FlowMap) {
    if |flows| < 256 then room == flows else
      exists victim :: && victim in flows && room == flows - {victim}
        && forall id :: id in flows ==> flows[victim].lastSeen <= flows[id].lastSeen
  }

  lemma RoomIs(flows: FlowMap, room: FlowMap)
    requires MadeRoom(flows, room)
    ensures RoomFor(flows, room) && room.Keys <= flows.Keys
  {
    if |flows| >= MAX_FLOWS {
      var victim :| LeastRecent(flows, victim) && room == flows - {victim};
    }
  }

  /** A genuine datagram of a flow not in the map is sent on if and only if a socket can be opened. At 256 flows
      one makes room, and is counted. */
  lemma NewFlow(mac: Mac, secret: Bytes, b: Books, b': Books, hdr: Header, payload: Bytes, src: Addr, env: Env, no: nat)
    requires Delivered(mac, secret, b, b', Sealed(mac, secret, HostToAgent, hdr, payload), src, env, no)
    requires hdr.flowId !in b.flows
    ensures var evicted := if |b.flows| < 256 then b.drops else b.drops.(mapFullEvicted := b.drops.mapFullEvicted + 1);
            && (|b'.sent| == |b.sent| + 1 <==> env.socket)
            && (env.socket ==> GoesOn(b, b', no, hdr, payload, env.now) && b'.drops == evicted &&
                               b'.flows[hdr.flowId].replyTo == src && RoomFor(b.flows, b'.flows - {hdr.flowId}))
            && (!env.socket ==> b'.sent == b.sent && RoomFor(b.flows, b'.flows) &&
                                b'.drops == evicted.(loopbackBindFail := evicted.loopbackBindFail + 1))
  {
    hide Delivered, RoomFor, MadeRoom, SentFirst, Dropped, GoesOn, Gone;
    Opened(mac, secret, b, b', hdr, payload, src, env, no);
    if env.socket {
      FirstGoesOn(b, b', no, hdr, payload, env.now);
      RoomIs(b.flows, b'.flows - {hdr.flowId});
    } else {
      var evicted := Evicting(b.flows, b.drops);
      DropCounts(b, b', evicted.(loopbackBindFail := evicted.loopbackBindFail + 1));
      RoomIs(b.flows, b'.flows);
    }
  }

  lemma FirstGoesOn(b: Books, b': Books, no: nat, hdr: Header, payload: Bytes, now: nat)
    requires SentFirst(b, b', no, hdr, payload) && hdr.flowId in b'.flows
    requires var f := b'.flows[hdr.flowId]; f.epoch == hdr.epoch && f.inNonceHw == hdr.nonce && f.lastSeen == now
    ensures GoesOn(b, b', no, hdr, payload, now) && |b'.sent| == |b.sent| + 1
  {
    hide Gone;
  }

  lemma DropCounts(b: Books, b': Books, after: Drops)
    requires Dropped(b, b', after)
    ensures b'.sent == b.sent && b'.drops == after
  {
    hide Gone;
  }

  /** A frame nobody with the secret sealed for this leg is counted and does nothing. */
  lemma Forged(mac: Mac, secret: Bytes, b: Books, b': Books, frame: Bytes, src: Addr, env: Env, no: nat)
    requires Delivered(mac, secret, b, b', frame, src, env, no)
    requires forall hdr, payload :: frame != Sealed(mac, secret, HostToAgent, hdr, payload)
    ensures OnlyCounts(b, b', b.drops.(headerAuthFail := b.drops.headerAuthFail + 1))
  {
    hide Open, Sealed, Routed;
    if Open(mac, secret, HostToAgent, frame).Some? {
      var (hdr, payload) := Open(mac, secret, HostToAgent, frame).value;
      OpensExactlySealed(mac, secret, HostToAgent, frame, hdr, payload);
    }
  }

  // ---- the readiness gate ---------------------------------------------------------------------

  /** The frame waits if fewer than four do and all of them together take no more than eight kibibytes; else it
      is counted as overflow. */
  ghost predicate Waits(s: State, s': State, frame: Bytes, src: Addr) {
    && s'.books.flows == s.books.flows && s'.books.sent == s.books.sent
    && if |s.pending| < 4 && Sum(Lengths(s.pending)) + |frame| <= 8192 then
         s'.pending == s.pending + [(frame, src)] && s'.books.drops == s.books.drops
       else
         && s'.pending == s.pending
         && s'.books.drops == s.books.drops.(replayBufferOverflow := s.books.drops.replayBufferOverflow + 1)
  }

  function Lengths(pending: seq<Held>): seq<nat> {
    seq(|pending|, i requires 0 <= i < |pending| => |pending[i].0|)
  }

  lemma {:induction false} TotalIsSum(pending: seq<Held>)
    ensures TotalLen(pending) == Sum(Lengths(pending))
  {
    if pending != [] {
      var n := |pending| - 1;
      TotalIsSum(pending[..n]);
      assert Lengths(pending)[..n] == Lengths(pending[..n]);
    }
  }

  /** A frame is delivered at once if and only if the guest is known to be bound, or this is the first frame
      and it is. Otherwise it waits, and the first to wait starts ten seconds of probing; but for thirty
      seconds after a probe that timed out it is counted and dropped. */
  lemma InboundExactly(mac: Mac, secret: Bytes, s: State, s': State, frame: Bytes, src: Addr, bound: bool, now: nat,
                       later: nat, env: Env)
    requires Inbound(mac, secret, s, s', frame, src, bound, now, later, env)
    ensures if s.readiness.Ready? || (s.readiness.Unknown? && bound) then
              && s'.readiness == Ready && s'.pending == []
              && Delivered(mac, secret, s.books, s'.books, frame, src, env, |s.received|)
            else if s.readiness.NotReady? && now < s.readiness.until then
              && s'.readiness == s.readiness && s'.pending == s.pending
              && s'.books.flows == s.books.flows && s'.books.sent == s.books.sent
              && s'.books.drops == s.books.drops.(udpReadinessTimeout := s.books.drops.udpReadinessTimeout + 1)
            else
              && Waits(s, s', frame, src)
              && s'.readiness == (match s.readiness
                                  case Unknown => Probing(now + 10_000)
                                  case NotReady(_) => Probing(later + 10_000)
                                  case _ => s.readiness)
  {
    TotalIsSum(s.pending);
    hide Delivered, TotalLen, Lengths;
  }

  /** While probing, a bind delivers what waits, in order, and the deadline drops it and refuses frames for
      thirty seconds; at any other time a poll does nothing. */
  lemma PollExactly(mac: Mac, secret: Bytes, s: State, s': State, now: nat, later: nat, bound: bool, envs: nat -> Env,
                    path: seq<Books>)
    requires Polled(mac, secret, s, s', now, later, bound, envs, path)
    ensures if s.readiness.Probing? && bound then
              && s'.readiness == Ready && s'.pending == [] && |path| == |s.pending| + 1 && |s.waiting| == |s.pending|
              && forall i: nat :: i < |s.pending| ==>
                   Delivered(mac, secret, path[i], path[i + 1], s.pending[i].0, s.pending[i].1, envs(i), s.waiting[i])
            else if s.readiness.Probing? && now >= s.readiness.deadline then
              && s'.readiness == NotReady(later + 30_000) && s'.pending == []
              && s'.books.sent == s.books.sent && s'.books.flows == s.books.flows
              && s'.books.drops.udpReadinessTimeout == s.books.drops.udpReadinessTimeout + |s.pending|
            else s' == s
  {
    hide Delivered;
  }

  /** A sweep takes exactly the flows idle for longer than `ttl`. */
  lemma SweepExactly(b: Books, now: nat, ttl: nat, id: u32)
    ensures var b' := Swept(b, now, ttl);
            && (id in b'.flows <==> id in b.flows && now <= b.flows[id].lastSeen + ttl)
            && (id in b'.flows ==> b'.flows[id] == b.flows[id]) && b'.sent == b.sent
            && b'.drops == Drops(0, 0, 0, 0, 0, 0, 0, 0)
  {}
}
