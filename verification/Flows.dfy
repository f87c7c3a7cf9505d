/** What the land-forward has sent, and what its flow map remembers of it. */
module Flows {
  import opened Common
  import opened Bytes
  import opened Keys
  import opened Transit

  const MAX_FLOWS: nat := 256

  /** A socket address. */
  type Addr = nat

  datatype Flow = Flow(epoch: u32, inNonceHw: u64, lastSeen: nat, replyTo: Addr)

  type FlowMap = map<u32, Flow>

  /** A payload handed to a loopback socket: the number of the frame it came in, which stay of the flow
      in the map it belongs to (numbered by the entry that began it), and the header. */
  datatype Sent = Sent(no: nat, stay: nat, hdr: Header, payload: Bytes)

  datatype Decision = Forward | Replay | StaleEpoch | Supersede | New

  function Decide(flows: FlowMap, hdr: Header): Decision {
    if hdr.flowId !in flows then New else
      var f := flows[hdr.flowId];
      if f.epoch == hdr.epoch then (if hdr.nonce <= f.inNonceHw then Replay else Forward)
      else if hdr.epoch < f.epoch then StaleEpoch
      else Supersede
  }

  // ---- the log --------------------------------------------------------------

  /** Every payload sent came in a frame that `seal` makes for the host-to-agent leg. */
  ghost predicate Genuine(mac: Mac, secret: Bytes, received: seq<Bytes>, sent: seq<Sent>) {
    forall i :: 0 <= i < |sent| ==>
      && sent[i].no < |received|
      && received[sent[i].no] == Sealed(mac, secret, HostToAgent, sent[i].hdr, sent[i].payload)
  }

  /** Frames are sent on in the order they arrived, none twice. */
  ghost predicate InArrivalOrder(sent: seq<Sent>) {
    forall i, j :: 0 <= i < j < |sent| ==> sent[i].no < sent[j].no
  }

  ghost predicate SentBelow(sent: seq<Sent>, no: nat) {
    forall i :: 0 <= i < |sent| ==> sent[i].no < no
  }

  lemma StillBelow(sent: seq<Sent>, no: nat, no': nat)
    requires SentBelow(sent, no) && no <= no'
    ensures SentBelow(sent, no')
  {}

  predicate SameStay(a: Sent, b: Sent) {
    a.hdr.flowId == b.hdr.flowId && a.stay == b.stay
  }

  /** While a flow stays in the map its epoch never falls and the nonces sent under one epoch rise. */
  ghost predicate NoReplay(sent: seq<Sent>) {
    forall i, j :: 0 <= i < j < |sent| && SameStay(sent[i], sent[j]) ==> sent[i].hdr.Before(sent[j].hdr)
  }

  ghost predicate StaysNumbered(sent: seq<Sent>) {
    forall i :: 0 <= i < |sent| ==> sent[i].stay <= i
  }

  /** Nothing of stay `stay` that was sent comes at or after `hdr`. */
  ghost predicate Admits(sent: seq<Sent>, stay: nat, hdr: Header) {
    && stay <= |sent|
    && forall i :: 0 <= i < |sent| && sent[i].hdr.flowId == hdr.flowId && sent[i].stay == stay ==>
         sent[i].hdr.Before(hdr)
  }

  function Mark(id: u32, f: Flow): Header {
    Header(id, f.epoch, f.inNonceHw)
  }

  /** A flow's high-water mark is at or past everything sent during its stay. */
  ghost predicate Marked(flows: FlowMap, stays: map<u32, nat>, sent: seq<Sent>) {
    && stays.Keys == flows.Keys
    && (forall id :: id in flows ==> stays[id] <= |sent|)
    && (forall id, i :: id in flows && 0 <= i < |sent| && sent[i].hdr.flowId == id && sent[i].stay == stays[id] ==>
          !Mark(id, flows[id]).Before(sent[i].hdr))
  }

  ghost predicate History(flows: FlowMap, stays: map<u32, nat>, sent: seq<Sent>) {
    NoReplay(sent) && StaysNumbered(sent) && Marked(flows, stays, sent)
  }

  /** A datagram newer than the flow's mark is newer than everything of its stay. */
  lemma NewerIsAdmitted(flows: FlowMap, stays: map<u32, nat>, sent: seq<Sent>, hdr: Header)
    requires History(flows, stays, sent) && hdr.flowId in flows && Mark(hdr.flowId, flows[hdr.flowId]).Before(hdr)
    ensures hdr.flowId in stays && Admits(sent, stays[hdr.flowId], hdr)
  {}

  lemma NewStayIsAdmitted(flows: FlowMap, stays: map<u32, nat>, sent: seq<Sent>, hdr: Header)
    requires History(flows, stays, sent)
    ensures Admits(sent, |sent|, hdr)
  {}

  /** A frame sent on during a flow's present stay is refused from then on; once the flow has left the
      map the mark is forgotten, and the same frame begins a new stay. */
  lemma RefusedWhileItStays(flows: FlowMap, stays: map<u32, nat>, sent: seq<Sent>, i: nat)
    requires History(flows, stays, sent) && i < |sent|
    ensures var id := sent[i].hdr.flowId;
            && (id in flows && id in stays && stays[id] == sent[i].stay ==>
                 Decide(flows, sent[i].hdr) in {Replay, StaleEpoch})
            && (id !in flows ==> Decide(flows, sent[i].hdr) == New)
  {
    var id := sent[i].hdr.flowId;
    if id in flows && stays[id] == sent[i].stay {
      assert !Mark(id, flows[id]).Before(sent[i].hdr);
    }
  }

  lemma Logged(flows: FlowMap, stays: map<u32, nat>, sent: seq<Sent>, e: Sent, f: Flow)
    requires History(flows, stays, sent) && Admits(sent, e.stay, e.hdr)
    requires f.epoch == e.hdr.epoch && f.inNonceHw == e.hdr.nonce
    ensures History(flows[e.hdr.flowId := f], stays[e.hdr.flowId := e.stay], sent + [e])
  {
    var sent' := sent + [e];
    forall i, j | 0 <= i < j < |sent'| && SameStay(sent'[i], sent'[j]) ensures sent'[i].hdr.Before(sent'[j].hdr) {
      if j < |sent| { assert SameStay(sent[i], sent[j]); }
    }
  }

  /** Flows may leave the map at any time. */
  lemma Left(flows: FlowMap, stays: map<u32, nat>, sent: seq<Sent>, gone: set<u32>)
    requires History(flows, stays, sent)
    ensures History(flows - gone, stays - gone, sent)
  {}

  /** Some other flow becoming more recently active changes nothing. */
  lemma Touched(flows: FlowMap, stays: map<u32, nat>, sent: seq<Sent>, id: u32, now: nat)
    requires History(flows, stays, sent) && id in flows
    ensures History(flows[id := flows[id].(lastSeen := now)], stays, sent)
  {
    assert Mark(id, flows[id].(lastSeen := now)) == Mark(id, flows[id]);
  }

  lemma LogGrows(mac: Mac, secret: Bytes, received: seq<Bytes>, sent: seq<Sent>, e: Sent)
    requires Genuine(mac, secret, received, sent) && InArrivalOrder(sent) && SentBelow(sent, e.no)
    requires e.no < |received| && received[e.no] == Sealed(mac, secret, HostToAgent, e.hdr, e.payload)
    ensures Genuine(mac, secret, received, sent + [e]) && InArrivalOrder(sent + [e]) && SentBelow(sent + [e], e.no + 1)
  {}

  lemma StillGenuine(mac: Mac, secret: Bytes, received: seq<Bytes>, sent: seq<Sent>, frame: Bytes)
    requires Genuine(mac, secret, received, sent)
    ensures Genuine(mac, secret, received + [frame], sent) && SentBelow(sent, |received|)
  {}

  // ---- eviction -------------------------------------------------------------

  /** No flow was active less recently. */
  ghost predicate LeastRecent(flows: FlowMap, victim: u32) {
    victim in flows && forall id :: id in flows ==> flows[victim].lastSeen <= flows[id].lastSeen
  }

  /** A full map gives up one least recently active flow. */
  ghost predicate MadeRoom(flows: FlowMap, flows': FlowMap) {
    if |flows| < MAX_FLOWS then flows' == flows
    else exists victim :: LeastRecent(flows, victim) && flows' == flows - {victim}
  }

  lemma RoomIsThere(flows: FlowMap, victim: u32)
    requires victim in flows && |flows| <= MAX_FLOWS
    ensures |flows - {victim}| < MAX_FLOWS
  {
    assert flows.Keys == (flows - {victim}).Keys + {victim};
  }

  lemma OneMore(flows: FlowMap, id: u32, f: Flow)
    requires |flows| <= MAX_FLOWS && (id in flows || |flows| < MAX_FLOWS)
    ensures |flows[id := f]| <= MAX_FLOWS
  {
    assert flows[id := f].Keys == flows.Keys + {id};
    if id in flows { assert flows[id := f].Keys == flows.Keys; }
  }

  lemma Fewer(flows: FlowMap, gone: set<u32>)
    ensures |flows - gone| <= |flows|
  {
    assert (flows - gone).Keys <= flows.Keys;
    SubsetSize((flows - gone).Keys, flows.Keys);
  }

  /** `iter().min_by_key(last_seen)`: whichever of the least recent the iteration meets. */
  method Oldest(flows: FlowMap) returns (victim: Option<u32>)
    ensures victim.None? <==> flows == map[]
    ensures victim.Some? ==> LeastRecent(flows, victim.value)
  {
    victim := None;
    var todo := flows.Keys;
    while todo != {}
      invariant todo <= flows.Keys
      invariant victim.None? ==> todo == flows.Keys
      invariant victim.Some? ==> victim.value in flows && forall id :: id in flows && id !in todo ==>
                  flows[victim.value].lastSeen <= flows[id].lastSeen
      decreases todo
    {
      var id :| id in todo;
      if victim.None? || flows[id].lastSeen < flows[victim.value].lastSeen {
        victim := Some(id);
      }
      todo := todo - {id};
    }
    assert flows.Keys == {} <==> flows == map[];
  }
}
