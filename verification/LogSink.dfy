/** The agent's log buffer: an app ring and an egress ring that share one source of sequence numbers. */
module LogSinks {
  import opened Common
  import opened Logs

  const MAX_LOG_LINES: nat := 1000
  const MAX_EGRESS_LINES: nat := 512
  const EGRESS_COALESCE_WINDOW: nat := 128
  const DROPPED_MARKER_HOST: string := "(egress-events-dropped)"

  datatype Verdict = Allow | DenyAllowlist | DenySandbox | DenyPlatform | Error

  datatype EgressEvent = EgressEvent(
    functionName: string, destHost: string, destPort: nat, destIp: Option<string>, verdict: Verdict, httpMethod: string,
    count: nat, bytesOut: nat, bytesIn: nat, status: Option<nat>)

  datatype EgressLine = EgressLine(seqNo: nat, timestamp: nat, event: EgressEvent)

  type Ring = seq<EgressLine>

  // ---- the egress ring as a value -------------------------------------------

  predicate SameKey(a: EgressEvent, b: EgressEvent) {
    a.functionName == b.functionName && a.destHost == b.destHost && a.destPort == b.destPort && a.verdict == b.verdict
  }

  /** A repeat folded into the row it repeats. */
  function Fold(row: EgressEvent, event: EgressEvent): EgressEvent {
    row.(count := SatAdd(row.count, event.count),
         bytesOut := SatAdd(row.bytesOut, event.bytesOut),
         bytesIn := SatAdd(row.bytesIn, event.bytesIn),
         status := if event.status.Some? then event.status else row.status,
         destIp := if event.destIp.Some? then event.destIp else row.destIp)
  }

  ghost predicate RepeatsAt(ring: Ring, event: EgressEvent, k: nat) {
    k < |ring| && Monus(|ring|, EGRESS_COALESCE_WINDOW) <= k && SameKey(ring[k].event, event)
  }

  ghost predicate Repeats(ring: Ring, event: EgressEvent) {
    exists k: nat :: RepeatsAt(ring, event, k)
  }

  /** The oldest row that is not an Allow; the oldest of all if every row is. */
  ghost predicate IsVictim(ring: Ring, k: nat) {
    && k < |ring|
    && (ring[k].event.verdict == Allow ==> k == 0 && forall i :: 0 <= i < |ring| ==> ring[i].event.verdict == Allow)
    && (ring[k].event.verdict != Allow ==> forall i :: 0 <= i < k ==> ring[i].event.verdict == Allow)
  }

  function Without(ring: Ring, k: nat): Ring
    requires k < |ring|
  {
    ring[..k] + ring[k + 1..]
  }

  /** A push that folds into no row: the victim of a full ring goes, the new row joins at the end. */
  ghost predicate Joins(ring: Ring, ring': Ring, row: EgressLine) {
    if |ring| < MAX_EGRESS_LINES then ring' == ring + [row]
    else exists k: nat :: JoinsWithout(ring, ring', row, k)
  }

  /** A push that folds into the first row of the window it repeats. */
  ghost predicate FoldsAt(ring: Ring, ring': Ring, event: EgressEvent, k: nat) {
    && RepeatsAt(ring, event, k) && (forall i: nat :: i < k ==> !RepeatsAt(ring, event, i))
    && ring' == ring[k := ring[k].(event := Fold(ring[k].event, event))]
  }

  ghost predicate JoinsWithout(ring: Ring, ring': Ring, row: EgressLine, k: nat) {
    IsVictim(ring, k) && ring' == Without(ring, k) + [row]
  }

  /** What one push does to the ring. */
  ghost predicate Pushes(ring: Ring, ring': Ring, row: EgressLine) {
    if Repeats(ring, row.event) then exists k: nat :: FoldsAt(ring, ring', row.event, k) else Joins(ring, ring', row)
  }

  /** The Allow rows, in order. */
  ghost function Allows(ring: Ring): seq<EgressLine> {
    if ring == [] then [] else
      Allows(ring[..|ring| - 1]) + (if ring[|ring| - 1].event.verdict == Allow then [ring[|ring| - 1]] else [])
  }

  lemma {:induction false} AllowsJoin(a: Ring, b: Ring)
    ensures Allows(a + b) == Allows(a) + Allows(b)
    decreases |b|
  {
    if b == [] {
      assert a + b == a;
    } else {
      assert (a + b)[..|a + b| - 1] == a + b[..|b| - 1];
      AllowsJoin(a, b[..|b| - 1]);
    }
  }

  lemma AllowsOfOne(row: EgressLine)
    ensures Allows([row]) == if row.event.verdict == Allow then [row] else []
  {
    assert [row][..0] == [];
  }

  lemma {:induction false} AllAllow(ring: Ring)
    ensures |Allows(ring)| <= |ring|
    ensures |Allows(ring)| == |ring| <==> forall i :: 0 <= i < |ring| ==> ring[i].event.verdict == Allow
    ensures |Allows(ring)| == |ring| ==> Allows(ring) == ring
    decreases |ring|
  {
    if ring != [] {
      var rest := ring[..|ring| - 1];
      AllAllow(rest);
      assert ring == rest + [ring[|ring| - 1]];
      assert (forall i :: 0 <= i < |ring| ==> ring[i].event.verdict == Allow) <==>
             (forall i :: 0 <= i < |rest| ==> rest[i].event.verdict == Allow) &&
               ring[|ring| - 1].event.verdict == Allow;
    }
  }

  /** The victim is an Allow row only if every row is. */
  lemma AllowsWithoutVictim(ring: Ring, k: nat)
    requires IsVictim(ring, k)
    ensures Allows(Without(ring, k)) == if |Allows(ring)| < |ring| then Allows(ring) else Allows(ring)[1..]
  {
    hide Allows;
    var a, b := ring[..k], ring[k + 1..];
    assert ring == a + [ring[k]] + b;
    AllowsJoin(a, [ring[k]]);
    AllowsJoin(a + [ring[k]], b);
    AllowsJoin(a, b);
    AllowsOfOne(ring[k]);
    AllAllow(ring);
    if |Allows(ring)| == |ring| {
      assert a == [];
    }
  }

  lemma FoldedVerdict(ring: Ring, event: EgressEvent, k: nat)
    requires RepeatsAt(ring, event, k)
    ensures k < |ring| && ring[k].event.verdict == event.verdict
  {}

  lemma WithoutShrinks(ring: Ring, k: nat)
    requires IsVictim(ring, k)
    ensures k < |ring| && |Without(ring, k)| == |ring| - 1
  {}

  lemma AllowsAfterFold(ring: Ring, k: nat, event: EgressEvent)
    requires k < |ring| && event.verdict != Allow && ring[k].event.verdict != Allow
    ensures Allows(ring[k := ring[k].(event := Fold(ring[k].event, event))]) == Allows(ring)
  {
    hide Allows;
    var row := ring[k].(event := Fold(ring[k].event, event));
    var a, b := ring[..k], ring[k + 1..];
    assert ring == a + [ring[k]] + b && ring[k := row] == a + [row] + b;
    AllowsJoin(a, [ring[k]]);
    AllowsJoin(a + [ring[k]], b);
    AllowsJoin(a, [row]);
    AllowsJoin(a + [row], b);
    AllowsOfOne(ring[k]);
    AllowsOfOne(row);
  }

  /** A push that is not an Allow leaves every Allow row as it was, unless all 512 rows are Allow:
      then the oldest of them goes. */
  lemma DenyKeepsAllows(ring: Ring, ring': Ring, row: EgressLine)
    requires |ring| <= MAX_EGRESS_LINES && Pushes(ring, ring', row) && row.event.verdict != Allow
    ensures |ring'| <= MAX_EGRESS_LINES
    ensures Allows(ring') == if |Allows(ring)| < MAX_EGRESS_LINES then Allows(ring) else Allows(ring)[1..]
  {
    hide Allows, IsVictim, Without, RepeatsAt;
    AllAllow(ring);
    if Repeats(ring, row.event) {
      var k: nat :| FoldsAt(ring, ring', row.event, k);
      FoldedVerdict(ring, row.event, k);
      AllowsAfterFold(ring, k, row.event);
    } else {
      AllowsOfOne(row);
      if |ring| < MAX_EGRESS_LINES {
        AllowsJoin(ring, [row]);
      } else {
        var k: nat :| JoinsWithout(ring, ring', row, k);
        AllowsWithoutVictim(ring, k);
        WithoutShrinks(ring, k);
        AllowsJoin(Without(ring, k), [row]);
      }
    }
  }

  /** Rings met along a run of pushes. */
  ghost predicate PushRun(rings: seq<Ring>, rows: seq<EgressLine>) {
    |rings| == |rows| + 1 && forall i :: 0 <= i < |rows| ==> Pushes(rings[i], rings[i + 1], rows[i])
  }

  /** However long the flood of pushes that are not Allow, no Allow row is lost from a ring that has
      room for another, and at most one from a ring full of them. */
  lemma {:induction false} FloodKeepsAllows(rings: seq<Ring>, rows: seq<EgressLine>)
    requires PushRun(rings, rows) && |rings[0]| <= MAX_EGRESS_LINES
    requires forall i :: 0 <= i < |rows| ==> rows[i].event.verdict != Allow
    ensures var first, last := Allows(rings[0]), Allows(rings[|rows|]);
            last == if |first| < MAX_EGRESS_LINES || rows == [] then first else first[1..]
    decreases |rows|
  {
    AllAllow(rings[0]);
    if rows != [] {
      DenyKeepsAllows(rings[0], rings[1], rows[0]);
      assert PushRun(rings[1..], rows[1..]);
      FloodKeepsAllows(rings[1..], rows[1..]);
    }
  }

  /** An Allow row leaves only when all 512 rows are Allow: otherwise each is still there, the same or
      with the repeat folded into it. */
  lemma AllowLeavesOnlyAFullRing(ring: Ring, ring': Ring, row: EgressLine, i: nat)
    requires |ring| <= MAX_EGRESS_LINES && Pushes(ring, ring', row)
    requires i < |ring| && ring[i].event.verdict == Allow && |Allows(ring)| < MAX_EGRESS_LINES
    ensures exists j :: 0 <= j < |ring'| && ring'[j].seqNo == ring[i].seqNo && SameKey(ring'[j].event, ring[i].event)
  {
    if Repeats(ring, row.event) {
      var k: nat :| FoldsAt(ring, ring', row.event, k);
      assert ring'[i].seqNo == ring[i].seqNo;
    } else if |ring| < MAX_EGRESS_LINES {
      assert ring'[i] == ring[i];
    } else {
      AllAllow(ring);
      var k: nat :| JoinsWithout(ring, ring', row, k);
      assert k != i;
      assert ring'[if i < k then i else i - 1] == ring[i];
    }
  }

  // ---- numbering ------------------------------------------------------------

  /** No two lines, nor the marker, nor a number taken but not yet used, share a number. */
  ghost predicate Numbered(buffer: seq<LogLine>, ring: Ring, droppedSeq: nat, inFlight: set<nat>, top: nat) {
    && DistinctSeqs(buffer)
    && (forall i, j :: 0 <= i < j < |ring| ==> ring[i].seqNo < ring[j].seqNo)
    && (forall i, j :: 0 <= i < |buffer| && 0 <= j < |ring| ==> buffer[i].seqNo != ring[j].seqNo)
    && (forall i :: 0 <= i < |buffer| ==> Used(buffer[i].seqNo, droppedSeq, inFlight, top))
    && (forall i :: 0 <= i < |ring| ==> Used(ring[i].seqNo, droppedSeq, inFlight, top))
    && droppedSeq <= top && droppedSeq !in inFlight && forall s :: s in inFlight ==> 0 < s <= top
  }

  ghost predicate Used(s: nat, droppedSeq: nat, inFlight: set<nat>, top: nat) {
    0 < s <= top && s != droppedSeq && s !in inFlight
  }

  /** Only numbers never used before have been taken. */
  ghost predicate MoreTaken(inFlight: set<nat>, inFlight': set<nat>, top: nat, top': nat) {
    top <= top' && inFlight <= inFlight' && forall s :: s in inFlight' && s !in inFlight ==> top < s <= top'
  }

  lemma TakenNumber(buffer: seq<LogLine>, ring: Ring, droppedSeq: nat, inFlight: set<nat>, top: nat)
    requires Numbered(buffer, ring, droppedSeq, inFlight, top)
    ensures top + 1 !in inFlight && Numbered(buffer, ring, droppedSeq, inFlight + {top + 1}, top + 1)
  {}

  lemma BufferedLine(buffer: seq<LogLine>, ring: Ring, droppedSeq: nat, inFlight: set<nat>, top: nat, l: LogLine)
    requires Numbered(buffer, ring, droppedSeq, inFlight, top) && l.seqNo in inFlight
    ensures Numbered(buffer + [l], ring, droppedSeq, inFlight - {l.seqNo}, top)
    ensures buffer != [] ==> Numbered(buffer[1..], ring, droppedSeq, inFlight, top)
  {}

  lemma FoldedRow(buffer: seq<LogLine>, ring: Ring, droppedSeq: nat, inFlight: set<nat>, top: nat, k: nat,
                  event: EgressEvent)
    requires Numbered(buffer, ring, droppedSeq, inFlight, top) && k < |ring|
    ensures Numbered(buffer, ring[k := ring[k].(event := event)], droppedSeq, inFlight, top)
  {}

  lemma EvictedRow(buffer: seq<LogLine>, ring: Ring, droppedSeq: nat, inFlight: set<nat>, top: nat, k: nat)
    requires Numbered(buffer, ring, droppedSeq, inFlight, top) && k < |ring|
    ensures Numbered(buffer, Without(ring, k), droppedSeq, inFlight, top)
  {}

  /** The first eviction gives the marker its number, after any numbers taken meanwhile. */
  lemma MarkerNumber(buffer: seq<LogLine>, ring: Ring, inFlight: set<nat>, top: nat)
    requires Numbered(buffer, ring, 0, inFlight, top)
    ensures Numbered(buffer, ring, top + 1, inFlight, top + 1)
  {}

  lemma JoinedRow(buffer: seq<LogLine>, ring: Ring, droppedSeq: nat, inFlight: set<nat>, top: nat, row: EgressLine)
    requires Numbered(buffer, ring, droppedSeq, inFlight, top) && row.seqNo in inFlight
    requires RingBelow(ring, row.seqNo)
    ensures Numbered(buffer, ring + [row], droppedSeq, inFlight - {row.seqNo}, top)
  {}

  ghost predicate RingBelow(ring: Ring, s: nat) {
    forall i :: 0 <= i < |ring| ==> ring[i].seqNo < s
  }

  lemma RingIsBelow(buffer: seq<LogLine>, ring: Ring, droppedSeq: nat, inFlight: set<nat>, top: nat)
    requires Numbered(buffer, ring, droppedSeq, inFlight, top)
    ensures RingBelow(ring, top + 1)
    ensures forall k: nat :: k < |ring| ==> RingBelow(Without(ring, k), top + 1)
  {}

  // ---- what readers see -----------------------------------------------------

  function RowLine(json: EgressEvent -> string, row: EgressLine): LogLine {
    LogLine(row.event.functionName, EGRESS_STREAM, json(row.event), row.timestamp, row.seqNo)
  }

  function MarkerLine(json: EgressEvent -> string, dropped: nat, droppedSeq: nat, now: nat): LogLine {
    var event := EgressEvent("_egress", DROPPED_MARKER_HOST, 0, None, Error, "", dropped, 0, 0, None);
    LogLine("_egress", EGRESS_STREAM, json(event), now, droppedSeq)
  }

  function EgressLines(json: EgressEvent -> string, ring: Ring, dropped: nat, droppedSeq: nat,
                       now: nat): (r: seq<LogLine>) {
    seq(|ring|, i requires 0 <= i < |ring| => RowLine(json, ring[i])) +
    if dropped > 0 then [MarkerLine(json, dropped, droppedSeq, now)] else []
  }

  lemma RetainedAreDistinct(json: EgressEvent -> string, buffer: seq<LogLine>, ring: Ring, dropped: nat,
                            droppedSeq: nat, inFlight: set<nat>, top: nat, now: nat)
    requires Numbered(buffer, ring, droppedSeq, inFlight, top)
    ensures DistinctSeqs(buffer + EgressLines(json, ring, dropped, droppedSeq, now))
  {
    var all := buffer + EgressLines(json, ring, dropped, droppedSeq, now);
    var n := |buffer|;
    forall i, j | 0 <= i < j < |all| ensures all[i].seqNo != all[j].seqNo {
      assert n <= i < n + |ring| ==> all[i].seqNo == ring[i - n].seqNo;
      assert n <= j < n + |ring| ==> all[j].seqNo == ring[j - n].seqNo;
      assert j >= n + |ring| ==> all[j].seqNo == droppedSeq;
    }
  }

  /** Everything the sink holds. */
  datatype Sink = Sink(buffer: seq<LogLine>, ring: Ring, dropped: nat, droppedSeq: nat, top: nat, inFlight: set<nat>)

  class LogSink {
    const json: EgressEvent -> string
    var buffer: seq<LogLine>
    var ring: Ring
    var dropped: nat
    var droppedSeq: nat
    var top: nat
    /** Numbers held by pushes that have yet to reach the ring. */
    var inFlight: set<nat>
    /** Egress pushes that folded into no row, and rows they displaced. */
    ghost var joined: nat
    ghost var evicted: nat

    constructor (json: EgressEvent -> string)
      ensures Valid() && buffer == [] && ring == [] && dropped == 0 && top == 0 && inFlight == {} && joined == 0
    {
      this.json := json;
      buffer, ring, dropped, droppedSeq, top := [], [], 0, 0, 0;
      inFlight, joined, evicted := {}, 0, 0;
    }

    function Value(): Sink
      reads this
    {
      Sink(buffer, ring, dropped, droppedSeq, top, inFlight)
    }

    ghost predicate Valid()
      reads this
    {
      && Numbered(buffer, ring, droppedSeq, inFlight, top)
      && |buffer| <= MAX_LOG_LINES && |ring| <= MAX_EGRESS_LINES
      && (dropped > 0 <==> droppedSeq > 0)
      && joined == |ring| + evicted && dropped == Min(evicted, U64_MAX)
    }

    /** `push`, first half: the number is taken before the ring is locked. */
    method TakeSeq() returns (s: nat)
      requires Valid()
      modifies this`top, this`inFlight
      ensures Valid() && s == top == old(top) + 1 && s !in old(inFlight) && inFlight == old(inFlight) + {s}
    {
      hide Numbered;
      TakenNumber(buffer, ring, droppedSeq, inFlight, top);
      top := top + 1;
      inFlight := inFlight + {top};
      s := top;
    }

    /** `push`, second half: pushes may get here in another order than they took their numbers. */
    method Insert(s: nat, server: string, stream: string, line: string, now: nat)
      requires Valid() && s in inFlight
      modifies this`buffer, this`inFlight
      ensures Valid() && inFlight == old(inFlight) - {s}
      ensures buffer == old(buffer)[if |old(buffer)| < 1000 then 0 else 1..] + [LogLine(server, stream, line, now, s)]
    {
      hide Numbered;
      var l := LogLine(server, stream, line, now, s);
      BufferedLine(buffer, ring, droppedSeq, inFlight, top, l);
      if |buffer| >= MAX_LOG_LINES {
        buffer := buffer[1..];
        BufferedLine(buffer, ring, droppedSeq, inFlight, top, l);
      }
      buffer := buffer + [l];
      inFlight := inFlight - {s};
    }

    /** The first of the recent rows that `event` repeats. */
    method FindRepeat(event: EgressEvent) returns (found: Option<nat>)
      ensures found.Some? ==> RepeatsAt(ring, event, found.value)
      ensures found.Some? ==> forall i: nat :: i < found.value ==> !RepeatsAt(ring, event, i)
      ensures found.None? ==> !Repeats(ring, event)
    {
      var start := Monus(|ring|, EGRESS_COALESCE_WINDOW);
      for k := start to |ring|
        invariant forall i: nat :: i < k ==> !RepeatsAt(ring, event, i)
      {
        if SameKey(ring[k].event, event) { return Some(k); }
      }
      return None;
    }

    method FindVictim() returns (k: nat)
      requires ring != []
      ensures IsVictim(ring, k)
    {
      for i := 0 to |ring|
        invariant forall j :: 0 <= j < i ==> ring[j].event.verdict == Allow
      {
        if ring[i].event.verdict != Allow { return i; }
      }
      return 0;
    }

    /** Remove the victim and count it; the first one also gives the marker its number. */
    method MakeRoom(racing: nat) returns (k: nat)
      requires Valid() && ring != []
      modifies this`ring, this`dropped, this`droppedSeq, this`top, this`inFlight, this`evicted
      ensures Valid() && k < |old(ring)| && IsVictim(old(ring), k) && ring == Without(old(ring), k)
      ensures |ring| == |old(ring)| - 1
      ensures droppedSeq == old(droppedSeq) || (old(droppedSeq) == 0 && old(top) < droppedSeq <= top)
      ensures MoreTaken(old(inFlight), inFlight, old(top), top)
    {
      hide Numbered, IsVictim, Without;
      k := FindVictim();
      WithoutShrinks(ring, k);
      EvictedRow(buffer, ring, droppedSeq, inFlight, top, k);
      ring := Without(ring, k);
      dropped := SatAdd(dropped, 1);
      evicted := evicted + 1;
      if droppedSeq == 0 { NumberMarker(racing); }
    }

    /** The marker's number comes after those of `racing` pushes that take theirs meanwhile. */
    method NumberMarker(racing: nat)
      requires Numbered(buffer, ring, droppedSeq, inFlight, top) && droppedSeq == 0
      modifies this`droppedSeq, this`top, this`inFlight
      ensures Numbered(buffer, ring, droppedSeq, inFlight, top) && old(top) < droppedSeq <= top
      ensures MoreTaken(old(inFlight), inFlight, old(top), top)
    {
      hide Numbered;
      for i := 0 to racing
        invariant Numbered(buffer, ring, 0, inFlight, top) && droppedSeq == 0
        invariant MoreTaken(old(inFlight), inFlight, old(top), top)
      {
        TakenNumber(buffer, ring, 0, inFlight, top);
        top := top + 1;
        inFlight := inFlight + {top};
      }
      MarkerNumber(buffer, ring, inFlight, top);
      top := top + 1;
      droppedSeq := top;
    }

    method FoldIn(k: nat, event: EgressEvent)
      requires Valid() && k < |ring|
      modifies this`ring
      ensures Valid() && ring == old(ring)[k := old(ring)[k].(event := Fold(old(ring)[k].event, event))]
    {
      hide Numbered;
      FoldedRow(buffer, ring, droppedSeq, inFlight, top, k, Fold(ring[k].event, event));
      ring := ring[k := ring[k].(event := Fold(ring[k].event, event))];
    }

    /** `push_egress`: `racing` other pushes take their numbers between this one's and the marker's. */
    method PushEgress(event: EgressEvent, racing: nat, now: nat)
      requires Valid()
      modifies this
      ensures Valid() && buffer == old(buffer)
      ensures Pushes(old(ring), ring, EgressLine(old(top) + 1, now, Counted(event)))
      ensures joined == old(joined) + (if Repeats(old(ring), Counted(event)) then 0 else 1)
      ensures MoreTaken(old(inFlight), inFlight, old(top), top)
      ensures droppedSeq == old(droppedSeq) || (old(droppedSeq) == 0 && old(top) < droppedSeq <= top)
      ensures Repeats(old(ring), Counted(event)) ==>
                top == old(top) && inFlight == old(inFlight) && droppedSeq == old(droppedSeq)
    {
      hide Numbered, RepeatsAt, IsVictim, Without;
      var e := Counted(event);
      var found := FindRepeat(e);
      if found.Some? {
        FoldIn(found.value, e);
        assert FoldsAt(old(ring), ring, e, found.value);
        return;
      }
      RingIsBelow(buffer, ring, droppedSeq, inFlight, top);
      var s := TakeSeq();
      var row := EgressLine(s, now, e);
      if |ring| >= MAX_EGRESS_LINES {
        var k := MakeRoom(racing);
        assert JoinsWithout(old(ring), ring + [row], row, k);
      }
      JoinedRow(buffer, ring, droppedSeq, inFlight, top, row);
      ring := ring + [row];
      inFlight := inFlight - {s};
      joined := joined + 1;
    }

    /** Everything a reader can see. */
    ghost function Retained(now: nat): seq<LogLine>
      reads this
    {
      buffer + EgressLines(json, ring, dropped, droppedSeq, now)
    }

    /** The most recent `limit` lines: in order, and every other line is older than all of them. */
    method GetLogs(limit: nat, now: nat) returns (r: seq<LogLine>)
      requires Valid()
      ensures Rising(r) && |r| == Min(limit, |Retained(now)|)
      ensures forall l :: l in r ==> l in Retained(now)
      ensures forall l, x :: l in Retained(now) && l !in r && x in r ==> l.seqNo < x.seqNo
    {
      hide Numbered, EgressLines;
      RetainedAreDistinct(json, buffer, ring, dropped, droppedSeq, inFlight, top, now);
      var merged := SortBySeq(buffer + EgressLines(json, ring, dropped, droppedSeq, now));
      TailIsNewest(merged, limit);
      r := Tail(merged, limit);
    }

    /** Exactly the lines numbered above `since`, in order. */
    method GetLogsSince(since: nat, now: nat) returns (r: seq<LogLine>)
      requires Valid()
      ensures Rising(r) && forall l :: l in r <==> l in Retained(now) && l.seqNo > since
    {
      hide Numbered, EgressLines;
      RetainedAreDistinct(json, buffer, ring, dropped, droppedSeq, inFlight, top, now);
      var egress := EgressLines(json, ring, dropped, droppedSeq, now);
      var newer := (l: LogLine) => l.seqNo > since;
      KeepJoin(buffer, egress, newer);
      KeepsDistinct(buffer + egress, newer);
      r := SortBySeq(Keep(buffer, newer) + Keep(egress, newer));
    }

    /** A number is taken before the ring is locked, so a poll in between can pass it by: once the
        poller's cursor is above a line's number when that line is buffered, no poll returns it. */
    method LateLine(server: string, stream: string, line: string, now: nat)
      returns (late: LogLine, got: seq<LogLine>, more: seq<LogLine>)
      requires Valid()
      modifies this
      ensures Valid() && late in buffer && late !in got && late !in more
      ensures exists l :: l in got && forall x :: x in more ==> x.seqNo > l.seqNo
    {
      hide Numbered;
      var a := TakeSeq();
      var b := TakeSeq();
      Insert(b, server, stream, line, now);
      got := GetLogsSince(0, now);
      NotYet(json, buffer, ring, dropped, droppedSeq, inFlight, top, now, a);
      assert buffer[|buffer| - 1] in Retained(now);
      Insert(a, server, stream, line, now);
      late := buffer[|buffer| - 1];
      more := GetLogsSince(b, now);
    }
  }

  lemma NotYet(json: EgressEvent -> string, buffer: seq<LogLine>, ring: Ring, dropped: nat, droppedSeq: nat,
               inFlight: set<nat>, top: nat, now: nat, s: nat)
    requires Numbered(buffer, ring, droppedSeq, inFlight, top) && s in inFlight
    ensures forall l :: l in buffer + EgressLines(json, ring, dropped, droppedSeq, now) ==> l.seqNo != s
  {}

  lemma RisesOn(got: seq<LogLine>, lines: seq<LogLine>, cursor: nat)
    requires Rising(got) && Rising(lines) && cursor == (if got == [] then 0 else got[|got| - 1].seqNo)
    requires forall l :: l in lines ==> l.seqNo > cursor
    ensures Rising(got + lines)
  {
    forall i, j | 0 <= i < |got| && 0 <= j < |lines| ensures got[i].seqNo < lines[j].seqNo {
      assert lines[j] in lines;
      assert got[i].seqNo <= cursor;
    }
  }

  /** An event that says it happened 0 times happened once. */
  function Counted(event: EgressEvent): EgressEvent {
    if event.count == 0 then event.(count := 1) else event
  }

  // ---- what a push leaves, row by row -------------------------------------------------------------

  /** `now` is `was` with `event` counted in: the counts and bytes add up, no further than a 64-bit number
      goes; a status or address given replaces the one held. */
  ghost predicate CountedIn(was: EgressEvent, event: EgressEvent, now: EgressEvent) {
    var most, n := 0xFFFF_FFFF_FFFF_FFFF, if event.count == 0 then 1 else event.count;
    && now.functionName == was.functionName && now.destHost == was.destHost && now.destPort == was.destPort
    && now.verdict == was.verdict && now.httpMethod == was.httpMethod
    && now.count == Min(was.count + n, most)
    && now.bytesOut == Min(was.bytesOut + event.bytesOut, most)
    && now.bytesIn == Min(was.bytesIn + event.bytesIn, most)
    && now.status == (if event.status == None then was.status else event.status)
    && now.destIp == (if event.destIp == None then was.destIp else event.destIp)
  }

  /** Row `k` is among the last 128, and of the same function, host, port and verdict. */
  ghost predicate Matches(ring: Ring, event: EgressEvent, k: nat) {
    && k < |ring| <= k + 128
    && ring[k].event.functionName == event.functionName && ring[k].event.destHost == event.destHost
    && ring[k].event.destPort == event.destPort && ring[k].event.verdict == event.verdict
  }

  /** Only row `k`, the first that matches, has changed. */
  ghost predicate FoldsInto(ring: Ring, ring': Ring, event: EgressEvent, k: nat) {
    && Matches(ring, event, k) && (forall i: nat :: i < k ==> !Matches(ring, event, i))
    && |ring'| == |ring| && (forall i :: 0 <= i < |ring| && i != k ==> ring'[i] == ring[i])
    && ring'[k].seqNo == ring[k].seqNo && ring'[k].timestamp == ring[k].timestamp
    && CountedIn(ring[k].event, event, ring'[k].event)
  }

  /** Row `k` makes room: the first that is not an Allow, or the first of all if there is none. */
  ghost predicate MakesRoom(ring: Ring, ring': Ring, row: EgressLine, k: nat) {
    && k < |ring| && ring' == ring[..k] + ring[k + 1..] + [row]
    && (forall i :: 0 <= i < k ==> ring[i].event.verdict == Allow)
    && (ring[k].event.verdict == Allow ==> k == 0 && forall i :: 0 <= i < |ring| ==> ring[i].event.verdict == Allow)
  }

  /** A row is added only if none matches; at 512 rows one makes room for it. */
  lemma PushExactly(ring: Ring, ring': Ring, event: EgressEvent, s: nat, now: nat)
    requires Pushes(ring, ring', EgressLine(s, now, Counted(event)))
    ensures var row := EgressLine(s, now, event.(count := if event.count == 0 then 1 else event.count));
            if exists k: nat :: Matches(ring, event, k) then exists k: nat :: FoldsInto(ring, ring', event, k)
            else if |ring| < 512 then ring' == ring + [row]
            else exists k: nat :: MakesRoom(ring, ring', row, k)
  {
    var e := Counted(event);
    assert e == event.(count := if event.count == 0 then 1 else event.count);
    forall k: nat ensures Matches(ring, event, k) <==> RepeatsAt(ring, e, k) {}
    if Repeats(ring, e) {
      var m: nat :| RepeatsAt(ring, e, m);
      assert Matches(ring, event, m);
      var k: nat :| FoldsAt(ring, ring', e, k);
      assert FoldsInto(ring, ring', event, k);
    } else if |ring| >= 512 {
      var row := EgressLine(s, now, e);
      var k: nat :| JoinsWithout(ring, ring', row, k);
      assert MakesRoom(ring, ring', row, k);
    }
  }

  ghost predicate ShownAs(json: EgressEvent -> string, row: EgressLine, l: LogLine) {
    l == LogLine(row.event.functionName, "egress", json(row.event), row.timestamp, row.seqNo)
  }

  /** What readers see of the egress ring: its rows, then, once a row made room, how many did. */
  lemma LinesExactly(json: EgressEvent -> string, ring: Ring, dropped: nat, droppedSeq: nat, now: nat)
    ensures var lines := EgressLines(json, ring, dropped, droppedSeq, now);
            var marker := EgressEvent("_egress", "(egress-events-dropped)", 0, None, Error, "", dropped, 0, 0, None);
            && |lines| == |ring| + (if dropped == 0 then 0 else 1)
            && (forall i :: 0 <= i < |ring| ==> ShownAs(json, ring[i], lines[i]))
            && (dropped > 0 ==> lines[|ring|] == LogLine("_egress", "egress", json(marker), now, droppedSeq))
  {}
}
