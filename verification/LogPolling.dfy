/** A poller that always asks from the highest number it has seen: which lines it is given, over any run. */
module LogPolling {
  import opened Common
  import opened Logs
  import opened LogSinks

  datatype Op =
    | Take
    | Insert(number: nat, server: string, stream: string, line: string, now: nat)
    | Egress(event: EgressEvent, racing: nat, now: nat)
    | Poll(now: nat)

  /** The sink, what the poller was given so far, and the numbers that came too late: those of lines
      buffered when its cursor was already there or past. */
  datatype Polled = Polled(sink: Sink, got: seq<LogLine>, late: set<nat>)

  function Cursor(got: seq<LogLine>): nat {
    if got == [] then 0 else got[|got| - 1].seqNo
  }

  ghost predicate Given(got: seq<LogLine>, n: nat) {
    exists i :: 0 <= i < |got| && got[i].seqNo == n
  }

  ghost predicate InBuffer(s: Sink, n: nat) {
    exists i :: 0 <= i < |s.buffer| && s.buffer[i].seqNo == n
  }

  ghost predicate InRing(s: Sink, n: nat) {
    exists i :: 0 <= i < |s.ring| && s.ring[i].seqNo == n
  }

  predicate IsMarker(s: Sink, n: nat) {
    s.dropped > 0 && n == s.droppedSeq
  }

  /** A reader can see a line with this number. */
  ghost predicate Retains(s: Sink, n: nat) {
    InBuffer(s, n) || InRing(s, n) || IsMarker(s, n)
  }

  ghost predicate SinkOk(s: Sink) {
    Numbered(s.buffer, s.ring, s.droppedSeq, s.inFlight, s.top) && (s.dropped > 0 <==> s.droppedSeq > 0)
  }

  function Lines(json: EgressEvent -> string, s: Sink, now: nat): seq<LogLine> {
    s.buffer + EgressLines(json, s.ring, s.dropped, s.droppedSeq, now)
  }

  // ---- steps -----------------------------------------------------------------------

  ghost predicate PushedEgress(a: Sink, b: Sink, row: EgressLine) {
    && b.buffer == a.buffer && Pushes(a.ring, b.ring, row) && row.seqNo == a.top + 1
    && MoreTaken(a.inFlight, b.inFlight, a.top, b.top)
    && (b.droppedSeq == a.droppedSeq || (a.droppedSeq == 0 && a.top < b.droppedSeq))
  }

  /** Exactly the lines above the cursor, in order, after those given before. */
  ghost predicate PolledMore(json: EgressEvent -> string, s: Sink, got: seq<LogLine>, got': seq<LogLine>, now: nat) {
    && got <= got' && Rising(got'[|got|..])
    && forall l :: l in got'[|got|..] <==> l in Lines(json, s, now) && l.seqNo > Cursor(got)
  }

  ghost predicate Stepped(json: EgressEvent -> string, a: Polled, b: Polled, op: Op) {
    && SinkOk(b.sink)
    && match op
       case Take =>
         b == a.(sink := a.sink.(top := a.sink.top + 1, inFlight := a.sink.inFlight + {a.sink.top + 1}))
       case Insert(n, server, stream, line, now) =>
         if n !in a.sink.inFlight then b == a else
           && b.sink == a.sink.(buffer := Tail(a.sink.buffer, MAX_LOG_LINES - 1) +
                [LogLine(server, stream, line, now, n)],
                                inFlight := a.sink.inFlight - {n})
           && b.got == a.got && b.late == if n <= Cursor(a.got) then a.late + {n} else a.late
       case Egress(event, _, now) =>
         PushedEgress(a.sink, b.sink, EgressLine(a.sink.top + 1, now, Counted(event))) && b.got == a.got &&
           b.late == a.late
       case Poll(now) =>
         b.sink == a.sink && b.late == a.late && PolledMore(json, a.sink, a.got, b.got, now)
  }

  ghost predicate Ran(json: EgressEvent -> string, trace: seq<Polled>, ops: seq<Op>) {
    |trace| == |ops| + 1 && forall i :: 0 <= i < |ops| ==> Stepped(json, trace[i], trace[i + 1], ops[i])
  }

  // ---- what every step keeps ---------------------------------------------------------

  /** Of the retained numbers up to the cursor, exactly the late ones were not given; and none of an
      egress row or of the marker is late. */
  ghost predicate PollerOk(p: Polled) {
    && SinkOk(p.sink) && Rising(p.got) && Cursor(p.got) <= p.sink.top
    && (forall n: nat :: Retains(p.sink, n) && n <= Cursor(p.got) ==> (Given(p.got, n) <==> n !in p.late))
    && (forall n: nat :: n in p.late ==> n <= Cursor(p.got) && !Given(p.got, n))
    && (forall n: nat :: n in p.sink.inFlight ==> n !in p.late && !Given(p.got, n))
    && (forall n: nat :: InRing(p.sink, n) || IsMarker(p.sink, n) ==> n !in p.late)
  }

  lemma GivenUpTo(got: seq<LogLine>, n: nat)
    requires Rising(got) && Given(got, n)
    ensures n <= Cursor(got)
  {}

  lemma RetainedNumbers(s: Sink, n: nat)
    requires SinkOk(s) && Retains(s, n)
    ensures 0 < n <= s.top && n !in s.inFlight
  {}

  lemma TakeKeeps(p: Polled, q: Polled)
    requires PollerOk(p) && SinkOk(q.sink)
    requires q == p.(sink := p.sink.(top := p.sink.top + 1, inFlight := p.sink.inFlight + {p.sink.top + 1}))
    ensures PollerOk(q)
  {
    forall n: nat | Retains(q.sink, n) ensures Retains(p.sink, n) {}
    forall n: nat | n in q.sink.inFlight ensures n !in q.late && !Given(q.got, n) {
      if Given(q.got, n) { GivenUpTo(q.got, n); }
    }
  }

  lemma InsertKeeps(p: Polled, q: Polled, l: LogLine)
    requires PollerOk(p) && SinkOk(q.sink) && l.seqNo in p.sink.inFlight
    requires q.sink == p.sink.(buffer := Tail(p.sink.buffer, MAX_LOG_LINES - 1) + [l],
                               inFlight := p.sink.inFlight - {l.seqNo})
    requires q.got == p.got && q.late == if l.seqNo <= Cursor(p.got) then p.late + {l.seqNo} else p.late
    ensures PollerOk(q)
  {
    hide Numbered;
    var n0 := l.seqNo;
    forall n: nat | Retains(q.sink, n) ensures Retains(p.sink, n) || n == n0 {
      if InBuffer(q.sink, n) && n != n0 {
        var i :| 0 <= i < |q.sink.buffer| && q.sink.buffer[i].seqNo == n;
        assert q.sink.buffer[i] in p.sink.buffer;
      }
    }
    forall n: nat | InRing(q.sink, n) || IsMarker(q.sink, n) ensures n !in q.late {
      assert InRing(p.sink, n) || IsMarker(p.sink, n);
      RetainedNumbers(p.sink, n);
    }
    forall n: nat | Retains(q.sink, n) && n <= Cursor(q.got) ensures Given(q.got, n) <==> n !in q.late {
      if n != n0 { assert Retains(p.sink, n); }
    }
  }

  /** A push keeps the ring's numbers, or adds the one just taken. */
  lemma RingNumbers(ring: Ring, ring': Ring, row: EgressLine, i: nat)
    requires Pushes(ring, ring', row) && i < |ring'|
    ensures ring'[i].seqNo == row.seqNo || exists j :: 0 <= j < |ring| && ring[j].seqNo == ring'[i].seqNo
  {
    if Repeats(ring, row.event) {
      var k: nat :| FoldsAt(ring, ring', row.event, k);
      assert ring'[i].seqNo == ring[i].seqNo;
    } else if |ring| < MAX_EGRESS_LINES {
      if i < |ring| { assert ring'[i] == ring[i]; }
    } else {
      var k: nat :| JoinsWithout(ring, ring', row, k);
      if i < |ring| - 1 { assert ring'[i] == ring[if i < k then i else i + 1]; }
    }
  }

  lemma EgressKeeps(p: Polled, q: Polled, row: EgressLine)
    requires PollerOk(p) && SinkOk(q.sink) && PushedEgress(p.sink, q.sink, row) && q.got == p.got && q.late == p.late
    ensures PollerOk(q)
  {
    hide Numbered, Pushes;
    var cursor := Cursor(p.got);
    forall n: nat | InRing(q.sink, n) ensures InRing(p.sink, n) || n > cursor {
      var i :| 0 <= i < |q.sink.ring| && q.sink.ring[i].seqNo == n;
      RingNumbers(p.sink.ring, q.sink.ring, row, i);
    }
    forall n: nat | IsMarker(q.sink, n) ensures IsMarker(p.sink, n) || n > cursor {}
    forall n: nat | n in q.sink.inFlight ensures n !in q.late && !Given(q.got, n) {
      if n !in p.sink.inFlight && Given(q.got, n) { GivenUpTo(q.got, n); }
    }
  }

  /** The numbers of the lines a reader sees are the retained ones. */
  lemma SeenNumbers(json: EgressEvent -> string, s: Sink, now: nat)
    ensures forall l :: l in Lines(json, s, now) ==> Retains(s, l.seqNo)
    ensures forall n: nat :: Retains(s, n) ==> exists l :: l in Lines(json, s, now) && l.seqNo == n
  {
    var all := Lines(json, s, now);
    var b, r := |s.buffer|, |s.ring|;
    forall l | l in all ensures Retains(s, l.seqNo) {
      var i :| 0 <= i < |all| && all[i] == l;
      if i < b {
        assert s.buffer[i] == l;
      } else if i < b + r {
        assert all[i] == RowLine(json, s.ring[i - b]);
      } else {
        assert all[i] == MarkerLine(json, s.dropped, s.droppedSeq, now);
      }
    }
    forall n: nat | Retains(s, n) ensures exists l :: l in all && l.seqNo == n {
      if InBuffer(s, n) {
        var i :| 0 <= i < b && s.buffer[i].seqNo == n;
        assert all[i] in all;
      } else if InRing(s, n) {
        var i :| 0 <= i < r && s.ring[i].seqNo == n;
        assert all[b + i] == RowLine(json, s.ring[i]) && all[b + i] in all;
      } else {
        assert all[b + r] == MarkerLine(json, s.dropped, s.droppedSeq, now) && all[b + r] in all;
      }
    }
  }

  lemma GivenMore(got: seq<LogLine>, lines: seq<LogLine>, n: nat)
    ensures Given(got + lines, n) <==> Given(got, n) || Given(lines, n)
  {
    var all := got + lines;
    if Given(got, n) {
      var i :| 0 <= i < |got| && got[i].seqNo == n;
      assert all[i].seqNo == n;
    }
    if Given(lines, n) {
      var i :| 0 <= i < |lines| && lines[i].seqNo == n;
      assert all[|got| + i].seqNo == n;
    }
    if Given(all, n) {
      var i :| 0 <= i < |all| && all[i].seqNo == n;
      if i >= |got| { assert lines[i - |got|].seqNo == n; }
    }
  }

  /** A poll gives exactly the retained numbers above the cursor, and moves the cursor past all of them. */
  lemma PollNumbers(json: EgressEvent -> string, s: Sink, got: seq<LogLine>, got': seq<LogLine>, now: nat)
    requires SinkOk(s) && Rising(got) && PolledMore(json, s, got, got', now)
    ensures Rising(got') && Cursor(got) <= Cursor(got')
    ensures forall n: nat :: Given(got', n) <==> Given(got, n) || (Retains(s, n) && n > Cursor(got))
    ensures forall n: nat :: Retains(s, n) ==> n <= Cursor(got')
  {
    hide Numbered, Lines, Retains, Given;
    var lines := got'[|got|..];
    assert got' == got + lines;
    LinesGiven(json, s, got, lines, now);
    RisesOn(got, lines, Cursor(got));
    forall n: nat ensures Given(got', n) <==> Given(got, n) || Given(lines, n) { GivenMore(got, lines, n); }
    forall n: nat | Retains(s, n) ensures n <= Cursor(got') {
      if n > Cursor(got) { GivenUpTo(got', n); }
    }
    if lines != [] { assert got'[|got'| - 1] == lines[|lines| - 1] && lines[|lines| - 1] in lines; }
  }

  lemma LinesGiven(json: EgressEvent -> string, s: Sink, got: seq<LogLine>, lines: seq<LogLine>, now: nat)
    requires forall l :: l in lines <==> l in Lines(json, s, now) && l.seqNo > Cursor(got)
    ensures forall n: nat :: Given(lines, n) <==> Retains(s, n) && n > Cursor(got)
  {
    hide Lines, Retains;
    SeenNumbers(json, s, now);
    forall n: nat ensures Given(lines, n) <==> Retains(s, n) && n > Cursor(got) {
      if Given(lines, n) {
        var i :| 0 <= i < |lines| && lines[i].seqNo == n;
        assert lines[i] in lines;
      }
      if Retains(s, n) && n > Cursor(got) {
        var l :| l in Lines(json, s, now) && l.seqNo == n;
        assert l in lines;
      }
    }
  }

  lemma PollKeeps(json: EgressEvent -> string, p: Polled, q: Polled, now: nat)
    requires PollerOk(p) && q.sink == p.sink && q.late == p.late && PolledMore(json, p.sink, p.got, q.got, now)
    ensures PollerOk(q) && forall n: nat :: Retains(q.sink, n) ==> n <= Cursor(q.got)
  {
    hide Numbered, PolledMore;
    PollNumbers(json, p.sink, p.got, q.got, now);
    forall n: nat | Retains(p.sink, n) ensures n <= p.sink.top && n !in p.sink.inFlight { RetainedNumbers(p.sink, n); }
    if q.got != [] {
      assert Given(q.got, Cursor(q.got));
    }
  }

  lemma StepKeeps(json: EgressEvent -> string, p: Polled, q: Polled, op: Op)
    requires PollerOk(p) && Stepped(json, p, q, op)
    ensures PollerOk(q) && p.late <= q.late && p.got <= q.got
    ensures op.Poll? ==> forall n: nat :: Retains(q.sink, n) ==> n <= Cursor(q.got)
  {
    hide PollerOk, SinkOk, PushedEgress, PolledMore;
    match op
    case Take => TakeKeeps(p, q);
    case Insert(n, server, stream, line, now) =>
      if n in p.sink.inFlight { InsertKeeps(p, q, LogLine(server, stream, line, now, n)); }
    case Egress(event, _, now) => EgressKeeps(p, q, EgressLine(p.sink.top + 1, now, Counted(event)));
    case Poll(now) =>
      PollKeeps(json, p, q, now);
      PolledPrefix(json, p, q, now);
  }

  lemma PolledPrefix(json: EgressEvent -> string, p: Polled, q: Polled, now: nat)
    requires PolledMore(json, p.sink, p.got, q.got, now)
    ensures p.got <= q.got
  {}

  // ---- over every run ------------------------------------------------------------------

  /** Step `i` buffered line `n` when the cursor was already at or past it. */
  ghost predicate LateAt(trace: seq<Polled>, ops: seq<Op>, i: nat, n: nat)
    requires |trace| == |ops| + 1
  {
    && i < |ops| && ops[i].Insert? && ops[i].number == n
    && n in trace[i].sink.inFlight && n <= Cursor(trace[i].got)
  }

  ghost predicate Late(trace: seq<Polled>, ops: seq<Op>, k: nat, n: nat)
    requires |trace| == |ops| + 1
  {
    exists i: nat :: i < k && LateAt(trace, ops, i, n)
  }

  ghost predicate LateIs(trace: seq<Polled>, ops: seq<Op>, k: nat)
    requires |trace| == |ops| + 1 && k <= |ops|
  {
    forall n: nat :: n in trace[k].late <==> Late(trace, ops, k, n)
  }

  lemma {:induction false} EveryStep(json: EgressEvent -> string, trace: seq<Polled>, ops: seq<Op>, k: nat)
    requires Ran(json, trace, ops) && PollerOk(trace[0]) && trace[0].late == {} && k <= |ops|
    ensures PollerOk(trace[k]) && trace[0].got <= trace[k].got
    ensures LateIs(trace, ops, k)
  {
    hide PollerOk;
    if k > 0 {
      EveryStep(json, trace, ops, k - 1);
      var p, q, op := trace[k - 1], trace[k], ops[k - 1];
      assert Stepped(json, p, q, op);
      StepKeeps(json, p, q, op);
      LateGrows(json, trace, ops, k);
    }
  }

  lemma LateGrows(json: EgressEvent -> string, trace: seq<Polled>, ops: seq<Op>, k: nat)
    requires 0 < k <= |ops| && |trace| == |ops| + 1 && Stepped(json, trace[k - 1], trace[k], ops[k - 1])
    requires LateIs(trace, ops, k - 1)
    ensures LateIs(trace, ops, k)
  {
    hide SinkOk, PushedEgress, PolledMore;
    var p, q, op, last := trace[k - 1], trace[k], ops[k - 1], k - 1;
    forall n: nat ensures n in q.late <==> n in p.late || LateAt(trace, ops, last, n) {}
    forall n: nat ensures Late(trace, ops, k, n) <==> Late(trace, ops, last, n) || LateAt(trace, ops, last, n) {
      if Late(trace, ops, k, n) {
        var i: nat :| i < k && LateAt(trace, ops, i, n);
      }
    }
  }

  /** After any poll of any run, a retained number is missing from what the poller was given if and only if its
      line was buffered when the cursor was already at or past it. Such a number stays missing: it is
      missing after any later step too. It is never one of an egress row or of the marker. */
  lemma WhatAPollerMisses(json: EgressEvent -> string, trace: seq<Polled>, ops: seq<Op>, k: nat, n: nat)
    requires Ran(json, trace, ops) && PollerOk(trace[0]) && trace[0].late == {}
    requires 0 < k <= |ops| && ops[k - 1].Poll?
    ensures Rising(trace[k].got)
    ensures Retains(trace[k].sink, n) ==> (!Given(trace[k].got, n) <==> Late(trace, ops, k, n))
    ensures Late(trace, ops, k, n) ==> forall j :: k <= j <= |ops| ==> !Given(trace[j].got, n)
    ensures Late(trace, ops, k, n) ==> !InRing(trace[k].sink, n) && !IsMarker(trace[k].sink, n)
  {
    EveryStep(json, trace, ops, k - 1);
    EveryStep(json, trace, ops, k);
    assert Stepped(json, trace[k - 1], trace[k], ops[k - 1]);
    StepKeeps(json, trace[k - 1], trace[k], ops[k - 1]);
    if Late(trace, ops, k, n) {
      forall j | k <= j <= |ops| ensures !Given(trace[j].got, n) {
        EveryStep(json, trace, ops, j);
        var i: nat :| i < k && LateAt(trace, ops, i, n);
        assert Late(trace, ops, j, n);
      }
    }
  }

  // ---- the sink serving a poller ---------------------------------------------------------

  /** Any run of pushes and polls on a sink: `trace` is what happened, step by step, and `got` what the polls
      returned, each number at most once and in order. */
  method Serve(sink: LogSink, ops: seq<Op>) returns (got: seq<LogLine>, ghost trace: seq<Polled>)
    requires sink.Valid()
    modifies sink
    ensures sink.Valid() && Ran(sink.json, trace, ops) && Rising(got)
    ensures trace[0] == Polled(old(sink.Value()), [], {}) && PollerOk(trace[0])
    ensures trace[|ops|].sink == sink.Value() && trace[|ops|].got == got
    ensures forall k: nat, n: nat :: 0 < k <= |ops| && ops[k - 1].Poll? && Retains(trace[k].sink, n) ==>
              (!Given(trace[k].got, n) <==> Late(trace, ops, k, n))
  {
    hide Numbered, Pushes, Stepped, PollerOk, Retains, Given, Late;
    got := [];
    ghost var late: set<nat> := {};
    trace := [Polled(sink.Value(), [], {})];
    PollerStarts(sink.Value());
    for i := 0 to |ops|
      invariant sink.Valid() && |trace| == i + 1 && trace[0] == Polled(old(sink.Value()), [], {})
      invariant trace[i] == Polled(sink.Value(), got, late) && PollerOk(trace[i])
      invariant forall k :: 0 <= k < i ==> Stepped(sink.json, trace[k], trace[k + 1], ops[k])
    {
      ghost var before := trace[i];
      got, late := One(sink, ops[i], got, late);
      ghost var after := Polled(sink.Value(), got, late);
      StepKeeps(sink.json, before, after, ops[i]);
      trace := trace + [after];
    }
    GivenRises(trace[|ops|]);
    forall k: nat, n: nat | 0 < k <= |ops| && ops[k - 1].Poll? && Retains(trace[k].sink, n)
      ensures !Given(trace[k].got, n) <==> Late(trace, ops, k, n)
    {
      WhatAPollerMisses(sink.json, trace, ops, k, n);
    }
  }

  method One(sink: LogSink, op: Op, got0: seq<LogLine>, ghost late0: set<nat>)
    returns (got: seq<LogLine>, ghost late: set<nat>)
    requires sink.Valid()
    modifies sink
    ensures sink.Valid()
    ensures Stepped(sink.json, Polled(old(sink.Value()), got0, late0), Polled(sink.Value(), got, late), op)
  {
    hide Numbered, Pushes, MoreTaken, EgressLines;
    got, late := got0, late0;
    match op {
      case Take => var _ := sink.TakeSeq();
      case Insert(n, server, stream, line, now) =>
        if n in sink.inFlight {
          sink.Insert(n, server, stream, line, now);
          if n <= Cursor(got) { late := late + {n}; }
        }
      case Egress(event, racing, now) => sink.PushEgress(event, racing, now);
      case Poll(now) =>
        var lines := sink.GetLogsSince(Cursor(got), now);
        got := got + lines;
        assert got[|got0|..] == lines;
    }
  }

  lemma PollerStarts(s: Sink)
    requires SinkOk(s)
    ensures PollerOk(Polled(s, [], {}))
  {
    forall n: nat | Retains(s, n) ensures n > 0 { RetainedNumbers(s, n); }
  }

  lemma GivenRises(p: Polled)
    requires PollerOk(p)
    ensures Rising(p.got)
  {}
}
