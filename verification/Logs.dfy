/** Log lines, addressed by a sequence number, and their order. */
module Logs {
  import opened Common

  const EGRESS_STREAM: string := "egress"

  datatype LogLine = LogLine(server: string, stream: string, line: string, timestamp: nat, seqNo: nat)

  ghost predicate DistinctSeqs(lines: seq<LogLine>) {
    forall i, j :: 0 <= i < j < |lines| ==> lines[i].seqNo != lines[j].seqNo
  }

  ghost predicate Rising(lines: seq<LogLine>) {
    forall i, j :: 0 <= i < j < |lines| ==> lines[i].seqNo < lines[j].seqNo
  }

  ghost predicate NonFalling(lines: seq<LogLine>) {
    forall i, j :: 0 <= i < j < |lines| ==> lines[i].seqNo <= lines[j].seqNo
  }

  ghost predicate SameLines(a: seq<LogLine>, b: seq<LogLine>) {
    |a| == |b| && forall l :: l in a <==> l in b
  }

  /** Where `l` goes among lines in order: after those with the same number. */
  method Position(sorted: seq<LogLine>, l: LogLine) returns (k: nat)
    ensures k <= |sorted|
    ensures k > 0 ==> sorted[k - 1].seqNo <= l.seqNo
    ensures k < |sorted| && NonFalling(sorted) ==> l.seqNo < sorted[k].seqNo
  {
    k := |sorted|;
    while k > 0 && l.seqNo < sorted[k - 1].seqNo
      invariant k <= |sorted|
      invariant k < |sorted| ==> l.seqNo < sorted[k].seqNo
    {
      k := k - 1;
    }
  }

  function InsertAt(sorted: seq<LogLine>, l: LogLine, k: nat): (out: seq<LogLine>)
    requires k <= |sorted|
    ensures |out| == |sorted| + 1
    ensures forall i :: 0 <= i < |out| ==> out[i] == if i < k then sorted[i] else if i == k then l else sorted[i - 1]
  {
    sorted[..k] + [l] + sorted[k..]
  }

  lemma InsertedLines(sorted: seq<LogLine>, l: LogLine, k: nat)
    requires k <= |sorted|
    ensures forall x :: x in InsertAt(sorted, l, k) <==> x in sorted || x == l
  {
    assert sorted == sorted[..k] + sorted[k..];
  }

  lemma InsertedInOrder(sorted: seq<LogLine>, l: LogLine, k: nat)
    requires NonFalling(sorted) && k <= |sorted|
    requires (k > 0 ==> sorted[k - 1].seqNo <= l.seqNo) && (k < |sorted| ==> l.seqNo < sorted[k].seqNo)
    ensures NonFalling(InsertAt(sorted, l, k))
    ensures Rising(sorted) && (forall x :: x in sorted ==> x.seqNo != l.seqNo) ==> Rising(InsertAt(sorted, l, k))
  {
    var out := InsertAt(sorted, l, k);
    assert forall i :: 0 <= i < k ==> sorted[i].seqNo <= l.seqNo;
    assert forall i :: k <= i < |sorted| ==> l.seqNo < sorted[i].seqNo;
    var strict := Rising(sorted) && forall x :: x in sorted ==> x.seqNo != l.seqNo;
    forall i, j | 0 <= i < j < |out| ensures out[i].seqNo <= out[j].seqNo && (strict ==> out[i].seqNo < out[j].seqNo) {
      if i < k { assert sorted[i] in sorted; }
      if j < k || k < i {
        var (a, b) := (if i < k then i else i - 1, if j < k then j else j - 1);
        assert out[i] == sorted[a] && out[j] == sorted[b] && a < b;
      }
    }
  }

  /** `sort_by_key(|l| l.seq)`. */
  method SortBySeq(lines: seq<LogLine>) returns (out: seq<LogLine>)
    ensures SameLines(out, lines) && NonFalling(out)
    ensures DistinctSeqs(lines) ==> Rising(out)
  {
    out := [];
    for i := 0 to |lines|
      invariant SameLines(out, lines[..i]) && NonFalling(out)
      invariant DistinctSeqs(lines) ==> Rising(out)
    {
      hide InsertAt;
      assert lines[..i + 1] == lines[..i] + [lines[i]];
      var k := Position(out, lines[i]);
      InsertedLines(out, lines[i], k);
      InsertedInOrder(out, lines[i], k);
      out := InsertAt(out, lines[i], k);
    }
    assert lines[..|lines|] == lines;
  }

  /** `filter` and `retain`. */
  function Keep(lines: seq<LogLine>, p: LogLine -> bool): (r: seq<LogLine>)
    ensures forall l :: l in r <==> l in lines && p(l)
  {
    if lines == [] then [] else
      var r := Keep(lines[..|lines| - 1], p);
      var l := lines[|lines| - 1];
      assert lines == lines[..|lines| - 1] + [l];
      if p(l) then r + [l] else r
  }

  lemma {:induction false} KeepsDistinct(lines: seq<LogLine>, p: LogLine -> bool)
    requires DistinctSeqs(lines)
    ensures DistinctSeqs(Keep(lines, p))
    decreases |lines|
  {
    if lines != [] {
      var rest := lines[..|lines| - 1];
      KeepsDistinct(rest, p);
      forall x | x in Keep(rest, p) ensures x.seqNo != lines[|lines| - 1].seqNo {
        var i :| 0 <= i < |rest| && rest[i] == x;
      }
    }
  }

  lemma {:induction false} KeepsRising(lines: seq<LogLine>, p: LogLine -> bool)
    requires Rising(lines)
    ensures Rising(Keep(lines, p))
    decreases |lines|
  {
    if lines != [] {
      var rest := lines[..|lines| - 1];
      KeepsRising(rest, p);
      forall x | x in Keep(rest, p) ensures x.seqNo < lines[|lines| - 1].seqNo {
        var i :| 0 <= i < |rest| && rest[i] == x;
      }
    }
  }

  lemma {:induction false} KeepJoin(a: seq<LogLine>, b: seq<LogLine>, p: LogLine -> bool)
    ensures Keep(a + b, p) == Keep(a, p) + Keep(b, p)
    decreases |b|
  {
    if b == [] {
      assert a + b == a;
    } else {
      assert (a + b)[..|a + b| - 1] == a + b[..|b| - 1];
      KeepJoin(a, b[..|b| - 1], p);
    }
  }

  /** The last `limit` lines. */
  function Tail(lines: seq<LogLine>, limit: nat): seq<LogLine> {
    lines[Monus(|lines|, limit)..]
  }

  lemma TailIsNewest(sorted: seq<LogLine>, limit: nat)
    requires Rising(sorted)
    ensures Rising(Tail(sorted, limit)) && |Tail(sorted, limit)| == Min(limit, |sorted|)
    ensures forall l :: l in Tail(sorted, limit) ==> l in sorted
    ensures forall l, x :: l in sorted && l !in Tail(sorted, limit) && x in Tail(sorted, limit) ==> l.seqNo < x.seqNo
  {
    var n := Monus(|sorted|, limit);
    forall l | l in sorted && l !in Tail(sorted, limit) ensures l in sorted[..n] {
      assert sorted == sorted[..n] + sorted[n..];
    }
  }
}
