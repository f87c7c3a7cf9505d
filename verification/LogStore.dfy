/** The host's log store for one project: numbered lines appended to two file sets that rotate
    independently. `fuel` is how many more file operations this process lives to perform. */
module LogStores {
  import opened Common
  import opened Logs
  import opened LogFiles
  import opened LogDisk

  // ---- numbering --------------------------------------------------------------

  /** The lines with the numbers after `top`, in arrival order. */
  function Stored(lines: seq<LogLine>, top: nat): (r: seq<LogLine>)
    ensures |r| == |lines| && forall i :: 0 <= i < |r| ==> r[i] == lines[i].(seqNo := top + 1 + i)
  {
    seq(|lines|, i requires 0 <= i < |lines| => lines[i].(seqNo := top + 1 + i))
  }

  predicate IsEgress(l: LogLine) {
    l.stream == EGRESS_STREAM
  }

  predicate IsApp(l: LogLine) {
    l.stream != EGRESS_STREAM
  }

  ghost predicate Above(lines: seq<LogLine>, top: nat) {
    forall i :: 0 <= i < |lines| ==> lines[i].seqNo > top
  }

  /** Lines of both streams, each in rising order, no number in both. */
  ghost predicate LogsOk(app: seq<LogLine>, egress: seq<LogLine>) {
    && Rising(app) && Rising(egress) && Above(app, 0) && Above(egress, 0)
    && forall i, j :: 0 <= i < |app| && 0 <= j < |egress| ==> app[i].seqNo != egress[j].seqNo
  }

  ghost function Top(app: seq<LogLine>, egress: seq<LogLine>): nat {
    Max(TopSeq(app), TopSeq(egress))
  }

  lemma StoredRises(lines: seq<LogLine>, top: nat)
    ensures Rising(Stored(lines, top)) && Above(Stored(lines, top), top)
  {}

  lemma PartRises(lines: seq<LogLine>, top: nat, p: LogLine -> bool)
    ensures var part := Keep(Stored(lines, top), p); Rising(part) && Above(part, top)
  {
    StoredRises(lines, top);
    KeepsRising(Stored(lines, top), p);
    var part := Keep(Stored(lines, top), p);
    forall i | 0 <= i < |part| ensures part[i].seqNo > top { assert part[i] in part; }
  }

  lemma PartsApart(lines: seq<LogLine>, top: nat)
    ensures var app, egress := Keep(Stored(lines, top), IsApp), Keep(Stored(lines, top), IsEgress);
            forall i, j :: 0 <= i < |app| && 0 <= j < |egress| ==> app[i].seqNo != egress[j].seqNo
  {
    var stored := Stored(lines, top);
    var app, egress := Keep(stored, IsApp), Keep(stored, IsEgress);
    forall i, j | 0 <= i < |app| && 0 <= j < |egress| ensures app[i].seqNo != egress[j].seqNo {
      assert app[i] in app && egress[j] in egress;
      var a :| 0 <= a < |stored| && stored[a] == app[i];
      var b :| 0 <= b < |stored| && stored[b] == egress[j];
    }
  }

  /** Nothing written is numbered above the top. */
  lemma BelowTop(app: seq<LogLine>, egress: seq<LogLine>)
    requires LogsOk(app, egress)
    ensures forall i :: 0 <= i < |app| ==> app[i].seqNo <= Top(app, egress)
    ensures forall i :: 0 <= i < |egress| ==> egress[i].seqNo <= Top(app, egress)
  {}

  lemma AppWritten(app: seq<LogLine>, egress: seq<LogLine>, more: seq<LogLine>, top: nat)
    requires LogsOk(app, egress) && Top(app, egress) == top && Rising(more) && Above(more, top)
    ensures LogsOk(app + more, egress)
  {
    BelowTop(app, egress);
  }

  lemma EgressWritten(app: seq<LogLine>, egress: seq<LogLine>, appMore: seq<LogLine>, more: seq<LogLine>, top: nat)
    requires LogsOk(app + appMore, egress) && LogsOk(app, egress) && Top(app, egress) == top && Rising(more)
    requires Above(more, top)
    requires forall i, j :: 0 <= i < |appMore| && 0 <= j < |more| ==> appMore[i].seqNo != more[j].seqNo
    ensures LogsOk(app + appMore, egress + more)
  {
    BelowTop(app, egress);
  }

  /** The last line of a batch ends one of the two streams. */
  lemma TopAfter(app: seq<LogLine>, egress: seq<LogLine>, lines: seq<LogLine>, top: nat)
    requires LogsOk(app, egress) && Top(app, egress) == top
    ensures var stored := Stored(lines, top);
            Top(app + Keep(stored, IsApp), egress + Keep(stored, IsEgress)) == top + |lines|
  {
    hide Keep, Stored, Rising, Above;
    var stored := Stored(lines, top);
    StoredTop(lines, top);
    LastKept(stored, IsApp, top + |lines|);
    LastKept(stored, IsEgress, top + |lines|);
    var a, e := Keep(stored, IsApp), Keep(stored, IsEgress);
    if lines == [] { assert app + a == app && egress + e == egress; }
  }

  lemma StoredTop(lines: seq<LogLine>, top: nat)
    ensures var stored := Stored(lines, top);
            && |stored| == |lines| && (forall l :: l in stored ==> top < l.seqNo <= top + |lines|)
            && (lines != [] ==> stored[|stored| - 1].seqNo == top + |lines|)
  {}

  /** The lines kept end with the last line if that one is kept, and none is numbered above it. */
  lemma LastKept(lines: seq<LogLine>, p: LogLine -> bool, top: nat)
    requires forall l :: l in lines ==> l.seqNo <= top
    ensures lines == [] ==> Keep(lines, p) == []
    ensures lines != [] && p(lines[|lines| - 1]) ==>
              Keep(lines, p) != [] && TopSeq(Keep(lines, p)) == lines[|lines| - 1].seqNo
    ensures Keep(lines, p) != [] ==> TopSeq(Keep(lines, p)) <= top && Keep(lines, p)[|Keep(lines, p)| - 1] in lines
  {
    var r := Keep(lines, p);
    if r != [] { assert r[|r| - 1] in r; }
  }

  // ---- rotation ---------------------------------------------------------------

  /** A rotation under way: what is on disk is still the end of the log, and file `free` is free. */
  ghost predicate Rotating(files: Files, n: nat, log: seq<LogLine>, free: nat) {
    SetOk(files, n, log) && 0 in files && free !in files && 1 <= free <= n
  }

  lemma RotationStarts(files: Files, n: nat, log: seq<LogLine>)
    requires SetOk(files, n, log) && 0 in files && n >= 1
    ensures Rotating(files - {n}, n, log, n)
  {
    FlatWithoutOldest(files, n);
    SuffixTrans(Flat(files - {n}, n), Flat(files, n), log);
  }

  lemma RotationShifts(files: Files, n: nat, log: seq<LogLine>, i: nat)
    requires Rotating(files, n, log, i + 1) && i >= 1
    ensures i in files ==> Rotating(Renamed(files, i), n, log, i)
    ensures i !in files ==> Rotating(files, n, log, i)
  {
    if i in files { FlatRenamed(files, i, n); }
  }

  lemma RotationEnds(files: Files, n: nat, log: seq<LogLine>)
    requires Rotating(files, n, log, 1)
    ensures SetOk(Renamed(files, 0), n, log) && 0 !in Renamed(files, 0) && 1 in Renamed(files, 0)
  {
    FlatRenamed(files, 0, n);
  }

  function At(files: Files, k: int): Option<seq<LogLine>> {
    if k >= 0 && k in files then Some(files[k]) else None
  }

  function Nexts(files: Files): set<nat> {
    set k | k in files :: k + 1
  }

  /** Every file moved up one number; the last one is dropped. */
  function Shifted(files: Files, n: nat): Files {
    map i | i in Nexts(files) && i <= n :: files[i - 1]
  }

  /** Where file `k` came from when the files above `i` have been moved (-1: nowhere). */
  function Origin(i: nat, n: nat, k: nat): int {
    if k <= i then k else if i + 1 < k <= n then k - 1 else -1
  }

  ghost predicate Partly(files0: Files, files: Files, n: nat, i: nat) {
    forall k: nat {:trigger Origin(i, n, k)} {:trigger At(files, k)} :: At(files, k) == At(files0, Origin(i, n, k))
  }

  lemma PartlyStarts(files: Files, n: nat, log: seq<LogLine>)
    requires SetOk(files, n, log) && n >= 1
    ensures Partly(files, files - {n}, n, n - 1)
  {}

  lemma RenamedAt(files: Files, i: nat, k: nat)
    requires i in files
    ensures At(Renamed(files, i), k) == if k == i then None else if k == i + 1 then At(files, i) else At(files, k)
  {}

  lemma ShiftedAt(files: Files, n: nat, k: nat)
    ensures At(Shifted(files, n), k) == if 1 <= k <= n then At(files, k - 1) else None
  {
    assert k in Nexts(files) <==> At(files, k - 1).Some?;
  }

  lemma SameFiles(f: Files, g: Files)
    requires forall k: nat {:trigger At(f, k)} :: At(f, k) == At(g, k)
    ensures f == g
  {
    forall k: nat ensures (k in f <==> k in g) && (k in f ==> f[k] == g[k]) { assert At(f, k) == At(g, k); }
  }

  lemma PartlyMoves(files0: Files, files: Files, n: nat, i: nat)
    requires Partly(files0, files, n, i) && 1 <= i < n
    ensures i in files ==> Partly(files0, Renamed(files, i), n, i - 1)
    ensures i !in files ==> Partly(files0, files, n, i - 1)
  {
    hide Renamed;
    forall k: nat ensures i in files ==> At(Renamed(files, i), k) == At(files0, Origin(i - 1, n, k)) {
      assert At(files, k) == At(files0, Origin(i, n, k)) && At(files, i) == At(files0, Origin(i, n, i));
      if i in files { RenamedAt(files, i, k); }
    }
    forall k: nat ensures i !in files ==> At(files, k) == At(files0, Origin(i - 1, n, k)) {
      assert At(files, k) == At(files0, Origin(i, n, k)) && At(files, i) == At(files0, Origin(i, n, i));
    }
  }

  lemma PartlyEnds(files0: Files, files: Files, n: nat)
    requires Partly(files0, files, n, 0) && n >= 1 && 0 in files
    ensures Renamed(files, 0) == Shifted(files0, n)
  {
    hide Renamed, Shifted;
    forall k: nat ensures At(Renamed(files, 0), k) == At(Shifted(files0, n), k) {
      var here: nat := if k == 1 then 0 else k;
      assert At(files, here) == At(files0, Origin(0, n, here));
      RenamedAt(files, 0, k);
      ShiftedAt(files0, n, k);
    }
    SameFiles(Renamed(files, 0), Shifted(files0, n));
  }

  /** A stream's files after `buf` is appended to it. */
  function Appended(bytes: Measure, files: Files, n: nat, buf: seq<LogLine>): Files {
    if buf == [] then files else
      var room := if 0 in files && FileLen(bytes, files[0]) >= MAX_FILE_BYTES then Shifted(files, n) else files;
      Grown(room, buf)
  }

  lemma SetGrows(files: Files, n: nat, log: seq<LogLine>, buf: seq<LogLine>)
    requires SetOk(files, n, log) && buf != []
    ensures SetOk(Grown(files, buf), n, log + buf)
  {
    FlatAppended(files, n, buf);
    SuffixGrows(Flat(files, n), log, buf);
  }

  // ---- what processes write ------------------------------------------------------------

  /** Every line ever written to each stream. */
  datatype Streams = Streams(app: seq<LogLine>, egress: seq<LogLine>)

  /** A batch's lines, numbered on from what was written, each to its stream. */
  ghost function AddBatch(w: Streams, lines: seq<LogLine>): Streams {
    var stored := Stored(lines, Top(w.app, w.egress));
    Streams(w.app + Keep(stored, IsApp), w.egress + Keep(stored, IsEgress))
  }

  /** The app lines only: the process died before it wrote the others. */
  ghost function AddHalf(w: Streams, lines: seq<LogLine>): Streams {
    w.(app := w.app + Keep(Stored(lines, Top(w.app, w.egress)), IsApp))
  }

  ghost function AddBatches(w: Streams, batches: seq<seq<LogLine>>): Streams {
    if batches == [] then w else AddBatch(AddBatches(w, batches[..|batches| - 1]), batches[|batches| - 1])
  }

  /** How far a process came: batches acknowledged, and whether half of the next one was written. */
  datatype Life = Life(acked: nat, half: bool) {
    predicate Ok(batches: seq<seq<LogLine>>) {
      acked <= |batches| && (half ==> acked < |batches|)
    }
  }

  ghost function AddProcess(w: Streams, batches: seq<seq<LogLine>>, done: Life): Streams
    requires done.Ok(batches)
  {
    var acked := AddBatches(w, batches[..done.acked]);
    if done.half then AddHalf(acked, batches[done.acked]) else acked
  }

  ghost function AddProcesses(w: Streams, work: seq<seq<seq<LogLine>>>, done: seq<Life>): Streams
    requires |done| == |work| && forall i :: 0 <= i < |done| ==> done[i].Ok(work[i])
  {
    if work == [] then w else
      var n := |work| - 1;
      AddProcess(AddProcesses(w, work[..n], done[..n]), work[n], done[n])
  }

  lemma {:induction false} BatchesAdd(w: Streams, batches: seq<seq<LogLine>>)
    ensures w.app <= AddBatches(w, batches).app && w.egress <= AddBatches(w, batches).egress
    decreases |batches|
  {
    hide Keep, Stored, Top;
    if batches != [] { BatchesAdd(w, batches[..|batches| - 1]); }
  }

  /** Nothing written is ever taken back. */
  lemma {:induction false} ProcessesAdd(w: Streams, work: seq<seq<seq<LogLine>>>, done: seq<Life>)
    requires |done| == |work| && forall i :: 0 <= i < |done| ==> done[i].Ok(work[i])
    ensures var after := AddProcesses(w, work, done); w.app <= after.app && w.egress <= after.egress
    decreases |work|
  {
    hide Keep, Stored, Top;
    if work != [] {
      var n := |work| - 1;
      ProcessesAdd(w, work[..n], done[..n]);
      BatchesAdd(AddProcesses(w, work[..n], done[..n]), work[n][..done[n].acked]);
    }
  }

  // ---- how long a batch is -----------------------------------------------------------------

  /** The longer of a batch's two writes, if its lines are numbered on from `top`. */
  function BatchLen(bytes: Measure, lines: seq<LogLine>, top: nat): nat {
    var stored := Stored(lines, top);
    Max(FileLen(bytes, Keep(stored, IsApp)), FileLen(bytes, Keep(stored, IsEgress)))
  }

  /** However they are numbered, no batch takes a write longer than `most`. */
  ghost predicate Within(bytes: Measure, batches: seq<seq<LogLine>>, most: nat) {
    forall j: nat, top: nat :: j < |batches| ==> BatchLen(bytes, batches[j], top) <= most
  }

  ghost predicate AllWithin(bytes: Measure, work: seq<seq<seq<LogLine>>>, most: nat) {
    forall i :: 0 <= i < |work| ==> Within(bytes, work[i], most)
  }

  // ---- the documented bound fails for two streams together -----------------------------

  /** The disk after a batch of `lines`, numbered on from `top`. */
  function AppendedBatch(bytes: Measure, d: Disk, lines: seq<LogLine>, top: nat): Disk {
    var stored := Stored(lines, top);
    Disk(Appended(bytes, d.app, MAX_ROTATED, Keep(stored, IsApp)),
         Appended(bytes, d.egress, EGRESS_MAX_ROTATED, Keep(stored, IsEgress)))
  }

  /** The line in the first `m` of `k` files, numbered so that file 0 holds number `k`. */
  function CopiesUpTo(l: LogLine, k: nat, m: nat): Files
    requires m <= k
  {
    if m == 0 then map[] else CopiesUpTo(l, k, m - 1)[m - 1 := [l.(seqNo := k - (m - 1))]]
  }

  function Copies(l: LogLine, k: nat): Files {
    CopiesUpTo(l, k, k)
  }

  lemma {:induction false} CopiesUpToAt(l: LogLine, k: nat, m: nat, i: nat)
    requires m <= k
    ensures At(CopiesUpTo(l, k, m), i) == if i < m then Some([l.(seqNo := k - i)]) else None
  {
    if m > 0 { CopiesUpToAt(l, k, m - 1, i); }
  }

  lemma CopiesAt(l: LogLine, k: nat, i: nat)
    ensures At(Copies(l, k), i) == if i < k then Some([l.(seqNo := k - i)]) else None
  {
    CopiesUpToAt(l, k, k, i);
  }

  lemma GrownAt(files: Files, buf: seq<LogLine>, i: nat)
    ensures At(Grown(files, buf), i) ==
              if i > 0 then At(files, i) else Some((if At(files, 0).Some? then At(files, 0).value else []) + buf)
  {}

  lemma OneMoreCopy(bytes: Measure, l: LogLine, n: nat, k: nat)
    requires k <= n && forall m: nat :: bytes(l.(seqNo := m)) + 1 >= MAX_FILE_BYTES
    ensures Appended(bytes, Copies(l, k), n, [l.(seqNo := k + 1)]) == Copies(l, k + 1)
  {
    hide Copies, Shifted, Grown;
    var files, more, next := Copies(l, k), Copies(l, k + 1), l.(seqNo := k + 1);
    assert [] + [next] == [next];
    CopiesAt(l, k, 0);
    if k > 0 { OneLine(bytes, l.(seqNo := k)); }
    var room := if k > 0 then Shifted(files, n) else files;
    assert Appended(bytes, files, n, [next]) == Grown(room, [next]);
    forall i: nat ensures At(Grown(room, [next]), i) == At(more, i) {
      GrownAt(room, [next], i);
      ShiftedAt(files, n, i);
      ShiftedAt(files, n, 0);
      CopiesAt(l, k + 1, i);
      if i > 0 { CopiesAt(l, k, i - 1); }
      CopiesAt(l, k, i);
    }
    SameFiles(Grown(room, [next]), more);
  }

  lemma {:induction false} CopiesTake(bytes: Measure, l: LogLine, k: nat, n: nat, size: nat)
    requires forall m: nat :: bytes(l.(seqNo := m)) + 1 == size
    ensures SetLen(bytes, Copies(l, k), n) == (if k <= n then k else n + 1) * size
  {
    hide Copies;
    CopiesAt(l, k, n);
    if n < k { OneLine(bytes, l.(seqNo := k - n)); }
    if n > 0 { CopiesTake(bytes, l, k, n - 1, size); }
  }

  lemma OneLineStored(l: LogLine, top: nat)
    ensures var stored := Stored([l], top);
            && Keep(stored, IsApp) == (if IsApp(l) then [l.(seqNo := top + 1)] else [])
            && Keep(stored, IsEgress) == (if IsApp(l) then [] else [l.(seqNo := top + 1)])
  {
    assert Stored([l], top) == [l.(seqNo := top + 1)];
    assert Stored([l], top)[..0] == [];
  }

  /** Five batches of one line that just fills a file, four app lines and an egress line: no file outgrows its
      size, and together they outgrow the documented bound, which does not count the egress files. */
  lemma StreamsTogetherExceed(a: LogLine, e: LogLine)
    requires IsApp(a) && IsEgress(e)
    ensures var bytes: Measure := _ => MAX_FILE_BYTES - 1;
            var d1 := AppendedBatch(bytes, Disk(map[], map[]), [a], 0);
            var d2 := AppendedBatch(bytes, d1, [a], 1);
            var d3 := AppendedBatch(bytes, d2, [a], 2);
            var d4 := AppendedBatch(bytes, d3, [a], 3);
            var d5 := AppendedBatch(bytes, d4, [e], 4);
            && (forall i: nat :: i in d5.app ==> FileLen(bytes, d5.app[i]) <= MAX_FILE_BYTES)
            && (forall i: nat :: i in d5.egress ==> FileLen(bytes, d5.egress[i]) <= MAX_FILE_BYTES)
            && Footprint(bytes, d5) > DOCUMENTED_BOUND
  {
    hide AppendedBatch, SetLen, Copies;
    var bytes: Measure := _ => MAX_FILE_BYTES - 1;
    NoCopies(a);
    NextCopy(bytes, a, 0);
    NextCopy(bytes, a, 1);
    NextCopy(bytes, a, 2);
    NextCopy(bytes, a, 3);
    FirstEgress(bytes, Copies(a, 4), e, 4);
    CopiesTake(bytes, a, 4, MAX_ROTATED, MAX_FILE_BYTES);
    forall i: nat | i in Copies(a, 4) ensures FileLen(bytes, Copies(a, 4)[i]) <= MAX_FILE_BYTES {
      CopiesAt(a, 4, i);
      OneLine(bytes, a.(seqNo := 4 - i));
    }
  }

  lemma NoCopies(l: LogLine)
    ensures Copies(l, 0) == map[]
  {}

  lemma NextCopy(bytes: Measure, l: LogLine, k: nat)
    requires IsApp(l) && k <= MAX_ROTATED && forall m: nat :: bytes(l.(seqNo := m)) + 1 >= MAX_FILE_BYTES
    ensures AppendedBatch(bytes, Disk(Copies(l, k), map[]), [l], k) == Disk(Copies(l, k + 1), map[])
  {
    hide Stored, Keep, Copies;
    OneLineStored(l, k);
    OneMoreCopy(bytes, l, MAX_ROTATED, k);
  }

  lemma FirstEgress(bytes: Measure, app: Files, l: LogLine, top: nat)
    requires IsEgress(l)
    ensures var stored := l.(seqNo := top + 1);
            && AppendedBatch(bytes, Disk(app, map[]), [l], top) == Disk(app, map[0 := [stored]])
            && FileLen(bytes, [stored]) == bytes(stored) + 1 == SetLen(bytes, map[0 := [stored]], EGRESS_MAX_ROTATED)
  {
    hide Stored, Keep;
    var stored := l.(seqNo := top + 1);
    OneLineStored(l, top);
    assert [] + [stored] == [stored];
    OneLine(bytes, stored);
    FlatOne(stored, EGRESS_MAX_ROTATED);
    SetLenIsFlat(bytes, map[0 := [stored]], EGRESS_MAX_ROTATED);
  }

  lemma {:induction false} FlatOne(l: LogLine, n: nat)
    ensures Flat(map[0 := [l]], n) == [l]
  {
    if n > 0 { FlatOne(l, n - 1); }
  }

  /** File operations of one append at most: a full rotation and a write for each stream. */
  const APPEND_COST: nat := (MAX_ROTATED + 2) + (EGRESS_MAX_ROTATED + 2)

  class LogStore {
    const bytes: Measure
    var app: Files
    var egress: Files
    var nextSeq: nat
    var initialized: bool
    var fuel: nat
    /** Every line ever written to each stream. */
    ghost var appLog: seq<LogLine>
    ghost var egressLog: seq<LogLine>
    /** Every file operation performed. */
    ghost var trace: seq<FileOp>

    constructor (bytes: Measure)
      ensures DiskOk() && ProcessOk() && appLog == [] && egressLog == [] && trace == []
    {
      hide SetOk, LogsOk;
      this.bytes := bytes;
      app, egress, nextSeq, initialized, fuel := map[], map[], 0, false, 0;
      appLog, egressLog, trace := [], [], [];
      NothingWritten();
    }

    /** Retained lines are the end of what was written to each stream; numbers are never reused. */
    ghost predicate DiskOk()
      reads this`app, this`egress, this`appLog, this`egressLog, this`trace
    {
      && TraceOk(trace) && Replay(trace) == Disk(app, egress)
      && LinesOf(trace, AppStream) == appLog && LinesOf(trace, EgressStream) == egressLog
      && SetOk(app, MAX_ROTATED, appLog) && SetOk(egress, EGRESS_MAX_ROTATED, egressLog)
      && LogsOk(appLog, egressLog)
      && RotatesInTime(bytes, trace)
    }

    ghost function TopOf(): nat
      reads this`appLog, this`egressLog
    {
      Top(appLog, egressLog)
    }

    ghost function Written(): Streams
      reads this`appLog, this`egressLog
    {
      Streams(appLog, egressLog)
    }

    /** A process that has looked at the disk holds the highest number written. */
    ghost predicate ProcessOk()
      reads this`appLog, this`egressLog, this`nextSeq, this`initialized
    {
      initialized ==> nextSeq == TopOf()
    }

    /** One more file operation, unless this process has died. */
    method Tick() returns (alive: bool)
      modifies this`fuel
      ensures Spent(old(fuel), fuel, alive, 1) && (alive ==> fuel < old(fuel))
    {
      alive := fuel > 0;
      if alive { fuel := fuel - 1; }
    }

    /** From the newest line of four files, whatever the others hold. */
    method HighestSeqOnDisk() returns (r: nat)
      requires DiskOk()
      ensures r == TopOf()
    {
      TwoFilesTell(app, MAX_ROTATED, appLog);
      TwoFilesTell(egress, EGRESS_MAX_ROTATED, egressLog);
      r := Max(Max(Max(LastSeq(app, 0), LastSeq(app, 1)), LastSeq(egress, 0)), LastSeq(egress, 1));
    }

    ghost method Note(op: FileOp)
      requires TraceOk(trace) && Doable(Replay(trace), op) && RotatesInTime(bytes, trace)
      requires op.Write? ==> HasRoom(bytes, Replay(trace).Of(op.s))
      modifies this`trace
      ensures trace == old(trace) + [op] && TraceOk(trace) && Replay(trace) == Do(old(Replay(trace)), op)
      ensures forall s :: LinesOf(trace, s) == LinesOf(old(trace), s) + (if op.Write? && op.s == s then op.buf else [])
      ensures RotatesInTime(bytes, trace)
      ensures Largest(bytes, trace) == Max(old(Largest(bytes, trace)), if op.Write? then FileLen(bytes, op.buf) else 0)
    {
      hide TraceOk, Replay, RotatesInTime, Largest, LinesOf, HasRoom, Do, Doable;
      TraceGrows(trace, op);
      TraceRotates(bytes, trace, op);
      trace := trace + [op];
    }

    /** Shift every file of a stream up one number, dropping the oldest. `files` is the set as it stands
        when done or when the process dies. */
    method Rotate(files0: Files, s: Stream, ghost log: seq<LogLine>)
      returns (files: Files, alive: bool)
      requires SetOk(files0, s.Oldest(), log) && 0 in files0
      requires TraceOk(trace) && Replay(trace).Of(s) == files0 && RotatesInTime(bytes, trace)
      modifies this`fuel, this`trace
      ensures SetOk(files, s.Oldest(), log)
      ensures alive ==> 0 !in files && files == Shifted(files0, s.Oldest())
      ensures TraceOk(trace) && Replay(trace) == old(Replay(trace)).With(s, files) && old(trace) <= trace
      ensures RotatesInTime(bytes, trace) && Largest(bytes, trace) == old(Largest(bytes, trace))
      ensures forall t :: LinesOf(trace, t) == LinesOf(old(trace), t)
      ensures Spent(old(fuel), fuel, alive, s.Oldest() + 1)
    {
      hide SetOk, FileLen, Partly, Shifted, Replay, TraceOk, LinesOf, RotatesInTime, Largest;
      var n := s.Oldest();
      files, alive := files0, true;
      RotationStarts(files0, n, log);
      PartlyStarts(files0, n, log);
      if n in files {
        alive := Tick();
        if !alive { return; }
        Note(RemoveOldest(s));
        files := files - {n};
      }
      assert files == files0 - {n};
      var i := n - 1;
      while i >= 1
        invariant 0 <= i < n && Rotating(files, n, log, i + 1)
        invariant Partly(files0, files, n, i)
        invariant TraceOk(trace) && Replay(trace) == old(Replay(trace)).With(s, files) && old(trace) <= trace
        invariant RotatesInTime(bytes, trace) && Largest(bytes, trace) == old(Largest(bytes, trace))
        invariant forall t :: LinesOf(trace, t) == LinesOf(old(trace), t)
        invariant Spent(old(fuel), fuel, true, n - i)
      {
        RotationShifts(files, n, log, i);
        PartlyMoves(files0, files, n, i);
        if i in files {
          alive := Tick();
          if !alive { return; }
          Note(Rename(s, i));
          files := Renamed(files, i);
        }
        i := i - 1;
      }
      RotationEnds(files, n, log);
      PartlyEnds(files0, files, n);
      alive := Tick();
      if !alive { return; }
      Note(Rename(s, 0));
      files := Renamed(files, 0);
    }

    /** Append `buf` to a stream, rotating first if the active file has reached its size. */
    method AppendStream(files0: Files, s: Stream, buf: seq<LogLine>, ghost log: seq<LogLine>)
      returns (files: Files, alive: bool)
      requires SetOk(files0, s.Oldest(), log)
      requires TraceOk(trace) && Replay(trace).Of(s) == files0 && RotatesInTime(bytes, trace)
      modifies this`fuel, this`trace
      ensures buf == [] ==> alive
      ensures alive ==> files == Appended(bytes, files0, s.Oldest(), buf)
      ensures SetOk(files, s.Oldest(), if alive then log + buf else log)
      ensures TraceOk(trace) && Replay(trace) == old(Replay(trace)).With(s, files) && old(trace) <= trace
      ensures RotatesInTime(bytes, trace)
      ensures Largest(bytes, trace) <= Max(old(Largest(bytes, trace)), FileLen(bytes, buf))
      ensures forall t :: LinesOf(trace, t) == LinesOf(old(trace), t) + (if alive && t == s then buf else [])
      ensures Spent(old(fuel), fuel, alive, s.Oldest() + 2)
    {
      hide SetOk, FileLen, Shifted, Replay, TraceOk, Grown, LinesOf, RotatesInTime, Largest;
      files, alive := files0, true;
      if buf == [] {
        assert log + buf == log;
        return;
      }
      if 0 in files && FileLen(bytes, files[0]) >= MAX_FILE_BYTES {
        files, alive := Rotate(files, s, log);
        if !alive { return; }
      }
      alive := Tick();
      if !alive { return; }
      SetGrows(files, s.Oldest(), log, buf);
      Note(Write(s, buf));
      files := Grown(files, buf);
    }

    /** Number the lines in arrival order and split them by stream. */
    method Partition(lines: seq<LogLine>) returns (appBuf: seq<LogLine>, egressBuf: seq<LogLine>)
      modifies this`nextSeq
      ensures nextSeq == old(nextSeq) + |lines|
      ensures appBuf == Keep(Stored(lines, old(nextSeq)), IsApp)
      ensures egressBuf == Keep(Stored(lines, old(nextSeq)), IsEgress)
    {
      appBuf, egressBuf := [], [];
      for i := 0 to |lines|
        invariant nextSeq == old(nextSeq) + i
        invariant appBuf == Keep(Stored(lines[..i], old(nextSeq)), IsApp)
        invariant egressBuf == Keep(Stored(lines[..i], old(nextSeq)), IsEgress)
      {
        assert Stored(lines[..i + 1], old(nextSeq))[..i] == Stored(lines[..i], old(nextSeq));
        nextSeq := nextSeq + 1;
        var stored := lines[i].(seqNo := nextSeq);
        if lines[i].stream == EGRESS_STREAM {
          egressBuf := egressBuf + [stored];
        } else {
          appBuf := appBuf + [stored];
        }
      }
      assert lines[..|lines|] == lines;
    }

    /** Append a batch. Its lines get the numbers after the highest ever written, also in a process that
        has just started. A process that dies on the way has written nothing of it, or (`half`) its app
        lines only. */
    method Append(lines: seq<LogLine>) returns (alive: bool, half: bool)
      requires DiskOk() && ProcessOk()
      modifies this
      ensures DiskOk() && (alive ==> ProcessOk()) && Spent(old(fuel), fuel, alive, APPEND_COST) && old(trace) <= trace
      ensures Written() == (if alive then AddBatch(old(Written()), lines)
                            else if half then AddHalf(old(Written()), lines) else old(Written()))
      ensures alive ==> TopOf() == old(TopOf()) + |lines|
      ensures Largest(bytes, trace) <= Max(old(Largest(bytes, trace)), BatchLen(bytes, lines, old(TopOf())))
      ensures alive ==> Disk(app, egress) == AppendedBatch(bytes, old(Disk(app, egress)), lines, old(TopOf()))
      ensures (forall l :: l in lines ==> IsApp(l)) ==> egress == old(egress)
      ensures (forall l :: l in lines ==> IsEgress(l)) ==> app == old(app)
    {
      hide SetOk, LogsOk, Top, Keep, Stored, Shifted, FileLen, TraceOk, Replay, LinesOf, RotatesInTime, Largest;
      alive, half := true, false;
      AppendNothing(lines, TopOf(), appLog, egressLog);
      if lines == [] { return; }
      if !initialized {
        nextSeq := HighestSeqOnDisk();
        initialized := true;
      }
      var appBuf, egressBuf := Partition(lines);
      OneStream(lines, TopOf());
      alive, half := WriteBoth(appBuf, egressBuf, lines);
    }

    method WriteBoth(appBuf: seq<LogLine>, egressBuf: seq<LogLine>, ghost lines: seq<LogLine>)
      returns (alive: bool, half: bool)
      requires DiskOk() && initialized && nextSeq == TopOf() + |lines|
      requires appBuf == Keep(Stored(lines, TopOf()), IsApp) && egressBuf == Keep(Stored(lines, TopOf()), IsEgress)
      modifies this`app, this`egress, this`appLog, this`egressLog, this`fuel, this`trace
      ensures DiskOk() && old(trace) <= trace && (alive ==> ProcessOk() && TopOf() == old(TopOf()) + |lines|)
      ensures Spent(old(fuel), fuel, alive, APPEND_COST)
      ensures Largest(bytes, trace) <=
                Max(old(Largest(bytes, trace)), Max(FileLen(bytes, appBuf), FileLen(bytes, egressBuf)))
      ensures appLog == if alive || half then old(appLog) + appBuf else old(appLog)
      ensures egressLog == if alive then old(egressLog) + egressBuf else old(egressLog)
      ensures appBuf == [] ==> app == old(app)
      ensures egressBuf == [] ==> egress == old(egress)
      ensures alive ==> app == Appended(bytes, old(app), MAX_ROTATED, appBuf)
      ensures alive ==> egress == Appended(bytes, old(egress), EGRESS_MAX_ROTATED, egressBuf)
    {
      hide SetOk, LogsOk, Top, Keep, Stored, Above, Shifted, FileLen, TraceOk, Replay, LinesOf, RotatesInTime, Largest;
      ghost var top := TopOf();
      PartRises(lines, top, IsApp);
      PartRises(lines, top, IsEgress);
      PartsApart(lines, top);
      AppWritten(appLog, egressLog, appBuf, top);
      EgressWritten(appLog, egressLog, appBuf, egressBuf, top);
      TopAfter(appLog, egressLog, lines, top);
      half := false;
      app, alive := AppendStream(app, AppStream, appBuf, appLog);
      if !alive { return; }
      appLog := appLog + appBuf;
      half := true;
      egress, alive := AppendStream(egress, EgressStream, egressBuf, egressLog);
      if !alive { return; }
      egressLog := egressLog + egressBuf;
    }

    /** All lines of a stream, oldest file first. */
    method ReadSet(files: Files, n: nat) returns (all: seq<LogLine>)
      ensures all == Flat(files, n)
    {
      hide Flat;
      all := [];
      var i := n;
      while i >= 1
        invariant 0 <= i <= n && all + Flat(files, i) == Flat(files, n)
      {
        FlatSteps(files, i, all);
        if i in files { all := all + files[i]; }
        i := i - 1;
      }
      FlatSteps(files, 0, all);
      if 0 in files { all := all + files[0]; }
    }

    /** A line of the service, or of any if none is named, that some file of either stream still holds. */
    ghost predicate Serves(l: LogLine, service: Option<string>)
      reads this`app, this`egress
    {
      && (service == None || service == Some(l.server))
      && (InSome(app, 3, l) || InSome(egress, 11, l))
    }

    /** The retained lines of a service (or of all), in the order they were numbered: those above `since`,
        or else the last `limit`. */
    method Read(limit: nat, service: Option<string>, since: Option<nat>) returns (r: seq<LogLine>)
      requires DiskOk()
      ensures Rising(r)
      ensures since.Some? ==> forall l :: l in r <==> Serves(l, service) && l.seqNo > since.value
      ensures since.None? ==>
                && (forall l :: l in r ==> Serves(l, service))
                && (forall l, x :: Serves(l, service) && l !in r && x in r ==> l.seqNo < x.seqNo)
                && (|r| == limit || forall l :: Serves(l, service) ==> l in r)
    {
      hide LogsOk, Flat, RotatesInTime, InSome;
      BothHave(app, egress);
      var appLines := ReadSet(app, MAX_ROTATED);
      var egressLines := ReadSet(egress, EGRESS_MAX_ROTATED);
      RetainedDistinct(appLines, egressLines, appLog, egressLog);
      var all := SortBySeq(appLines + egressLines);
      var wanted := (l: LogLine) => OfService(l, service);
      KeepsRising(all, wanted);
      all := Keep(all, wanted);
      match since {
        case Some(s) =>
          var newer := (l: LogLine) => l.seqNo > s;
          KeepsRising(all, newer);
          r := Keep(all, newer);
        case None =>
          TailIsNewest(all, limit);
          r := Tail(all, limit);
      }
    }

    /** A new process: nothing is remembered of the last one. */
    method Restart(life: nat)
      requires DiskOk()
      modifies this`nextSeq, this`initialized, this`fuel
      ensures DiskOk() && ProcessOk() && fuel == life
    {
      hide SetOk, LogsOk;
      nextSeq, initialized, fuel := 0, false, life;
    }

    /** One process: it lives for `life` file operations and is given `batches`. It acknowledges all of them
        unless its life is too short for the next one. */
    method Process(life: nat, batches: seq<seq<LogLine>>) returns (done: Life)
      requires DiskOk()
      modifies this
      ensures DiskOk() && done.Ok(batches) && Written() == AddProcess(old(Written()), batches, done)
      ensures old(trace) <= trace
      ensures done.acked < |batches| ==> life < APPEND_COST * (done.acked + 1)
      ensures forall most :: Within(bytes, batches, most) ==>
                Largest(bytes, trace) <= Max(old(Largest(bytes, trace)), most)
    {
      hide DiskOk, ProcessOk, TopOf, AddBatch, AddHalf, Appended, Largest, BatchLen;
      Restart(life);
      for j := 0 to |batches|
        invariant DiskOk() && ProcessOk() && Written() == AddBatches(old(Written()), batches[..j])
        invariant old(trace) <= trace
        invariant forall most :: Within(bytes, batches, most) ==>
                    Largest(bytes, trace) <= Max(old(Largest(bytes, trace)), most)
        invariant fuel <= life <= fuel + APPEND_COST * j
      {
        assert batches[..j + 1][..j] == batches[..j];
        var alive, half := Append(batches[j]);
        if !alive { return Life(j, half); }
      }
      assert batches[..|batches|] == batches;
      return Life(|batches|, false);
    }

    /** Process after process. What is on disk is exactly what they acknowledged, numbered on from what was
        there, and at most the app lines of the one batch each was interrupted in; the retained lines of each
        stream are the end of it. The files take no more than sixteen times the rotation size and the
        longest write, which is no longer than the longest before and the longest a batch given here takes;
        and never more than the documented bound exactly if every write fitted. */
    method Run(lives: seq<nat>, work: seq<seq<seq<LogLine>>>) returns (done: seq<Life>)
      requires DiskOk() && |lives| == |work|
      modifies this
      ensures DiskOk() && |done| == |work| && forall i :: 0 <= i < |done| ==> done[i].Ok(work[i])
      ensures forall i :: 0 <= i < |done| && done[i].acked < |work[i]| ==> lives[i] < APPEND_COST * (done[i].acked + 1)
      ensures Written() == AddProcesses(old(Written()), work, done)
      ensures old(appLog) <= appLog && old(egressLog) <= egressLog && old(trace) <= trace
      ensures Footprint(bytes, Disk(app, egress)) <= 16 * (MAX_FILE_BYTES + Largest(bytes, trace) - 1)
      ensures forall most :: AllWithin(bytes, work, most) ==>
                Largest(bytes, trace) <= Max(old(Largest(bytes, trace)), most)
      ensures TraceOk(trace) &&
              (AlwaysWithin(bytes, trace, DOCUMENTED_BOUND) <==> EveryWriteFits(bytes, trace, DOCUMENTED_BOUND))
    {
      hide AddProcess, DiskOk, Footprint, AlwaysWithin, EveryWriteFits, TraceOk, Largest, Within;
      done := [];
      for i := 0 to |work|
        invariant DiskOk() && |done| == i && forall k :: 0 <= k < i ==> done[k].Ok(work[k])
        invariant forall k :: 0 <= k < i && done[k].acked < |work[k]| ==> lives[k] < APPEND_COST * (done[k].acked + 1)
        invariant Written() == AddProcesses(old(Written()), work[..i], done) && old(trace) <= trace
        invariant forall most :: AllWithin(bytes, work, most) ==>
                    Largest(bytes, trace) <= Max(old(Largest(bytes, trace)), most)
      {
        var life := Process(lives[i], work[i]);
        assert work[..i + 1][..i] == work[..i] && (done + [life])[..i] == done;
        done := done + [life];
      }
      assert work[..|work|] == work;
      ProcessesAdd(old(Written()), work, done);
      Space();
    }

    lemma Space()
      requires DiskOk()
      ensures Footprint(bytes, Disk(app, egress)) <= 16 * (MAX_FILE_BYTES + Largest(bytes, trace) - 1)
      ensures TraceOk(trace) &&
              (AlwaysWithin(bytes, trace, DOCUMENTED_BOUND) <==> EveryWriteFits(bytes, trace, DOCUMENTED_BOUND))
    {
      hide SetOk, LogsOk, TraceOk, Replay, Footprint, AlwaysWithin, EveryWriteFits, RotatesInTime, Largest;
      FootprintBound(bytes, trace);
      WithinExactly(bytes, trace, DOCUMENTED_BOUND);
    }
  }

  lemma BothHave(app: Files, egress: Files)
    ensures var all := Flat(app, MAX_ROTATED) + Flat(egress, EGRESS_MAX_ROTATED);
            forall l :: l in all <==> InSome(app, 3, l) || InSome(egress, 11, l)
  {
    hide Flat, InSome;
    forall l ensures l in Flat(app, 3) + Flat(egress, 11) <==> InSome(app, 3, l) || InSome(egress, 11, l) {
      FlatHas(app, 3, l);
      FlatHas(egress, 11, l);
    }
  }

  predicate OfService(l: LogLine, service: Option<string>) {
    service.None? || l.server == service.value
  }

  lemma {:induction false} SuffixRises(a: seq<LogLine>, b: seq<LogLine>)
    requires IsSuffix(a, b) && Rising(b)
    ensures Rising(a) && forall l :: l in a ==> l in b
  {}

  lemma RetainedDistinct(app: seq<LogLine>, egress: seq<LogLine>, appLog: seq<LogLine>, egressLog: seq<LogLine>)
    requires LogsOk(appLog, egressLog) && IsSuffix(app, appLog) && IsSuffix(egress, egressLog)
    ensures DistinctSeqs(app + egress)
  {
    SuffixRises(app, appLog);
    SuffixRises(egress, egressLog);
    forall i, j | 0 <= i < |app| && 0 <= j < |egress| ensures app[i].seqNo != egress[j].seqNo {
      assert app[i] in app && egress[j] in egress;
      var a :| 0 <= a < |appLog| && appLog[a] == app[i];
      var b :| 0 <= b < |egressLog| && egressLog[b] == egress[j];
    }
  }

  lemma NothingWritten()
    ensures SetOk(map[], MAX_ROTATED, []) && SetOk(map[], EGRESS_MAX_ROTATED, []) && LogsOk([], [])
  {
    EmptyFlat(MAX_ROTATED);
    EmptyFlat(EGRESS_MAX_ROTATED);
  }

  lemma AppendNothing(lines: seq<LogLine>, top: nat, app: seq<LogLine>, egress: seq<LogLine>)
    ensures lines == [] ==>
              app + Keep(Stored(lines, top), IsApp) == app && egress + Keep(Stored(lines, top), IsEgress) == egress
  {}

  lemma OneStream(lines: seq<LogLine>, top: nat)
    ensures (forall l :: l in lines ==> IsApp(l)) ==> Keep(Stored(lines, top), IsEgress) == []
    ensures (forall l :: l in lines ==> IsEgress(l)) ==> Keep(Stored(lines, top), IsApp) == []
  {
    var stored := Stored(lines, top);
    if Keep(stored, IsEgress) != [] {
      var l := Keep(stored, IsEgress)[0];
      assert l in Keep(stored, IsEgress);
      var i :| 0 <= i < |stored| && stored[i] == l;
      assert lines[i] in lines && !IsApp(lines[i]);
    }
    if Keep(stored, IsApp) != [] {
      var l := Keep(stored, IsApp)[0];
      assert l in Keep(stored, IsApp);
      var i :| 0 <= i < |stored| && stored[i] == l;
      assert lines[i] in lines && !IsEgress(lines[i]);
    }
  }

  // ---- what an append leaves, file by file ------------------------------------------------------

  /** File `k` of a stream that keeps `n` rotated files, after `buf` was appended to it: a file of five
      mebibytes or more has moved on, and with it every other, before the lines were written. */
  ghost predicate AppendedAt(bytes: Measure, files: Files, files': Files, n: nat, buf: seq<LogLine>, k: nat) {
    if buf == [] then At(files', k) == At(files, k)
    else if 0 in files && FileLen(bytes, files[0]) >= 5 * 1024 * 1024 then
      At(files', k) == if k == 0 then Some(buf) else if k <= n then At(files, k - 1) else None
    else At(files', k) == if k == 0 then Some((if 0 in files then files[0] else []) + buf) else At(files, k)
  }

  lemma AppendedExactly(bytes: Measure, files: Files, n: nat, buf: seq<LogLine>, k: nat)
    ensures AppendedAt(bytes, files, Appended(bytes, files, n, buf), n, buf, k)
  {
    hide FileLen, Shifted, Grown;
    if buf != [] {
      var room := if 0 in files && FileLen(bytes, files[0]) >= MAX_FILE_BYTES then Shifted(files, n) else files;
      GrownAt(room, buf, k);
      ShiftedAt(files, n, k);
      ShiftedAt(files, n, 0);
      assert [] + buf == buf;
    }
  }

  /** Line `i` of a batch, with its number. */
  ghost predicate NumberedAs(lines: seq<LogLine>, top: nat, i: nat, l: LogLine) {
    i < |lines| && l == LogLine(lines[i].server, lines[i].stream, lines[i].line, lines[i].timestamp, top + 1 + i)
  }

  /** After a batch, every file of both streams: three rotated files are kept of the app stream and eleven
      of the egress one; each line, numbered on from the top in the order it came, is in its own stream's
      part. */
  lemma BatchExactly(bytes: Measure, d: Disk, lines: seq<LogLine>, top: nat, k: nat)
    returns (a: seq<LogLine>, e: seq<LogLine>)
    ensures Rising(a) && forall l :: l in a <==> l.stream != "egress" && exists i: nat :: NumberedAs(lines, top, i, l)
    ensures Rising(e) && forall l :: l in e <==> l.stream == "egress" && exists i: nat :: NumberedAs(lines, top, i, l)
    ensures AppendedAt(bytes, d.app, AppendedBatch(bytes, d, lines, top).app, 3, a, k)
    ensures AppendedAt(bytes, d.egress, AppendedBatch(bytes, d, lines, top).egress, 11, e, k)
  {
    hide Appended, AppendedAt;
    var stored := Stored(lines, top);
    a, e := Keep(stored, IsApp), Keep(stored, IsEgress);
    PartRises(lines, top, IsApp);
    PartRises(lines, top, IsEgress);
    AppendedExactly(bytes, d.app, MAX_ROTATED, a, k);
    AppendedExactly(bytes, d.egress, EGRESS_MAX_ROTATED, e, k);
    forall l ensures l in stored <==> exists i: nat :: NumberedAs(lines, top, i, l) { StoredAre(lines, top, l); }
  }

  lemma StoredAre(lines: seq<LogLine>, top: nat, l: LogLine)
    ensures l in Stored(lines, top) <==> exists i: nat :: NumberedAs(lines, top, i, l)
  {
    if l in Stored(lines, top) {
      var i :| 0 <= i < |lines| && Stored(lines, top)[i] == l;
      assert NumberedAs(lines, top, i, l);
    }
    if i: nat :| NumberedAs(lines, top, i, l) { assert Stored(lines, top)[i] == l; }
  }
}
