/** The log files as a run of file operations leaves them, and how much disk they take. */
module LogDisk {
  import opened Common
  import opened Logs
  import opened LogFiles

  const MAX_FILE_BYTES: nat := 5 * 1024 * 1024
  const MAX_ROTATED: nat := 3
  const EGRESS_MAX_ROTATED: nat := 11

  /** What the source says a project's logs take at most. */
  const DOCUMENTED_BOUND: nat := MAX_FILE_BYTES * (MAX_ROTATED + 1)

  /** A line's length once serialized. */
  type Measure = LogLine -> nat

  /** `file_len`: each line and its line feed. */
  function FileLen(bytes: Measure, lines: seq<LogLine>): nat {
    if lines == [] then 0 else FileLen(bytes, lines[..|lines| - 1]) + bytes(lines[|lines| - 1]) + 1
  }

  lemma {:induction false} FileLenJoin(bytes: Measure, a: seq<LogLine>, b: seq<LogLine>)
    ensures FileLen(bytes, a + b) == FileLen(bytes, a) + FileLen(bytes, b)
    decreases |b|
  {
    if b == [] {
      assert a + b == a;
    } else {
      assert (a + b)[..|a + b| - 1] == a + b[..|b| - 1];
      FileLenJoin(bytes, a, b[..|b| - 1]);
    }
  }

  // ---- file operations -------------------------------------------------------------

  datatype Stream = AppStream | EgressStream {
    /** The highest number a rotated file of the stream can have. */
    function Oldest(): nat {
      match this case AppStream => MAX_ROTATED case EgressStream => EGRESS_MAX_ROTATED
    }
  }

  datatype Disk = Disk(app: Files, egress: Files) {
    function Of(s: Stream): Files {
      match s case AppStream => app case EgressStream => egress
    }

    function With(s: Stream, files: Files): Disk {
      match s case AppStream => this.(app := files) case EgressStream => this.(egress := files)
    }
  }

  datatype FileOp = RemoveOldest(s: Stream) | Rename(s: Stream, i: nat) | Write(s: Stream, buf: seq<LogLine>)

  predicate Doable(d: Disk, op: FileOp) {
    var files := d.Of(op.s);
    match op
    case RemoveOldest(s) => s.Oldest() in files
    case Rename(s, i) => i in files && i + 1 !in files && i + 1 <= s.Oldest()
    case Write(_, buf) => buf != []
  }

  function Grown(files: Files, buf: seq<LogLine>): Files {
    files[0 := (if 0 in files then files[0] else []) + buf]
  }

  function Do(d: Disk, op: FileOp): Disk
    requires Doable(d, op)
  {
    var files := d.Of(op.s);
    match op
    case RemoveOldest(s) => d.With(s, files - {s.Oldest()})
    case Rename(s, i) => d.With(s, Renamed(files, i))
    case Write(s, buf) => d.With(s, Grown(files, buf))
  }

  /** Each operation can be done where the ones before it lead. */
  predicate TraceOk(trace: seq<FileOp>)
    decreases |trace|, 0
  {
    trace == [] || (TraceOk(trace[..|trace| - 1]) && Doable(Replay(trace[..|trace| - 1]), trace[|trace| - 1]))
  }

  /** What a run of operations leaves of an empty directory. */
  function Replay(trace: seq<FileOp>): Disk
    requires TraceOk(trace)
    decreases |trace|, 1
  {
    if trace == [] then Disk(map[], map[]) else Do(Replay(trace[..|trace| - 1]), trace[|trace| - 1])
  }

  /** The lines a run of operations writes to a stream. */
  function LinesOf(trace: seq<FileOp>, s: Stream): seq<LogLine> {
    if trace == [] then [] else
      var op := trace[|trace| - 1];
      LinesOf(trace[..|trace| - 1], s) + (if op.Write? && op.s == s then op.buf else [])
  }

  lemma TraceGrows(trace: seq<FileOp>, op: FileOp)
    requires TraceOk(trace) && Doable(Replay(trace), op)
    ensures TraceOk(trace + [op]) && Replay(trace + [op]) == Do(Replay(trace), op)
    ensures forall s :: LinesOf(trace + [op], s) == LinesOf(trace, s) + (if op.Write? && op.s == s then op.buf else [])
  {
    hide Do, Doable;
    assert (trace + [op])[..|trace|] == trace;
  }

  // ---- disk space ------------------------------------------------------------------

  /** The files numbered up to `n` together. */
  ghost function SetLen(bytes: Measure, files: Files, n: nat): nat {
    (if n in files then FileLen(bytes, files[n]) else 0) + (if n == 0 then 0 else SetLen(bytes, files, n - 1))
  }

  ghost function Footprint(bytes: Measure, d: Disk): nat {
    SetLen(bytes, d.app, MAX_ROTATED) + SetLen(bytes, d.egress, EGRESS_MAX_ROTATED)
  }

  lemma {:induction false} SetLenIsFlat(bytes: Measure, files: Files, n: nat)
    ensures SetLen(bytes, files, n) == FileLen(bytes, Flat(files, n))
  {
    var head, rest := if n in files then files[n] else [], if n == 0 then [] else Flat(files, n - 1);
    assert Flat(files, n) == head + rest;
    FileLenJoin(bytes, head, rest);
    if n > 0 { SetLenIsFlat(bytes, files, n - 1); }
  }

  lemma {:induction false} SetLenAgrees(bytes: Measure, f: Files, g: Files, n: nat)
    requires forall i: nat :: i <= n ==> (i in f <==> i in g) && (i in f ==> f[i] == g[i])
    ensures SetLen(bytes, f, n) == SetLen(bytes, g, n)
  {
    if n > 0 { SetLenAgrees(bytes, f, g, n - 1); }
  }

  lemma RemoveFrees(bytes: Measure, files: Files, n: nat)
    requires n in files
    ensures SetLen(bytes, files - {n}, n) + FileLen(bytes, files[n]) == SetLen(bytes, files, n)
  {
    if n > 0 { SetLenAgrees(bytes, files - {n}, files, n - 1); }
  }

  lemma RenameFreesNothing(bytes: Measure, files: Files, i: nat, n: nat)
    requires i in files && i + 1 !in files && i + 1 <= n
    ensures SetLen(bytes, Renamed(files, i), n) == SetLen(bytes, files, n)
  {
    FlatRenamed(files, i, n);
    SetLenIsFlat(bytes, files, n);
    SetLenIsFlat(bytes, Renamed(files, i), n);
  }

  lemma WriteTakes(bytes: Measure, files: Files, buf: seq<LogLine>, n: nat)
    ensures SetLen(bytes, Grown(files, buf), n) == SetLen(bytes, files, n) + FileLen(bytes, buf)
  {
    FlatAppended(files, n, buf);
    FileLenJoin(bytes, Flat(files, n), buf);
    SetLenIsFlat(bytes, files, n);
    SetLenIsFlat(bytes, Grown(files, buf), n);
  }

  /** Only a write takes space, and takes exactly its length. */
  lemma Takes(bytes: Measure, d: Disk, op: FileOp)
    requires Doable(d, op)
    ensures op.Write? ==> Footprint(bytes, Do(d, op)) == Footprint(bytes, d) + FileLen(bytes, op.buf)
    ensures !op.Write? ==> Footprint(bytes, Do(d, op)) <= Footprint(bytes, d)
  {
    hide SetLen, FileLen, Renamed, Grown;
    var files, n := d.Of(op.s), op.s.Oldest();
    match op
    case RemoveOldest(_) => RemoveFrees(bytes, files, n);
    case Rename(_, i) => RenameFreesNothing(bytes, files, i, n);
    case Write(_, buf) => WriteTakes(bytes, files, buf, n);
  }

  ghost predicate AlwaysWithin(bytes: Measure, trace: seq<FileOp>, bound: nat)
    requires TraceOk(trace)
  {
    Footprint(bytes, Replay(trace)) <= bound && (trace != [] ==> AlwaysWithin(bytes, trace[..|trace| - 1], bound))
  }

  /** Before each write there was room left for it. */
  ghost predicate EveryWriteFits(bytes: Measure, trace: seq<FileOp>, bound: nat)
    requires TraceOk(trace)
  {
    trace != [] ==>
      var before, op := trace[..|trace| - 1], trace[|trace| - 1];
      && EveryWriteFits(bytes, before, bound)
      && (op.Write? ==> Footprint(bytes, Replay(before)) + FileLen(bytes, op.buf) <= bound)
  }

  /** Over every run of file operations, the logs stay within a bound exactly if, before each write, what
      was retained left room for what was written. */
  lemma {:induction false} WithinExactly(bytes: Measure, trace: seq<FileOp>, bound: nat)
    requires TraceOk(trace)
    ensures AlwaysWithin(bytes, trace, bound) <==> EveryWriteFits(bytes, trace, bound)
    decreases |trace|
  {
    hide Footprint, FileLen, Do, Doable;
    if trace == [] {
      NothingTaken(bytes);
    } else {
      var before, op := trace[..|trace| - 1], trace[|trace| - 1];
      WithinExactly(bytes, before, bound);
      Takes(bytes, Replay(before), op);
      if AlwaysWithin(bytes, before, bound) { assert Footprint(bytes, Replay(before)) <= bound; }
    }
  }

  lemma NothingTaken(bytes: Measure)
    ensures Footprint(bytes, Disk(map[], map[])) == 0
  {
    EmptyFlat(MAX_ROTATED);
    EmptyFlat(EGRESS_MAX_ROTATED);
    SetLenIsFlat(bytes, map[], MAX_ROTATED);
    SetLenIsFlat(bytes, map[], EGRESS_MAX_ROTATED);
  }

  lemma {:induction false} EmptyFlat(n: nat)
    ensures Flat(map[], n) == []
  {
    if n > 0 { EmptyFlat(n - 1); }
  }

  /** No file outgrows the rotation size by more than the largest batch. */
  ghost predicate Bounded(bytes: Measure, files: Files, largest: nat) {
    forall i: nat :: i in files ==> FileLen(bytes, files[i]) < MAX_FILE_BYTES + largest
  }

  lemma {:induction false} SetBound(bytes: Measure, files: Files, largest: nat, n: nat)
    requires Bounded(bytes, files, largest)
    ensures SetLen(bytes, files, n) <= (n + 1) * (MAX_FILE_BYTES + largest - 1)
  {
    hide FileLen;
    var most := MAX_FILE_BYTES + largest - 1;
    if n > 0 {
      SetBound(bytes, files, largest, n - 1);
      assert (n + 1) * most == n * most + most;
    }
  }

  predicate HasRoom(bytes: Measure, files: Files) {
    0 in files ==> FileLen(bytes, files[0]) < MAX_FILE_BYTES
  }

  /** Every write found the active file of its stream below the rotation size. */
  ghost predicate RotatesInTime(bytes: Measure, trace: seq<FileOp>)
    requires TraceOk(trace)
  {
    trace != [] ==>
      var before, op := trace[..|trace| - 1], trace[|trace| - 1];
      RotatesInTime(bytes, before) && (op.Write? ==> HasRoom(bytes, Replay(before).Of(op.s)))
  }

  /** The length of the longest write. */
  function Largest(bytes: Measure, trace: seq<FileOp>): nat {
    if trace == [] then 0 else
      var op := trace[|trace| - 1];
      Max(Largest(bytes, trace[..|trace| - 1]), if op.Write? then FileLen(bytes, op.buf) else 0)
  }

  lemma TraceRotates(bytes: Measure, trace: seq<FileOp>, op: FileOp)
    requires TraceOk(trace) && Doable(Replay(trace), op) && RotatesInTime(bytes, trace)
    requires op.Write? ==> HasRoom(bytes, Replay(trace).Of(op.s))
    ensures TraceOk(trace + [op]) && RotatesInTime(bytes, trace + [op])
    ensures Largest(bytes, trace + [op]) == Max(Largest(bytes, trace), if op.Write? then FileLen(bytes, op.buf) else 0)
  {
    hide Do, Doable, HasRoom, FileLen;
    assert (trace + [op])[..|trace|] == trace;
    TraceGrows(trace, op);
  }

  /** A run of file operations that rotates in time keeps every file within the rotation size and its longest
      write. */
  lemma {:induction false} EveryFileBounded(bytes: Measure, trace: seq<FileOp>, s: Stream)
    requires TraceOk(trace) && RotatesInTime(bytes, trace)
    ensures Bounded(bytes, Replay(trace).Of(s), Largest(bytes, trace))
    decreases |trace|
  {
    hide FileLen, HasRoom, Bounded, Do, Doable;
    if trace == [] {
      NoFileIsBounded(bytes);
    } else {
      var before, op := trace[..|trace| - 1], trace[|trace| - 1];
      EveryFileBounded(bytes, before, s);
      OpBounded(bytes, Replay(before), op, s, Largest(bytes, before));
    }
  }

  lemma NoFileIsBounded(bytes: Measure)
    ensures Bounded(bytes, map[], 0)
  {}

  lemma OpBounded(bytes: Measure, d: Disk, op: FileOp, s: Stream, largest: nat)
    requires Doable(d, op) && Bounded(bytes, d.Of(s), largest) && (op.Write? ==> HasRoom(bytes, d.Of(op.s)))
    ensures Bounded(bytes, Do(d, op).Of(s), Max(largest, if op.Write? then FileLen(bytes, op.buf) else 0))
  {
    if op.Write? && op.s == s {
      var files := d.Of(s);
      FileLenJoin(bytes, if 0 in files then files[0] else [], op.buf);
    }
    hide FileLen;
  }

  /** The bound that holds: sixteen files, each below the rotation size before its last write. */
  lemma FootprintBound(bytes: Measure, trace: seq<FileOp>)
    requires TraceOk(trace) && RotatesInTime(bytes, trace)
    ensures Footprint(bytes, Replay(trace)) <= 16 * (MAX_FILE_BYTES + Largest(bytes, trace) - 1)
  {
    hide Bounded, SetLen, TraceOk, Replay, RotatesInTime;
    EveryFileBounded(bytes, trace, AppStream);
    EveryFileBounded(bytes, trace, EgressStream);
    SetBound(bytes, Replay(trace).app, Largest(bytes, trace), MAX_ROTATED);
    SetBound(bytes, Replay(trace).egress, Largest(bytes, trace), EGRESS_MAX_ROTATED);
  }

  // ---- the documented bound fails ---------------------------------------------------

  /** One batch longer than the bound: batches are never split. */
  lemma OneBatchExceeds(l: LogLine)
    ensures var trace := [Write(AppStream, [l])];
            TraceOk(trace) && Footprint(_ => DOCUMENTED_BOUND, Replay(trace)) > DOCUMENTED_BOUND
  {
    var bytes: Measure := _ => DOCUMENTED_BOUND;
    assert [Write(AppStream, [l])] == [] + [Write(AppStream, [l])];
    TraceGrows([], Write(AppStream, [l]));
    Takes(bytes, Disk(map[], map[]), Write(AppStream, [l]));
    OneLine(bytes, l);
  }

  lemma OneLine(bytes: Measure, l: LogLine)
    ensures FileLen(bytes, [l]) == bytes(l) + 1
  {
    assert [l][..0] == [];
  }
}
