/** One stream's files: number 0 is the active file, number `i` is what `.i` names. */
module LogFiles {
  import opened Common
  import opened Logs

  type Files = map<nat, seq<LogLine>>

  predicate IsSuffix<T(==)>(a: seq<T>, b: seq<T>) {
    |a| <= |b| && a == b[|b| - |a|..]
  }

  lemma SuffixTrans<T>(a: seq<T>, b: seq<T>, c: seq<T>)
    requires IsSuffix(a, b) && IsSuffix(b, c)
    ensures IsSuffix(a, c)
  {}

  lemma SuffixGrows<T>(a: seq<T>, b: seq<T>, more: seq<T>)
    requires IsSuffix(a, b)
    ensures IsSuffix(a + more, b + more)
  {}

  /** The lines of files `n`, `n - 1`, .. 0: oldest first. */
  ghost function Flat(files: Files, n: nat): seq<LogLine> {
    (if n in files then files[n] else []) + (if n == 0 then [] else Flat(files, n - 1))
  }

  lemma FlatSteps(files: Files, i: nat, before: seq<LogLine>)
    ensures var through := if i in files then before + files[i] else before;
            before + Flat(files, i) == if i == 0 then through else through + Flat(files, i - 1)
  {
    var head, rest := if i in files then files[i] else [], if i == 0 then [] else Flat(files, i - 1);
    assert Flat(files, i) == head + rest;
    Associates(before, head, rest);
  }

  lemma {:induction false} FlatAgrees(f: Files, g: Files, n: nat)
    requires forall i: nat :: i <= n ==> (i in f <==> i in g) && (i in f ==> f[i] == g[i])
    ensures Flat(f, n) == Flat(g, n)
  {
    if n > 0 { FlatAgrees(f, g, n - 1); }
  }

  /** Deleting the oldest file drops lines from the front only. */
  lemma FlatWithoutOldest(files: Files, n: nat)
    ensures IsSuffix(Flat(files - {n}, n), Flat(files, n))
  {
    if n > 0 { FlatAgrees(files - {n}, files, n - 1); }
  }

  function Renamed(files: Files, i: nat): Files
    requires i in files
  {
    (files - {i})[i + 1 := files[i]]
  }

  lemma FlatIs(files: Files, n: nat)
    ensures Flat(files, n) == (if n in files then files[n] else []) + (if n == 0 then [] else Flat(files, n - 1))
    ensures n !in files && n > 0 ==> Flat(files, n) == Flat(files, n - 1)
  {
    if n !in files && n > 0 { assert [] + Flat(files, n - 1) == Flat(files, n - 1); }
  }

  /** Moving file `i` to the free number above it. */
  lemma FlatMoves(f: Files, g: Files, i: nat)
    requires i in f && i + 1 !in f && i !in g && i + 1 in g && g[i + 1] == f[i]
    requires i > 0 ==> Flat(f, i - 1) == Flat(g, i - 1)
    ensures Flat(g, i + 1) == Flat(f, i + 1)
  {
    FlatIs(f, i + 1);
    FlatIs(f, i);
    FlatIs(g, i + 1);
    FlatIs(g, i);
    hide Flat;
  }

  /** Renaming a file to the next number, free at the time, moves no line. */
  lemma {:induction false} FlatRenamed(files: Files, i: nat, n: nat)
    requires i in files && i + 1 !in files && i + 1 <= n
    ensures Flat(Renamed(files, i), n) == Flat(files, n)
    decreases n
  {
    var f := Renamed(files, i);
    if n > i + 1 {
      FlatRenamed(files, i, n - 1);
      FlatIs(files, n);
      FlatIs(f, n);
    } else {
      if i > 0 { FlatAgrees(f, files, i - 1); }
      FlatMoves(files, f, i);
    }
    hide Flat;
  }

  lemma {:induction false} FlatAppended(files: Files, n: nat, buf: seq<LogLine>)
    ensures var active := if 0 in files then files[0] else [];
            Flat(files[0 := active + buf], n) == Flat(files, n) + buf
  {
    if n > 0 { FlatAppended(files, n - 1, buf); }
  }

  /** What is on disk is the end of what was written, down to its last line, which is in the active
      file or, if there is none, in the first rotated one. */
  ghost predicate SetOk(files: Files, n: nat, log: seq<LogLine>) {
    && (forall i: nat :: i in files ==> i <= n && files[i] != [])
    && IsSuffix(Flat(files, n), log)
    && (log != [] ==> 0 in files || 1 in files)
  }

  function LastSeq(files: Files, i: nat): nat {
    if i in files && files[i] != [] then files[i][|files[i]| - 1].seqNo else 0
  }

  ghost function TopSeq(log: seq<LogLine>): nat {
    if log == [] then 0 else log[|log| - 1].seqNo
  }

  lemma {:induction false} FlatEnds(files: Files, n: nat)
    requires 0 in files && files[0] != []
    ensures |Flat(files, n)| >= |files[0]| && Flat(files, n)[|Flat(files, n)| - |files[0]|..] == files[0]
  {
    if n > 0 { FlatEnds(files, n - 1); }
  }

  lemma {:induction false} FlatEndsRotated(files: Files, n: nat)
    requires 0 !in files && 1 in files && files[1] != [] && n >= 1
    ensures |Flat(files, n)| >= |files[1]| && Flat(files, n)[|Flat(files, n)| - |files[1]|..] == files[1]
    decreases n
  {
    if n > 1 { FlatEndsRotated(files, n - 1); }
  }

  lemma FlatHolds(files: Files, n: nat, i: nat)
    requires i <= n && i in files
    ensures forall l :: l in files[i] ==> l in Flat(files, n)
    decreases n
  {
    if i < n { FlatHolds(files, n - 1, i); }
  }

  /** A file numbered up to `n` holds the line. */
  ghost predicate InSome(files: Files, n: nat, l: LogLine) {
    exists i: nat :: i <= n && i in files && l in files[i]
  }

  /** Reading every file finds what the files hold. */
  lemma {:induction false} FlatHas(files: Files, n: nat, l: LogLine)
    ensures l in Flat(files, n) <==> InSome(files, n, l)
  {
    if n > 0 { FlatHas(files, n - 1, l); }
    assert n in files && l in files[n] ==> InSome(files, n, l);
    if l in Flat(files, n) && !(n in files && l in files[n]) {
      var i: nat :| i <= n - 1 && i in files && l in files[i];
    }
  }

  /** Two files of the set tell the highest number written. */
  lemma TwoFilesTell(files: Files, n: nat, log: seq<LogLine>)
    requires SetOk(files, n, log) && Rising(log) && n >= 1
    ensures TopSeq(log) == Max(LastSeq(files, 0), LastSeq(files, 1))
  {
    hide Flat;
    if 0 in files {
      FlatEnds(files, n);
      assert files[0][|files[0]| - 1] == log[|log| - 1];
      if 1 in files {
        FlatHolds(files, n, 1);
        assert files[1][|files[1]| - 1] in Flat(files, n);
        assert files[1][|files[1]| - 1] in log;
      }
    } else if 1 in files {
      FlatEndsRotated(files, n);
      assert files[1][|files[1]| - 1] == log[|log| - 1];
    }
  }
}
