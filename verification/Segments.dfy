/** The byte store's handle and its writers. Each operation performs a run of file calls, any of which may
    fail; other writers' calls interleave with them as `SegmentFiles` describes. */
module SegmentStore {
  import opened Common
  import opened Bytes
  import opened Tables
  import opened ProtocolRuns
  import opened F = SegmentFiles

  datatype IoError = InvalidId | RootReplaced | AlreadyExists | NotFound | TooFewBytes | Failed

  /** The calls of `commit` that can fail: flush the file, make the fan directory, flush the root, link,
      flush the fan directory. */
  datatype Fault = Sound | NoFlush | NoMake | NoRoot | NoLink | NoFan

  /** One to sixty-four digits and small letters up to `f`. */
  predicate IsHex(id: SegId) {
    && 1 <= |id| <= 64
    && forall i :: 0 <= i < |id| ==>
         ('0' as int <= id[i] && id[i] <= '9' as int) || ('a' as int <= id[i] && id[i] <= 'f' as int)
  }

  /** The bytes became readable under `id`, which had none. */
  ghost predicate Published(before: Disk, after: Disk, id: SegId, body: Bytes) {
    id !in before.names && Visible(after) == Visible(before)[id := body]
  }

  /** Nothing became readable, or all of it did. */
  ghost predicate AllOrNothing(before: Disk, after: Disk, id: SegId, body: Bytes) {
    Visible(after) == Visible(before) || Published(before, after, id, body)
  }

  class LocalSegments {
    const fan: FanOf
    var disk: Disk

    /** One file call, after those of `acts`. Only a link or an unlink changes what is readable. */
    method Perform(a: Act, ghost before: Disk, ghost acts: seq<Act>)
      requires Did(fan, before, disk, acts) && Enabled(fan, disk, a) && Clear(disk, a)
      modifies this`disk
      ensures disk == Next(fan, old(disk), a) && Did(fan, before, disk, acts + [a])
      ensures !a.Link? && !a.Remove? && !a.PowerLoss? ==> Visible(disk) == old(Visible(disk))
      ensures a.Link? ==> Visible(disk) == old(Visible(disk))[a.id := old(disk.writers[a.id].given)]
    {
      hide Intact, Next, Enabled, Visible, Did;
      DidMore(fan, before, disk, acts, a);
      if !a.PowerLoss? { VisibleSteps(fan, disk, a); }
      disk := Next(fan, disk, a);
    }

    /** Nothing becomes readable. `live` says whether the root directory is still the one that was opened,
        `opens` whether the temporary file can be created. */
    method Create(id: SegId, inode: Inode, live: bool, opens: bool)
      returns (r: Result<LocalWriter, IoError>, ghost acts: seq<Act>)
      requires Intact(disk) && id !in disk.writers && id !in disk.tmp && inode !in disk.data
      modifies this`disk
      ensures Did(fan, old(disk), disk, acts) && Visible(disk) == old(Visible(disk))
      ensures r.Ok? <==> live && IsHex(id) && opens
      ensures r.Ok? ==> fresh(r.value) && r.value.store == this && r.value.id == id && r.value.Has([])
      ensures r.Err? ==> disk == old(disk)
    {
      acts := [];
      DidNothing(fan, disk);
      if !live { return Err(RootReplaced), acts; }
      if !GoodId(id) { return Err(InvalidId), acts; }
      if !opens { return Err(Failed), acts; }
      hide Did, Visible;
      Perform(F.Create(id, inode), disk, []);
      acts := [] + [F.Create(id, inode)];
      var w := new LocalWriter(this, id);
      return Ok(w), acts;
    }

    /** All of the range, or an error: never a short stream. */
    method Read(id: SegId, offset: nat, len: nat) returns (r: Result<Bytes, IoError>)
      ensures var seen := Visible(disk);
              if IsHex(id) && id in seen && offset + len <= Min(|seen[id]|, U64_MAX)
              then r == Ok(seen[id][offset..offset + len]) else r.Err?
    {
      if !GoodId(id) { return Err(InvalidId); }
      if id !in disk.names { return Err(NotFound); }
      var have := Held(disk, disk.names[id].file);
      if offset + len > U64_MAX || offset + len > |have| { return Err(TooFewBytes); }
      return Ok(have[offset..offset + len]);
    }
  }

  class LocalWriter {
    const store: LocalSegments
    const id: SegId

    constructor (store: LocalSegments, id: SegId)
      ensures this.store == store && this.id == id
    {
      this.store, this.id := store, id;
    }

    /** The writer has been given `body` and nothing has gone wrong. */
    ghost predicate Has(body: Bytes)
      reads store`disk
    {
      At(store.disk, id, Writing) && store.disk.writers[id].given == body
    }

    /** A write that fails may have got part of the buffer into the file. */
    method Write(buf: Bytes, reached: Option<Bytes>, ghost body: Bytes) returns (ok: bool, ghost acts: seq<Act>)
      requires Intact(store.disk) && Has(body)
      modifies store`disk
      ensures Did(store.fan, old(store.disk), store.disk, acts) && Visible(store.disk) == old(Visible(store.disk))
      ensures ok == reached.None? && id in store.disk.writers
      ensures ok ==> Has(body + buf)
      ensures store.disk.names == old(store.disk.names)
    {
      DidNothing(store.fan, store.disk);
      hide Did, Visible, Intact;
      ok := reached.None?;
      var a := if ok then F.Write(id, buf) else WriteFails(id, reached.value);
      acts := [] + [a];
      store.Perform(a, store.disk, []);
    }

    /** Dropping a writer. */
    method Drop(gone: bool, ghost before: Disk, ghost done: seq<Act>) returns (ghost acts: seq<Act>)
      requires Did(store.fan, before, store.disk, done) && id in store.disk.writers
      modifies store`disk
      ensures Did(store.fan, before, store.disk, acts) && Visible(store.disk) == old(Visible(store.disk))
      ensures id !in store.disk.writers && store.disk.names == old(store.disk.names)
    {
      hide Did, Visible, Intact;
      acts := done + [Quit(id, gone)];
      store.Perform(Quit(id, gone), before, done);
    }

    /** The fan directory, made and its entry flushed unless it is found. */
    method FindOrMake(fault: Fault, ghost before: Disk, ghost done: seq<Act>) returns (ok: bool, ghost acts: seq<Act>)
      requires Did(store.fan, before, store.disk, done) && At(store.disk, id, Flushed)
      modifies store`disk
      ensures Did(store.fan, before, store.disk, acts) && Visible(store.disk) == old(Visible(store.disk))
      ensures store.disk.names == old(store.disk.names)
      ensures id in store.disk.writers && store.disk.writers[id].given == old(store.disk.writers[id].given)
      ensures ok ==> At(store.disk, id, Fanned)
      ensures ok && old(store.disk.safe == store.disk.fans) ==> store.fan(id) in store.disk.safe
      ensures fault in {Sound, NoLink, NoFan} ==> ok
    {
      hide Did, Visible, Intact;
      acts := done;
      if store.fan(id) in store.disk.fans {
        store.Perform(FindFan(id), before, acts);
        return true, acts + [FindFan(id)];
      }
      if fault.NoMake? { return false, acts; }
      store.Perform(MakeFan(id), before, acts);
      acts := acts + [MakeFan(id)];
      if fault.NoRoot? { return false, acts; }
      store.Perform(FlushRoot(id), before, acts);
      return true, acts + [FlushRoot(id)];
    }

    /** The first half of `commit`: the file and then the fan directory are flushed, if they can be. */
    method Prepare(live: bool, fault: Fault, ghost body: Bytes) returns (r: Result<(), IoError>, ghost acts: seq<Act>)
      requires Intact(store.disk) && Has(body)
      modifies store`disk
      ensures Did(store.fan, old(store.disk), store.disk, acts) && Visible(store.disk) == old(Visible(store.disk))
      ensures store.disk.names == old(store.disk.names)
      ensures id in store.disk.writers && store.disk.writers[id].given == body
      ensures r.Ok? ==> At(store.disk, id, Fanned)
      ensures r.Ok? && old(store.disk.safe == store.disk.fans) ==> store.fan(id) in store.disk.safe
      ensures r.Ok? ==> live
      ensures live && fault in {Sound, NoLink, NoFan} ==> r.Ok?
    {
      DidNothing(store.fan, store.disk);
      hide Did, Visible, Intact;
      ghost var before := store.disk;
      acts := [];
      if fault.NoFlush? { return Err(Failed), acts; }
      store.Perform(FlushFile(id), before, acts);
      acts := acts + [FlushFile(id)];
      if !live { return Err(RootReplaced), acts; }
      var ok;
      ok, acts := FindOrMake(fault, before, acts);
      r := if ok then Ok(()) else Err(Failed);
    }

    /** The second half: link, take the temporary name away, flush the fan directory. */
    method Publish(fault: Fault, gone: bool, ghost before: Disk, ghost done: seq<Act>, ghost body: Bytes)
      returns (r: Result<(), IoError>, ghost acts: seq<Act>)
      requires Did(store.fan, before, store.disk, done) && At(store.disk, id, Fanned)
      requires store.disk.writers[id].given == body
      modifies store`disk
      ensures Did(store.fan, before, store.disk, acts) && id !in store.disk.writers
      ensures r.Ok? ==> Published(old(store.disk), store.disk, id, body)
      ensures r.Ok? ==> id in store.disk.acked && id !in store.disk.unsure
      ensures r.Ok? && store.fan(id) in old(store.disk.safe) ==> Firm(store.fan, store.disk, id)
      ensures r.Err? ==> AllOrNothing(old(store.disk), store.disk, id, body)
      ensures fault.Sound? ==> (r.Ok? <==> id !in old(store.disk.names))
    {
      hide Did, Visible, Intact, Settle;
      if fault.NoLink? || id in store.disk.names {
        acts := Drop(gone, before, done);
        return Err(if fault.NoLink? then Failed else AlreadyExists), acts;
      }
      store.Perform(Link(id), before, done);
      acts := done + [Link(id)];
      store.Perform(Tidy(id, gone), before, acts);
      acts := acts + [Tidy(id, gone)];
      if fault.NoFan? {
        acts := Drop(gone, before, acts);
        return Err(Failed), acts;
      }
      AckedStands(store.fan, store.disk, id);
      store.Perform(FlushFan(id), before, acts);
      acts := acts + [FlushFan(id)];
      return Ok(()), acts;
    }

    /** The bytes given become readable all at once, never over another segment's; on an error they are
        readable in full or not at all. They outlive a power loss if no flush of the root was outstanding. */
    method Commit(live: bool, fault: Fault, gone: bool, ghost body: Bytes)
      returns (r: Result<(), IoError>, ghost acts: seq<Act>)
      requires Intact(store.disk) && Has(body)
      modifies store`disk
      ensures Did(store.fan, old(store.disk), store.disk, acts) && id !in store.disk.writers
      ensures r.Ok? ==> Published(old(store.disk), store.disk, id, body)
      ensures r.Ok? && old(store.disk.safe == store.disk.fans) ==> Firm(store.fan, store.disk, id)
      ensures r.Err? ==> AllOrNothing(old(store.disk), store.disk, id, body)
      ensures fault.Sound? ==> (r.Ok? <==> live && id !in old(store.disk.names))
    {
      ghost var before := store.disk;
      r, acts := Prepare(live, fault, body);
      hide Did, Visible, Intact, Next, Firm;
      if r.Err? {
        acts := Drop(gone, before, acts);
      } else {
        r, acts := Publish(fault, gone, before, acts, body);
      }
    }
  }

  function Joined(chunks: seq<Bytes>): Bytes {
    if chunks == [] then [] else Joined(chunks[..|chunks| - 1]) + chunks[|chunks| - 1]
  }

  predicate NoFaults(faults: seq<Option<Bytes>>) {
    forall i :: 0 <= i < |faults| ==> faults[i].None?
  }

  /** The write loop: a body that arrives in chunks becomes readable whole under a new id, or not at all,
      wherever it is cut short: a chunk that never comes (`ends`), a write that fails, a failed commit. */
  method WriteStream(w: LocalWriter, chunks: seq<Bytes>, ends: bool, faults: seq<Option<Bytes>>, live: bool,
                     fault: Fault)
    returns (r: Result<nat, IoError>, ghost acts: seq<Act>)
    requires Intact(w.store.disk) && w.Has([]) && |faults| == |chunks|
    modifies w.store`disk
    ensures Did(w.store.fan, old(w.store.disk), w.store.disk, acts) && w.id !in w.store.disk.writers
    ensures r.Ok? ==> Published(old(w.store.disk), w.store.disk, w.id, Joined(chunks)) && r.value == |Joined(chunks)|
    ensures r.Err? ==> AllOrNothing(old(w.store.disk), w.store.disk, w.id, Joined(chunks))
    ensures ends && live && fault.Sound? && w.id !in old(w.store.disk.names) && NoFaults(faults) ==> r.Ok?
  {
    ghost var before := w.store.disk;
    DidNothing(w.store.fan, before);
    hide Did, Visible, Intact, Next;
    acts := [];
    var size := 0;
    for i := 0 to |chunks|
      invariant Did(w.store.fan, before, w.store.disk, acts) && Visible(w.store.disk) == Visible(before)
      invariant w.store.disk.names == before.names
      invariant w.Has(Joined(chunks[..i])) && size == |Joined(chunks[..i])|
    {
      assert chunks[..i + 1][..i] == chunks[..i];
      DidIntact(w.store.fan, before, w.store.disk, acts);
      ghost var mid, more := w.store.disk, [];
      var ok;
      ok, more := w.Write(chunks[i], faults[i], Joined(chunks[..i]));
      Extends(w.store.fan, before, mid, w.store.disk, acts, more);
      acts := acts + more;
      if !ok {
        acts := w.Drop(true, before, acts);
        return Err(Failed), acts;
      }
      size := size + |chunks[i]|;
    }
    assert chunks[..|chunks|] == chunks;
    if !ends {
      acts := w.Drop(true, before, acts);
      return Err(Failed), acts;
    }
    DidIntact(w.store.fan, before, w.store.disk, acts);
    ghost var mid, more := w.store.disk, [];
    var c;
    c, more := w.Commit(live, fault, true, Joined(chunks));
    Extends(w.store.fan, before, mid, w.store.disk, acts, more);
    acts := acts + more;
    r := if c.Ok? then Ok(size) else Err(c.error);
  }

  // ---- reading an object back ---------------------------------------------------------------

  /** Every segment is there, readable, and as long as the manifest says. */
  ghost predicate Serves(seen: map<SegId, Bytes>, segments: seq<SegRef>) {
    Readable(seen, segments) && forall i :: 0 <= i < |segments| ==> GoodId(segments[i].id)
  }

  /** The part of `body` in `[start, end)`. */
  function Part(body: Bytes, start: nat, end: nat): Bytes {
    if start < end && start < |body| then body[start..Min(end, |body|)] else []
  }

  lemma CutJoin(a: Bytes, b: Bytes, lo: nat, hi: nat)
    requires lo <= hi <= |a| + |b|
    ensures hi <= |a| ==> (a + b)[lo..hi] == a[lo..hi]
    ensures |a| <= lo ==> (a + b)[lo..hi] == b[lo - |a|..hi - |a|]
    ensures lo <= |a| <= hi ==> (a + b)[lo..hi] == a[lo..] + b[..hi - |a|]
  {}

  lemma PartOfJoin(a: Bytes, b: Bytes, start: nat, end: nat)
    ensures Part(a + b, start, end) == Part(a, start, end) + Slice(b, |a|, start, end)
  {
    if start < end && start < |a + b| {
      CutJoin(a, b, start, Min(end, |a + b|));
    }
  }

  lemma PartEnds(body: Bytes, start: nat, len: nat)
    requires |body| <= U64_MAX
    ensures Part(body, start, SatAdd(start, len)) == Part(body, start, start + len)
    ensures Part([], start, len) == []
  {}

  lemma Within(body: Bytes, start: nat, len: nat)
    ensures start + len <= |body| ==> Part(body, start, start + len) == body[start..start + len]
  {}

  /** How much of `[start, end)` lies below `size`. */
  function Covered(start: nat, end: nat, size: nat): nat {
    Monus(Min(end, size), start)
  }

  lemma CoveredEnds(start: nat, len: nat, size: nat)
    requires size <= U64_MAX
    ensures Covered(start, SatAdd(start, len), 0) == 0
    ensures Covered(start, SatAdd(start, len), size) == Covered(start, start + len, size)
  {}

  lemma CoveredGrows(start: nat, end: nat, pos: nat, size: nat)
    ensures Covered(start, end, pos + size) == Covered(start, end, pos) + Monus(Min(end, pos + size), Max(start, pos))
  {}

  /** What `[start, end)` covers of a segment that begins at `pos`. */
  function Slice(body: Bytes, pos: nat, start: nat, end: nat): Bytes {
    var lo, hi := Max(start, pos), Min(end, pos + |body|);
    if lo < hi then body[lo - pos..hi - pos] else []
  }

  method ReadSlice(store: LocalSegments, s: SegRef, pos: nat, start: nat, end: nat) returns (r: Result<Bytes, IoError>)
    requires pos + s.size <= U64_MAX
    ensures r.Ok? ==> |r.value| == Monus(Min(end, pos + s.size), Max(start, pos))
    ensures var seen := Visible(store.disk);
            GoodId(s.id) && s.id in seen && |seen[s.id]| == s.size ==> r == Ok(Slice(seen[s.id], pos, start, end))
  {
    var lo, hi := Max(start, pos), Min(end, pos + s.size);
    if lo >= hi { return Ok([]); }
    r := store.Read(s.id, lo - pos, hi - lo);
  }

  /** Streaming a range of an object: the plan walks the manifest and reads of each segment the part the
      range covers. The client gets exactly those bytes of the object; if a segment fails it, an error and
      never a shorter stream. */
  method Stream(store: LocalSegments, segments: seq<SegRef>, start: nat, len: nat) returns (r: Result<Bytes, IoError>)
    requires start <= U64_MAX && TotalSize(segments) <= U64_MAX
    ensures Serves(Visible(store.disk), segments) ==>
              r == Ok(Part(Content(Visible(store.disk), segments), start, start + len))
    ensures Serves(Visible(store.disk), segments) ==>
              var body := Content(Visible(store.disk), segments);
              start + len <= |body| ==> r == Ok(body[start..start + len])
    ensures r.Ok? ==> |r.value| == Covered(start, start + len, TotalSize(segments))
  {
    ghost var seen := Visible(store.disk);
    ghost var served := Serves(seen, segments);
    var end, pos, out := SatAdd(start, len), 0, [];
    PartEnds([], start, end);
    CoveredEnds(start, len, TotalSize(segments));
    hide Part, Slice, Visible, Covered, SatAdd, Monus, Max, Min;
    for i := 0 to |segments|
      invariant pos == TotalSize(segments[..i]) && |out| == Covered(start, end, pos)
      invariant served ==> Readable(seen, segments[..i]) && |Content(seen, segments[..i])| == pos
      invariant served ==> out == Part(Content(seen, segments[..i]), start, end)
    {
      var s := segments[i];
      assert segments[..i + 1][..i] == segments[..i];
      Partial(segments, i + 1);
      CoveredGrows(start, end, pos, s.size);
      if served {
        Grows(seen, segments, i);
        PartOfJoin(Content(seen, segments[..i]), seen[s.id], start, end);
      }
      var got := ReadSlice(store, s, pos, start, end);
      if got.Err? { return got; }
      out := out + got.value;
      pos := pos + s.size;
    }
    assert segments[..|segments|] == segments;
    if served {
      PartEnds(Content(seen, segments), start, len);
      Within(Content(seen, segments), start, len);
    }
    return Ok(out);
  }

  lemma Grows(disk: map<SegId, Bytes>, segments: seq<SegRef>, i: nat)
    requires i < |segments| && Readable(disk, segments)
    ensures Readable(disk, segments[..i]) && Readable(disk, segments[..i + 1])
    ensures Content(disk, segments[..i + 1]) == Content(disk, segments[..i]) + disk[segments[i].id]
  {
    assert segments[..i + 1][..i] == segments[..i];
  }

  lemma {:induction false} Partial(segments: seq<SegRef>, i: nat)
    requires i <= |segments|
    ensures TotalSize(segments[..i]) <= TotalSize(segments)
    decreases |segments| - i
  {
    if i < |segments| {
      Partial(segments, i + 1);
      assert segments[..i + 1][..i] == segments[..i];
    } else {
      assert segments[..i] == segments;
    }
  }
}
