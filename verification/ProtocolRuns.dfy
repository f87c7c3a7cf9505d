/** What the interleaved protocol guarantees over every run. */
module ProtocolRuns {
  import opened Common
  import opened Bytes
  import opened Keys
  import opened Tables
  import opened Lifecycle
  import opened ReferentialIntegrity
  import opened IndexRuns
  import opened Protocol

  const START := Store(EMPTY, {}, map[], map[], {}, {}, {}, map[])

  ghost predicate Runs(s: Store, events: seq<Event>)
    decreases |events|
  {
    events == [] || (Enabled(s, events[0]) && Runs(Step(s, events[0]), events[1..]))
  }

  ghost function End(s: Store, events: seq<Event>): Store
    requires Runs(s, events)
    decreases |events|
  {
    if events == [] then s else End(Step(s, events[0]), events[1..])
  }

  /** In every interleaving, with crashes anywhere, what the index references is on disk. */
  lemma {:induction false} EveryInterleaving(s: Store, events: seq<Event>)
    requires Safe(s) && Runs(s, events)
    ensures Safe(End(s, events))
    decreases |events|
  {
    if events != [] {
      StepSafe(s, events[0]);
      EveryInterleaving(Step(s, events[0]), events[1..]);
    }
  }

  lemma StartIsSafe()
    ensures Safe(START)
  {
    EmptyIsSound();
  }

  // ---- the bytes of an object ---------------------------------------------------

  ghost predicate Readable(disk: map<SegId, Body>, segments: seq<SegRef>) {
    forall i :: 0 <= i < |segments| ==> segments[i].id in disk && |disk[segments[i].id]| == segments[i].size
  }

  /** The object's bytes: its segments' bytes, in manifest order. */
  ghost function Content(disk: map<SegId, Body>, segments: seq<SegRef>): Body
    requires Readable(disk, segments)
  {
    if segments == [] then [] else
      Content(disk, segments[..|segments| - 1]) + disk[segments[|segments| - 1].id]
  }

  lemma {:induction false} ContentSize(disk: map<SegId, Body>, segments: seq<SegRef>)
    requires Readable(disk, segments)
    ensures |Content(disk, segments)| == TotalSize(segments)
  {
    if segments != [] { ContentSize(disk, segments[..|segments| - 1]); }
  }

  /** No torn objects: every object's bytes are all there, as many as its metadata says. */
  lemma ObjectsAreWhole(events: seq<Event>, k: Bytes)
    requires Runs(START, events) && k in End(START, events).db.objects
    ensures var s := End(START, events);
            && k in s.db.manifests && Readable(s.disk, s.db.manifests[k])
            && |Content(s.disk, s.db.manifests[k])| == s.db.objects[k].size
  {
    StartIsSafe();
    EveryInterleaving(START, events);
    var s := End(START, events);
    ManifestReadable(s, k);
    ContentSize(s.disk, s.db.manifests[k]);
  }

  lemma ManifestReadable(s: Store, k: Bytes)
    requires Safe(s) && k in s.db.manifests
    ensures Readable(s.disk, s.db.manifests[k])
  {
    var segments := s.db.manifests[k];
    forall i | 0 <= i < |segments| ensures segments[i].id in s.disk && |s.disk[segments[i].id]| == segments[i].size {
      assert RefAt(s.db, InManifest(k, i), segments[i]);
    }
  }

  // ---- completing an upload --------------------------------------------------------

  ghost predicate AllStagedOnDisk(db: Db, disk: map<SegId, Body>, uploadId: Bytes, numbers: seq<u32>) {
    forall i :: 0 <= i < |numbers| ==>
      var k := PartKey(uploadId, numbers[i]);
      k in db.parts && db.parts[k].segment in disk && |disk[db.parts[k].segment]| == db.parts[k].size
  }

  /** The bytes of the listed parts, one after the other. */
  ghost function ListedBytes(db: Db, disk: map<SegId, Body>, uploadId: Bytes, numbers: seq<u32>): Body
    requires AllStagedOnDisk(db, disk, uploadId, numbers)
  {
    if numbers == [] then [] else
      var n := |numbers| - 1;
      ListedBytes(db, disk, uploadId, numbers[..n]) + disk[db.parts[PartKey(uploadId, numbers[n])].segment]
  }

  lemma {:induction false} RefsAreListed(db: Db, disk: map<SegId, Body>, uploadId: Bytes, numbers: seq<u32>)
    requires AllStagedOnDisk(db, disk, uploadId, numbers)
    requires forall k :: k in PartKeys(uploadId, numbers) ==> k in db.parts
    ensures var refs := Refs(db.parts, PartKeys(uploadId, numbers));
            Readable(disk, refs) && Content(disk, refs) == ListedBytes(db, disk, uploadId, numbers)
  {
    var refs := Refs(db.parts, PartKeys(uploadId, numbers));
    if numbers != [] {
      var n := |numbers| - 1;
      RefsAreListed(db, disk, uploadId, numbers[..n]);
      assert refs[..n] == Refs(db.parts, PartKeys(uploadId, numbers[..n]));
    }
  }

  lemma ListedAreOnDisk(db: Db, disk: map<SegId, Body>, uploadId: Bytes, numbers: seq<u32>)
    requires OnDisk(db, disk) && BadPart(db.parts, uploadId, numbers, |numbers|).None?
    ensures AllStagedOnDisk(db, disk, uploadId, numbers)
  {
    NoBadPart(db.parts, uploadId, numbers, |numbers|);
    forall i | 0 <= i < |numbers|
      ensures var k := PartKey(uploadId, numbers[i]);
              k in db.parts && db.parts[k].segment in disk && |disk[db.parts[k].segment]| == db.parts[k].size
    {
      var k := PartKey(uploadId, numbers[i]);
      assert PartKeys(uploadId, numbers)[i] == k;
      assert RefAt(db, InPart(k), RefOf(db.parts[k]));
    }
  }

  /** A completed upload is the listed parts' bytes, in listed order, and its size is their number. */
  lemma CompletedObject(db: Db, disk: map<SegId, Body>, bucket: Bytes, key: Bytes, uploadId: Bytes,
                        numbers: seq<u32>, now: nat)
    requires OnDisk(db, disk) && CompleteUpload(db, bucket, key, uploadId, numbers, now).Commit?
    ensures var o := CompleteUpload(db, bucket, key, uploadId, numbers, now);
            var k := ObjKey(bucket, key);
            && AllStagedOnDisk(db, disk, uploadId, numbers)
            && k in o.db.manifests && k in o.db.objects && o.db.objects[k] == o.value.0
            && Readable(disk, o.db.manifests[k])
            && Content(disk, o.db.manifests[k]) == ListedBytes(db, disk, uploadId, numbers)
            && o.value.0.size == |ListedBytes(db, disk, uploadId, numbers)|
  {
    NoBadPart(db.parts, uploadId, numbers, |numbers|);
    ListedAreOnDisk(db, disk, uploadId, numbers);
    RefsAreListed(db, disk, uploadId, numbers);
    ContentSize(disk, Refs(db.parts, PartKeys(uploadId, numbers)));
  }

  lemma UploadIdIsClean(db: Db, bucket: Bytes, uploadId: Bytes)
    requires Integrity(db) && bucket in db.buckets && UploadKey(bucket, uploadId) in db.uploads
    ensures NoNul(bucket) && NoNul(uploadId)
  {
    SplitJoined(bucket, uploadId);
    assert UploadOk(db.buckets, UploadKey(bucket, uploadId));
  }

  lemma AssembleLeavesNothing(db: Db, bucket: Bytes, uploadId: Bytes, listed: seq<Bytes>, meta: ObjectMeta, now: nat)
    requires Integrity(db) && NoNul(bucket) && NoNul(uploadId) && forall k :: k in listed ==> k in db.parts
    ensures var db' := Assemble(db, bucket, uploadId, listed, meta, now);
            && UploadKey(bucket, uploadId) !in db'.uploads
            && (forall pk :: pk in db'.parts ==> Head(pk) != uploadId)
  {
    FewerParts(db, Elems(listed));
    DropUploadKeeps(Taken(db, listed), bucket, uploadId, now);
  }

  /** A complete leaves no row of the upload. */
  lemma CompletedLeavesNothing(db: Db, bucket: Bytes, key: Bytes, uploadId: Bytes, numbers: seq<u32>, now: nat)
    requires Integrity(db) && CompleteUpload(db, bucket, key, uploadId, numbers, now).Commit?
    ensures var o := CompleteUpload(db, bucket, key, uploadId, numbers, now);
            && UploadKey(bucket, uploadId) !in o.db.uploads
            && (forall pk :: pk in o.db.parts ==> Head(pk) != uploadId)
  {
    UploadIdIsClean(db, bucket, uploadId);
    NoBadPart(db.parts, uploadId, numbers, |numbers|);
    AssembleLeavesNothing(db, bucket, uploadId, PartKeys(uploadId, numbers),
                          CompleteUpload(db, bucket, key, uploadId, numbers, now).value.0, now);
  }

  /** A part of the upload that is not listed. */
  ghost predicate Unlisted(db: Db, uploadId: Bytes, listed: seq<Bytes>, id: SegId) {
    exists pk :: pk in db.parts && Head(pk) == uploadId && pk !in listed && db.parts[pk].segment == id
  }

  lemma StagedIsUnlisted(db: Db, uploadId: Bytes, listed: seq<Bytes>, id: SegId)
    requires Integrity(db) && NoNul(uploadId)
    ensures id in Staged(Taken(db, listed), uploadId) <==> Unlisted(db, uploadId, listed, id)
  {
    var taken := Taken(db, listed);
    FewerParts(db, Elems(listed));
    forall pk | pk in taken.parts ensures pk in InRangeOf(taken.parts, uploadId) <==> Head(pk) == uploadId {
      PartRange(taken, uploadId, pk);
    }
    StagedMeans(taken, uploadId, id);
    if pk :| pk in db.parts && Head(pk) == uploadId && pk !in listed && db.parts[pk].segment == id {
      assert pk in InRangeOf(taken.parts, uploadId);
    }
  }

  /** What it retires is exactly the unlisted parts and the segments of the object it replaced. */
  lemma CompletedRetires(db: Db, bucket: Bytes, key: Bytes, uploadId: Bytes, numbers: seq<u32>, now: nat, id: SegId)
    requires Integrity(db) && CompleteUpload(db, bucket, key, uploadId, numbers, now).Commit?
    ensures id in CompleteUpload(db, bucket, key, uploadId, numbers, now).value.1 <==>
              id in Replaced(db, ObjKey(bucket, key)) || Unlisted(db, uploadId, PartKeys(uploadId, numbers), id)
  {
    UploadIdIsClean(db, bucket, uploadId);
    StagedIsUnlisted(db, uploadId, PartKeys(uploadId, numbers), id);
  }

  lemma StagedMeans(db: Db, uploadId: Bytes, id: SegId)
    ensures id in Staged(db, uploadId) <==>
              exists pk :: pk in InRangeOf(db.parts, uploadId) && db.parts[pk].segment == id
  {
    if id in Staged(db, uploadId) {
      var i :| 0 <= i < |Staged(db, uploadId)| && Staged(db, uploadId)[i] == id;
      StagedAt(db, uploadId, i);
    }
    if pk :| pk in InRangeOf(db.parts, uploadId) && db.parts[pk].segment == id {
      AllStaged(db, uploadId, pk);
    }
  }

  // ---- readers ------------------------------------------------------------------------

  /** Bytes on disk never change; they are only linked once and deleted. */
  lemma BytesAreImmutable(s: Store, e: Event, id: SegId)
    requires Enabled(s, e) && id in s.disk && id in Step(s, e).disk
    ensures Step(s, e).disk[id] == s.disk[id]
  {}

  lemma {:induction false} SameContent(disk: map<SegId, Body>, disk': map<SegId, Body>, segments: seq<SegRef>)
    requires Readable(disk, segments) && Readable(disk', segments)
    requires forall i :: 0 <= i < |segments| ==> disk'[segments[i].id] == disk[segments[i].id]
    ensures Content(disk', segments) == Content(disk, segments)
  {
    if segments != [] { SameContent(disk, disk', segments[..|segments| - 1]); }
  }

  ghost predicate Reads(s: Store, r: nat, segments: seq<SegRef>) {
    r in s.readers && s.readers[r].Confirmed? && s.readers[r].segments == segments
  }

  lemma ReadsMeans(s: Store, r: nat, segments: seq<SegRef>)
    requires Safe(s) && Reads(s, r, segments)
    ensures Readable(s.disk, segments)
  {
    assert ReaderOk(s.disk, s.cleared, s.readers[r]);
  }

  lemma ReaderStays(s: Store, e: Event, r: nat, segments: seq<SegRef>)
    requires Enabled(s, e) && Reads(s, r, segments) && e != Release(r) && e != Crash
    ensures Reads(Step(s, e), r, segments)
  {}

  /** A GET that confirmed its manifest keeps seeing those very bytes until it is done, whatever is
      overwritten, deleted and swept meanwhile. */
  lemma {:induction false} ReaderKeepsItsBytes(s: Store, events: seq<Event>, r: nat, segments: seq<SegRef>)
    requires Safe(s) && Runs(s, events) && Reads(s, r, segments) && Readable(s.disk, segments)
    requires Release(r) !in events && Crash !in events
    ensures Reads(End(s, events), r, segments) && Readable(End(s, events).disk, segments)
    ensures Content(End(s, events).disk, segments) == Content(s.disk, segments)
    decreases |events|
  {
    if events != [] {
      var e, t := events[0], Step(s, events[0]);
      StepSafe(s, e);
      ReaderStays(s, e, r, segments);
      ReadsMeans(t, r, segments);
      forall i | 0 <= i < |segments| ensures t.disk[segments[i].id] == s.disk[segments[i].id] {
        BytesAreImmutable(s, e, segments[i].id);
      }
      SameContent(s.disk, t.disk, segments);
      ReaderKeepsItsBytes(t, events[1..], r, segments);
    }
  }

  // ---- nothing on disk is lost ----------------------------------------------------------

  /** Everything on disk is pending, referenced or garbage: the sweeper will find what is dead. */
  ghost predicate Accounted(s: Store) {
    forall id :: id in s.disk ==> Tracked(s.db, id)
  }

  /** Exactly two steps can leak a file: linking bytes whose id was already forgotten, and forgetting
      an id whose file a slow writer linked after the delete. */
  lemma LeaksExactly(s: Store, e: Event)
    requires Safe(s) && Enabled(s, e) && Accounted(s)
    ensures Accounted(Step(s, e)) <==>
              !(e.LinkBytes? && !Tracked(s.db, e.id)) &&
              !(e.ForgetGone? && exists id :: id in e.ids && id in s.disk)
  {
    var t := Step(s, e);
    if e.LinkBytes? {
      assert e.id in t.disk;
    } else if e.ForgetGone? {
      ForgetLeaks(s, e.ids);
    } else if OpOf(s, e).Some? {
      OpIsLegal(s, e);
      StepExclusive(s.db, s.ever, OpOf(s, e).value);
      OpTouches(s, e);
    }
  }

  lemma ForgetLeaks(s: Store, ids: seq<SegId>)
    requires Safe(s) && Enabled(s, ForgetGone(ids)) && Accounted(s)
    ensures Accounted(Step(s, ForgetGone(ids))) <==> !exists id :: id in ids && id in s.disk
  {
    var t := Step(s, ForgetGone(ids));
    SameSlots(s.db, t.db);
    SameSlots(t.db, s.db);
    forall id | id in ids ensures !Tracked(t.db, id) {
      assert id in s.held + s.cleared + s.gone;
    }
  }

  /** No writer outlives the orphan age: a writer still streaming has its id pending, and files the
      reclaimers deleted stay deleted. */
  ghost predicate Punctual(s: Store) {
    && (forall id :: id in s.writers && s.writers[id].None? ==> id in s.db.pending)
    && s.gone !! s.disk.Keys
  }

  /** The sweeper's clock does not run past a writer that is still streaming. */
  ghost predicate Timely(s: Store, e: Event) {
    e.Transact? && e.op.OpClaimDue? ==>
      forall id :: id in Stale(s.db.pending, e.op.now) ==> !(id in s.writers && s.writers[id].None?)
  }

  lemma {:induction false} DropStalePending(db: Db, ks: seq<Bytes>, now: nat, retired: Retired, aborted: nat)
    ensures DropStale(db, ks, now, retired, aborted).0.pending == db.pending
    decreases |ks|
  {
    if ks != [] && |retired| < SWEEP_PART_ROWS {
      if NoNul(ks[0]) {
        DropStalePending(db, ks[1..], now, retired, aborted);
      } else {
        var bucket, uploadId := Head(ks[0]), Tail(ks[0]);
        DropStalePending(DropUpload(db, bucket, uploadId, now), ks[1..], now, retired + Staged(db, uploadId),
                         aborted + 1);
      }
    }
  }

  lemma CompletePending(db: Db, bucket: Bytes, key: Bytes, uploadId: Bytes, numbers: seq<u32>, now: nat)
    ensures CompleteUpload(db, bucket, key, uploadId, numbers, now).After(db).pending == db.pending
  {}

  lemma UploadOpPending(db: Db, op: Op)
    requires op.OpCreateUpload? || op.OpAbortUpload?
    ensures Exec(db, op).pending == db.pending
  {}

  lemma BucketOpPending(db: Db, op: Op)
    requires op.OpCreateBucket? || op.OpEnsureBucket? || op.OpDeleteBucket? || op.OpSetCors? || op.OpDeleteObject?
    ensures Exec(db, op).pending == db.pending
  {}

  lemma ClaimPending(db: Db, op: Op)
    requires op.OpClaimDue?
    ensures Exec(db, op).pending == db.pending - Stale(db.pending, op.now)
  {}

  lemma StandalonePending(db: Db, op: Op)
    requires Standalone(op)
    ensures Exec(db, op).pending == if op.OpClaimDue? then db.pending - Stale(db.pending, op.now) else db.pending
  {
    hide FirstStale, DropStale, Stale, CompleteUpload, CreateUpload, AbortUpload, ClaimDue;
    hide CreateBucket, EnsureBucket, DeleteBucket, SetCors, DeleteObject;
    if op.OpAbortBefore? {
      DropStalePending(db, FirstStale(db.uploads, op.threshold, op.limit), op.now, [], 0);
    } else if op.OpComplete? {
      CompletePending(db, op.bucket, op.key, op.uploadId, op.numbers, op.now);
    } else if op.OpCreateUpload? || op.OpAbortUpload? {
      UploadOpPending(db, op);
    } else if op.OpClaimDue? {
      ClaimPending(db, op);
    } else {
      BucketOpPending(db, op);
    }
  }

  lemma PutTakesItsOwn(db: Db, bucket: Bytes, row: ObjectRow, id: SegId, now: nat)
    requires Ids(row.segments) == [id]
    ensures CommitObjects(db, bucket, [row], now).After(db).pending in [db.pending, db.pending - {id}]
  {
    hide Stamp, Replaced, ObjKey;
    assert [row][..0] == [] && CommitRows(db, bucket, [], now) == Commit(db, []);
    assert Elems([id]) == {id};
  }

  lemma PartTakesItsOwn(db: Db, bucket: Bytes, uploadId: Bytes, part: u32, row: PartRow, now: nat)
    ensures var pending := CommitPart(db, bucket, uploadId, part, row, now).After(db).pending;
            pending == db.pending || pending == db.pending - {row.segment}
  {
    hide Stamp, RequireUpload, PartKey;
  }

  /** A commit takes no pending id but its own. */
  lemma CommitTakesItsOwn(s: Store, e: Event)
    requires Enabled(s, e) && (e.PutRow? || e.PartRowOf?)
    ensures forall id :: id in s.db.pending && id != e.id ==> id in Step(s, e).db.pending
  {
    hide CommitObjects, CommitPart;
    if e.PutRow? {
      var row := RowFor(e.meta, e.id, s.writers[e.id].value);
      assert Ids(row.segments) == [e.id];
      PutTakesItsOwn(s.db, e.bucket, row, e.id, e.now);
    } else {
      PartTakesItsOwn(s.db, e.bucket, e.uploadId, e.part, PartRow(e.id, |s.writers[e.id].value|, e.md5), e.now);
    }
  }

  lemma PunctualStep(s: Store, e: Event)
    requires Safe(s) && Punctual(s) && Enabled(s, e) && Timely(s, e)
    ensures Punctual(Step(s, e))
  {
    if OpOf(s, e).Some? {
      PunctualOp(s, e);
    } else if e.LinkBytes? {
      PunctualLink(s, e.id, e.body);
    } else {
      var t := Step(s, e);
      assert t.db == s.db && forall id :: id in t.writers ==> id in s.writers && t.writers[id] == s.writers[id];
    }
  }

  lemma PunctualLink(s: Store, id: SegId, body: Body)
    requires Safe(s) && Punctual(s) && Enabled(s, LinkBytes(id, body))
    ensures Punctual(Step(s, LinkBytes(id, body)))
  {
    assert id !in s.held + s.cleared + s.gone;
  }

  lemma PunctualOp(s: Store, e: Event)
    requires Punctual(s) && Enabled(s, e) && Timely(s, e) && OpOf(s, e).Some?
    ensures Punctual(Step(s, e))
  {
    var t := Step(s, e);
    OpTouches(s, e);
    forall id | id in t.writers && t.writers[id].None? ensures id in t.db.pending {
      StaysPending(s, e, id);
    }
  }

  lemma StaysPending(s: Store, e: Event, id: SegId)
    requires Punctual(s) && Enabled(s, e) && Timely(s, e) && OpOf(s, e).Some?
    requires id in Step(s, e).writers && Step(s, e).writers[id].None?
    ensures id in Step(s, e).db.pending
  {
    if e.Transact? {
      StandalonePending(s.db, e.op);
    } else if e.PutRow? || e.PartRowOf? {
      CommitTakesItsOwn(s, e);
    }
  }

  /** If no writer outlives the orphan age, nothing is ever left on disk that the index has lost. */
  lemma {:induction false} NothingLeaks(s: Store, events: seq<Event>)
    requires Safe(s) && Punctual(s) && Accounted(s) && Runs(s, events) && AllTimely(s, events)
    ensures Accounted(End(s, events))
    decreases |events|
  {
    if events != [] {
      StepSafe(s, events[0]);
      PunctualStep(s, events[0]);
      LeaksExactly(s, events[0]);
      NothingLeaks(Step(s, events[0]), events[1..]);
    }
  }

  ghost predicate AllTimely(s: Store, events: seq<Event>)
    requires Runs(s, events)
    decreases |events|
  {
    events == [] || (Timely(s, events[0]) && AllTimely(Step(s, events[0]), events[1..]))
  }

  /** Some run from here leaves a file the index has lost. */
  ghost predicate CanLeak(s: Store) {
    exists events :: Runs(s, events) && !Accounted(End(s, events))
  }

  lemma CanLeakBefore(s: Store, e: Event)
    requires Enabled(s, e) && CanLeak(Step(s, e))
    ensures CanLeak(s)
  {
    var rest :| Runs(Step(s, e), rest) && !Accounted(End(Step(s, e), rest));
    assert ([e] + rest)[1..] == rest;
    assert Runs(s, [e] + rest);
  }

  const SLOW: SegId := [97]

  function Slow(pending: map<SegId, nat>, garbage: map<SegId, nat>, held: set<SegId>, cleared: set<SegId>,
                gone: set<SegId>): Store {
    Store(EMPTY.(pending := pending, garbage := garbage), {SLOW}, map[], map[SLOW := None], held, cleared, gone, map[])
  }

  lemma SlowBegins()
    ensures Enabled(START, BeginWrite(SLOW, 0))
    ensures Step(START, BeginWrite(SLOW, 0)) == Slow(map[SLOW := 0], map[], {}, {}, {})
  {
    assert Elems([SLOW]) == {SLOW};
    assert Stamp(map[], {SLOW}, 0) == map[SLOW := 0];
  }

  lemma SlowIsClaimed()
    ensures var s, e := Slow(map[SLOW := 0], map[], {}, {}, {}), Transact(OpClaimDue(PENDING_ORPHAN_AGE, 1));
            Enabled(s, e) && Step(s, e) == Slow(map[], map[SLOW := PENDING_ORPHAN_AGE], {SLOW}, {}, {})
  {
    var pending: map<SegId, nat> := map[SLOW := 0];
    assert Stale(pending, PENDING_ORPHAN_AGE) == {SLOW};
    assert pending - {SLOW} == map[];
    assert Stamp(map[], {SLOW}, PENDING_ORPHAN_AGE) == map[SLOW := PENDING_ORPHAN_AGE];
    var due := Ascending({SLOW});
    assert |due| == 1 && due[0] in due;
    assert Elems(due[..1]) == {SLOW};
  }

  lemma SlowIsDeleted()
    ensures var s := Slow(map[], map[SLOW := PENDING_ORPHAN_AGE], {SLOW}, {}, {});
            var t := Slow(map[], map[SLOW := PENDING_ORPHAN_AGE], {SLOW}, {SLOW}, {});
            && Enabled(s, CheckPin(SLOW)) && Step(s, CheckPin(SLOW)) == t
            && Enabled(t, DeleteBytes(SLOW))
            && Step(t, DeleteBytes(SLOW)) == Slow(map[], map[SLOW := PENDING_ORPHAN_AGE], {SLOW}, {}, {SLOW})
  {}

  lemma SlowIsForgotten()
    ensures var s := Slow(map[], map[SLOW := PENDING_ORPHAN_AGE], {SLOW}, {}, {SLOW});
            Enabled(s, ForgetGone([SLOW])) && Step(s, ForgetGone([SLOW])) == Slow(map[], map[], {SLOW}, {}, {})
  {
    assert Elems([SLOW]) == {SLOW} && Elems<SegId>([]) == {};
  }

  lemma SlowLinks()
    ensures var s := Slow(map[], map[], {SLOW}, {}, {});
            Enabled(s, LinkBytes(SLOW, [])) && !Accounted(Step(s, LinkBytes(SLOW, [])))
  {
    var t := Step(Slow(map[], map[], {SLOW}, {}, {}), LinkBytes(SLOW, []));
    forall slot ensures !HoldsAt(t.db, slot, SLOW) {}
    assert SLOW in t.disk && !Tracked(t.db, SLOW);
  }

  /** Without that, a file can be lost: a writer claimed as stale after twelve hours links its bytes
      once its id has been deleted and forgotten. */
  lemma SlowWriterLeaks()
    ensures CanLeak(START)
  {
    var garbage: map<SegId, nat> := map[SLOW := PENDING_ORPHAN_AGE];
    var linked := Step(Slow(map[], map[], {SLOW}, {}, {}), LinkBytes(SLOW, []));
    SlowLinks();
    assert Runs(linked, []) && End(linked, []) == linked;
    CanLeakBefore(Slow(map[], map[], {SLOW}, {}, {}), LinkBytes(SLOW, []));
    SlowIsForgotten();
    CanLeakBefore(Slow(map[], garbage, {SLOW}, {}, {SLOW}), ForgetGone([SLOW]));
    SlowIsDeleted();
    CanLeakBefore(Slow(map[], garbage, {SLOW}, {SLOW}, {}), DeleteBytes(SLOW));
    CanLeakBefore(Slow(map[], garbage, {SLOW}, {}, {}), CheckPin(SLOW));
    SlowIsClaimed();
    CanLeakBefore(Slow(map[SLOW := 0], map[], {}, {}, {}), Transact(OpClaimDue(PENDING_ORPHAN_AGE, 1)));
    SlowBegins();
    CanLeakBefore(START, BeginWrite(SLOW, 0));
  }
}
