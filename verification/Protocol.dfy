/** Writers, deleters, the sweeper and readers taking turns on one store, with a crash between any
    two steps. The index transactions are those of `Tables`; the byte store is a second map. */
module Protocol {
  import opened Common
  import opened Bytes
  import opened Keys
  import opened Tables
  import opened Lifecycle
  import opened ReferentialIntegrity
  import opened IndexRuns

  type Body = Bytes

  /** A GET: manifest looked up, then pinned, then confirmed against the index. */
  datatype Reader =
    | Looked(k: Bytes, segments: seq<SegRef>)
    | Pinned(k: Bytes, segments: seq<SegRef>)
    | Confirmed(k: Bytes, segments: seq<SegRef>)

  datatype Store = Store(
    db: Db,
    ever: set<SegId>,
    disk: map<SegId, Body>,
    /** Running writers, by the id each holds: its bytes, once they are linked into place. */
    writers: map<SegId, Option<Body>>,
    /** Ids handed to a reclaim task; past its pin check; past its delete. */
    held: set<SegId>,
    cleared: set<SegId>,
    gone: set<SegId>,
    readers: map<nat, Reader>)

  datatype Event =
    | BeginWrite(id: SegId, now: nat)
    | LinkBytes(id: SegId, body: Body)
    | PutRow(id: SegId, bucket: Bytes, meta: ObjectMeta, now: nat, cancelled: bool)
    | PartRowOf(id: SegId, bucket: Bytes, uploadId: Bytes, part: u32, md5: Bytes, now: nat, cancelled: bool)
    | Discard(id: SegId, now: nat)
    | Transact(op: Op)
    | CheckPin(id: SegId)
    | DeleteBytes(id: SegId)
    | ForgetGone(ids: seq<SegId>)
    | Look(r: nat, k: Bytes)
    | Pin(r: nat)
    | Confirm(r: nat)
    | Release(r: nat)
    | Crash

  ghost predicate IsPinned(readers: map<nat, Reader>, id: SegId) {
    exists r :: r in readers && !readers[r].Looked? && id in Ids(readers[r].segments)
  }

  /** Transactions a request or the sweeper runs without a pending segment of its own. */
  predicate Standalone(op: Op) {
    !op.OpAddPending? && !op.OpDiscardPending? && !op.OpForget? && !op.OpCommitObjects? && !op.OpCommitPart?
  }

  ghost predicate Enabled(s: Store, e: Event) {
    match e
    case BeginWrite(id, _) => id !in s.ever
    case LinkBytes(id, _) => id in s.writers && s.writers[id].None? && id !in s.disk
    case PutRow(id, _, _, _, _) => id in s.writers && s.writers[id].Some?
    case PartRowOf(id, _, _, _, _, _, _) => id in s.writers && s.writers[id].Some?
    case Discard(id, _) => id in s.writers
    case Transact(op) => Standalone(op) && Legal(s.db, s.ever, op)
    case CheckPin(id) => id in s.held && !IsPinned(s.readers, id)
    case DeleteBytes(id) => id in s.cleared
    case ForgetGone(ids) => Elems(ids) <= s.gone
    case Look(r, k) => r !in s.readers && k in s.db.manifests
    case Pin(r) => r in s.readers && s.readers[r].Looked?
    case Confirm(r) => r in s.readers && s.readers[r].Pinned? && s.readers[r].k in s.db.manifests
    case Release(r) => r in s.readers
    case Crash => true
  }

  /** The row a PUT commits: one segment, as long as the bytes it wrote. */
  function RowFor(meta: ObjectMeta, id: SegId, body: Body): ObjectRow {
    ObjectRow(meta.(size := |body|), [SegRef(id, |body|)])
  }

  /** The index transaction a step runs, if any. */
  ghost function OpOf(s: Store, e: Event): Option<Op>
    requires Enabled(s, e)
  {
    match e
    case BeginWrite(id, now) => Some(OpAddPending([id], now))
    case PutRow(id, bucket, meta, now, _) => Some(OpCommitObjects(bucket, [RowFor(meta, id, s.writers[id].value)], now))
    case PartRowOf(id, bucket, uploadId, part, md5, now, _) =>
      Some(OpCommitPart(bucket, uploadId, part, PartRow(id, |s.writers[id].value|, md5), now))
    case Discard(id, now) => Some(OpDiscardPending([id], now))
    case Transact(op) => Some(op)
    case ForgetGone(ids) => Some(OpForget(ids))
    case _ => None
  }

  /** The ids a transaction hands to a reclaim task: what it retired, or what the sweeper claimed. */
  ghost function ToReclaim(db: Db, op: Op): seq<SegId> {
    if op.OpClaimDue? then ClaimDue(db, op.now, op.limit).value else RetiredBy(db, op)
  }

  /** What a restart finds: the index and the byte store, and nothing running. */
  function Crashed(s: Store): Store {
    Store(s.db, s.ever, s.disk, map[], {}, {}, {}, map[])
  }

  /** The step's effect on everything but the index. A cancelled request's writer stays around: its
      discard can come after the commit. */
  ghost function Rest(s: Store, e: Event): Store
    requires Enabled(s, e)
  {
    match e
    case BeginWrite(id, _) => s.(writers := s.writers[id := None])
    case LinkBytes(id, body) => s.(disk := s.disk[id := body], writers := s.writers[id := Some(body)])
    case PutRow(id, _, _, _, cancelled) => if cancelled then s else s.(writers := s.writers - {id})
    case PartRowOf(id, _, _, _, _, _, cancelled) => if cancelled then s else s.(writers := s.writers - {id})
    case Discard(id, _) => s.(writers := s.writers - {id})
    case Transact(_) => s
    case CheckPin(id) => s.(cleared := s.cleared + {id})
    case DeleteBytes(id) => s.(disk := s.disk - {id}, cleared := s.cleared - {id}, gone := s.gone + {id})
    case ForgetGone(ids) => s.(gone := s.gone - Elems(ids))
    case Look(r, k) => s.(readers := s.readers[r := Looked(k, s.db.manifests[k])])
    case Pin(r) => s.(readers := s.readers[r := Pinned(s.readers[r].k, s.readers[r].segments)])
    case Confirm(r) =>
      var Pinned(k, segments) := s.readers[r];
      var now := s.db.manifests[k];
      s.(readers := s.readers[r := if now == segments then Confirmed(k, segments) else Looked(k, now)])
    case Release(r) => s.(readers := s.readers - {r})
    case Crash => Crashed(s)
  }

  ghost function Step(s: Store, e: Event): Store
    requires Enabled(s, e)
  {
    var t := Rest(s, e);
    match OpOf(s, e)
    case None => t
    case Some(op) =>
      t.(db := Exec(s.db, op), ever := Grow(s.ever, op), held := t.held + Elems(ToReclaim(s.db, op)))
  }

  // ---- what every step keeps ------------------------------------------------

  /** The row at `slot` names `ref.id`, at that size. */
  ghost predicate RefAt(db: Db, slot: Slot, ref: SegRef) {
    match slot
    case InManifest(k, i) => k in db.manifests && i < |db.manifests[k]| && db.manifests[k][i] == ref
    case InPart(k) => k in db.parts && RefOf(db.parts[k]) == ref
  }

  /** Every segment the index references has its bytes on disk, all of them. */
  ghost predicate OnDisk(db: Db, disk: map<SegId, Body>) {
    forall slot, ref :: RefAt(db, slot, ref) ==> ref.id in disk && |disk[ref.id]| == ref.size
  }

  ghost predicate SizesAgree(db: Db) {
    forall k :: k in db.objects && k in db.manifests ==> db.objects[k].size == TotalSize(db.manifests[k])
  }

  /** A writer that linked its bytes still finds them, for as long as its id is pending. */
  ghost predicate WritersOk(db: Db, ever: set<SegId>, disk: map<SegId, Body>, writers: map<SegId, Option<Body>>) {
    forall id :: id in writers ==>
      id in ever && (id in db.pending && writers[id].Some? ==> id in disk && disk[id] == writers[id].value)
  }

  /** Never to be referenced again. */
  ghost predicate Dead(db: Db, ever: set<SegId>, ids: set<SegId>) {
    forall id :: id in ids ==> id in ever && id !in db.pending && !Referenced(db, id)
  }

  /** A confirmed reader's segments are on disk and no delete is on its way to them. */
  ghost predicate ReaderOk(disk: map<SegId, Body>, cleared: set<SegId>, reader: Reader) {
    reader.Confirmed? ==> forall i :: 0 <= i < |reader.segments| ==>
      var seg := reader.segments[i]; seg.id in disk && |disk[seg.id]| == seg.size && seg.id !in cleared
  }

  ghost predicate ReadersOk(disk: map<SegId, Body>, cleared: set<SegId>, readers: map<nat, Reader>) {
    forall r :: r in readers ==> ReaderOk(disk, cleared, readers[r])
  }

  ghost predicate Safe(s: Store) {
    && Sound(s.db, s.ever)
    && OnDisk(s.db, s.disk)
    && SizesAgree(s.db)
    && WritersOk(s.db, s.ever, s.disk, s.writers)
    && Dead(s.db, s.ever, s.held + s.cleared + s.gone)
    && ReadersOk(s.disk, s.cleared, s.readers)
  }

  // ---- sizes through a transaction -------------------------------------------

  /** Every reference in `db'` was one in `db`, at the same size. */
  ghost predicate Carries(db: Db, db': Db) {
    forall slot, ref :: RefAt(db', slot, ref) ==> exists t :: RefAt(db, t, ref)
  }

  ghost predicate Fewer(db: Db, db': Db) {
    && (forall k :: k in db'.manifests ==> k in db.manifests && db'.manifests[k] == db.manifests[k])
    && (forall k :: k in db'.parts ==> k in db.parts && db'.parts[k] == db.parts[k])
    && (forall k :: k in db'.objects ==> k in db.objects && db'.objects[k] == db.objects[k])
  }

  lemma FewerCarries(db: Db, db': Db)
    requires Fewer(db, db')
    ensures Carries(db, db')
    ensures SizesAgree(db) ==> SizesAgree(db')
  {
    forall slot, ref | RefAt(db', slot, ref) ensures exists t :: RefAt(db, t, ref) {
      assert RefAt(db, slot, ref);
    }
  }

  lemma {:induction false} DropStaleFewer(db: Db, ks: seq<Bytes>, now: nat, retired: Retired, aborted: nat)
    ensures Fewer(db, DropStale(db, ks, now, retired, aborted).0)
    decreases |ks|
  {
    if ks != [] && |retired| < SWEEP_PART_ROWS {
      if NoNul(ks[0]) {
        DropStaleFewer(db, ks[1..], now, retired, aborted);
      } else {
        var bucket, uploadId := Head(ks[0]), Tail(ks[0]);
        DropStaleFewer(DropUpload(db, bucket, uploadId, now), ks[1..], now, retired + Staged(db, uploadId),
                       aborted + 1);
      }
    }
  }

  lemma AssembleCarries(db: Db, bucket: Bytes, uploadId: Bytes, listed: seq<Bytes>, meta: ObjectMeta, now: nat)
    requires forall k :: k in listed ==> k in db.parts
    requires SizesAgree(db) && meta.size == TotalSize(Refs(db.parts, listed))
    ensures Carries(db, Assemble(db, bucket, uploadId, listed, meta, now))
    ensures SizesAgree(Assemble(db, bucket, uploadId, listed, meta, now))
  {
    var db' := Assemble(db, bucket, uploadId, listed, meta, now);
    var k := ObjKey(bucket, meta.key);
    forall slot, ref | RefAt(db', slot, ref) ensures exists t :: RefAt(db, t, ref) {
      if slot.InManifest? && slot.k == k {
        assert listed[slot.i] in listed;
        assert RefAt(db, InPart(listed[slot.i]), ref);
      } else {
        assert RefAt(db, slot, ref);
      }
    }
  }

  /** No transaction but a commit or a complete adds a row that names a segment. */
  lemma MostOpsFewer(db: Db, op: Op)
    requires !op.OpCommitObjects? && !op.OpCommitPart? && !op.OpComplete?
    ensures Fewer(db, Exec(db, op))
  {
    if op.OpAbortBefore? {
      DropStaleFewer(db, FirstStale(db.uploads, op.threshold, op.limit), op.now, [], 0);
    }
  }

  lemma CompleteCarries(db: Db, bucket: Bytes, key: Bytes, uploadId: Bytes, numbers: seq<u32>, now: nat)
    requires SizesAgree(db) && CompleteUpload(db, bucket, key, uploadId, numbers, now).Commit?
    ensures var db' := CompleteUpload(db, bucket, key, uploadId, numbers, now).db; Carries(db, db') && SizesAgree(db')
  {
    NoBadPart(db.parts, uploadId, numbers, |numbers|);
    AssembleCarries(db, bucket, uploadId, PartKeys(uploadId, numbers),
                    CompleteUpload(db, bucket, key, uploadId, numbers, now).value.0, now);
  }

  lemma Carried(db: Db, op: Op)
    requires !op.OpCommitObjects? && !op.OpCommitPart? && SizesAgree(db)
    ensures Carries(db, Exec(db, op)) && SizesAgree(Exec(db, op))
  {
    if op.OpComplete? && CompleteUpload(db, op.bucket, op.key, op.uploadId, op.numbers, op.now).Commit? {
      CompleteCarries(db, op.bucket, op.key, op.uploadId, op.numbers, op.now);
    } else {
      if !op.OpComplete? { MostOpsFewer(db, op); }
      FewerCarries(db, Exec(db, op));
    }
  }

  lemma CarriedOnDisk(db: Db, db': Db, disk: map<SegId, Body>)
    requires OnDisk(db, disk) && Carries(db, db')
    ensures OnDisk(db', disk)
  {
    forall slot, ref | RefAt(db', slot, ref) ensures ref.id in disk && |disk[ref.id]| == ref.size {
      var t :| RefAt(db, t, ref);
    }
  }

  // ---- the commits that make a writer's bytes reachable ------------------------

  lemma PutOnDisk(db: Db, disk: map<SegId, Body>, bucket: Bytes, meta: ObjectMeta, id: SegId, body: Body, now: nat)
    requires OnDisk(db, disk) && SizesAgree(db)
    requires id in db.pending ==> id in disk && disk[id] == body
    ensures var db' := Exec(db, OpCommitObjects(bucket, [RowFor(meta, id, body)], now));
            OnDisk(db', disk) && SizesAgree(db')
  {
    var row := RowFor(meta, id, body);
    var o := CommitObjects(db, bucket, [row], now);
    if o.Commit? {
      CommitNeedsPending(db, bucket, row, now);
      assert [row][..0] == [] && CommitRows(db, bucket, [], now) == Commit(db, []);
      assert id == Ids(row.segments)[0];
      assert o.db.manifests == db.manifests[ObjKey(bucket, meta.key) := row.segments];
      assert TotalSize(row.segments[..0]) == 0;
      forall slot, ref | RefAt(o.db, slot, ref) ensures ref.id in disk && |disk[ref.id]| == ref.size {
        if slot.InManifest? && slot.k == ObjKey(bucket, meta.key) {
          assert ref == SegRef(id, |body|);
        } else {
          assert RefAt(db, slot, ref);
        }
      }
    }
  }

  lemma PartOnDisk(db: Db, disk: map<SegId, Body>, bucket: Bytes, uploadId: Bytes, part: u32, row: PartRow, now: nat)
    requires OnDisk(db, disk) && SizesAgree(db)
    requires row.segment in db.pending ==> row.segment in disk && |disk[row.segment]| == row.size
    ensures var db' := Exec(db, OpCommitPart(bucket, uploadId, part, row, now));
            OnDisk(db', disk) && SizesAgree(db')
  {
    var o := CommitPart(db, bucket, uploadId, part, row, now);
    if o.Commit? {
      forall slot, ref | RefAt(o.db, slot, ref) ensures ref.id in disk && |disk[ref.id]| == ref.size {
        if slot != InPart(PartKey(uploadId, part)) { assert RefAt(db, slot, ref); }
      }
    }
  }

  // ---- ids on their way out -----------------------------------------------------

  lemma DeadStays(db: Db, ever: set<SegId>, db': Db, ever': set<SegId>, ids: set<SegId>)
    requires Dead(db, ever, ids) && Forward(db, ever, db', ever')
    ensures Dead(db', ever', ids)
  {
    forall id | id in ids ensures !Referenced(db', id) {
      forall slot ensures !HoldsAt(db', slot, id) {}
    }
  }

  lemma GarbageIsDead(db: Db, ever: set<SegId>, ids: seq<SegId>)
    requires Exclusive(db, ever) && forall id :: id in ids ==> id in db.garbage
    ensures Dead(db, ever, Elems(ids))
  {
    forall id | id in ids ensures !Referenced(db, id) {
      forall slot ensures !HoldsAt(db, slot, id) {}
    }
  }

  /** Whatever a transaction hands to a reclaim task is unreachable for good. */
  lemma ToReclaimIsDead(db: Db, ever: set<SegId>, op: Op)
    requires Exclusive(db, ever) && Legal(db, ever, op)
    ensures Dead(Exec(db, op), Grow(ever, op), Elems(ToReclaim(db, op)))
  {
    StepExclusive(db, ever, op);
    if op.OpClaimDue? {
      DueIsGarbage(ClaimDue(db, op.now, op.limit).db.garbage, op.limit);
    } else if op.OpForget? {
      assert ToReclaim(db, op) == [];
    } else {
      forall id | id in RetiredBy(db, op) ensures id in Exec(db, op).garbage {}
    }
    GarbageIsDead(Exec(db, op), Grow(ever, op), ToReclaim(db, op));
  }

  // ---- every step is safe --------------------------------------------------------

  lemma OpIsLegal(s: Store, e: Event)
    requires Enabled(s, e) && OpOf(s, e).Some?
    ensures Legal(s.db, s.ever, OpOf(s, e).value)
  {}

  lemma OpOnDisk(s: Store, e: Event)
    requires Safe(s) && Enabled(s, e) && OpOf(s, e).Some?
    ensures var db' := Exec(s.db, OpOf(s, e).value); OnDisk(db', s.disk) && SizesAgree(db')
  {
    var op := OpOf(s, e).value;
    match e
    case PutRow(id, bucket, meta, now, _) => PutOnDisk(s.db, s.disk, bucket, meta, id, s.writers[id].value, now);
    case PartRowOf(id, bucket, uploadId, part, md5, now, _) =>
      PartOnDisk(s.db, s.disk, bucket, uploadId, part, PartRow(id, |s.writers[id].value|, md5), now);
    case _ =>
      Carried(s.db, op);
      CarriedOnDisk(s.db, Exec(s.db, op), s.disk);
  }

  lemma OpStepSafe(s: Store, e: Event)
    requires Safe(s) && Enabled(s, e) && OpOf(s, e).Some?
    ensures Safe(Step(s, e))
  {
    var op := OpOf(s, e).value;
    var t := Step(s, e);
    OpIsLegal(s, e);
    StepExclusive(s.db, s.ever, op);
    StepIntegrity(s.db, s.ever, op);
    OpOnDisk(s, e);
    DeadStays(s.db, s.ever, t.db, t.ever, s.held + s.cleared + s.gone);
    ToReclaimIsDead(s.db, s.ever, op);
    OpTouches(s, e);
    WritersStay(s.db, s.ever, t.db, t.ever, s.disk, s.writers, t.writers);
  }

  /** What a step with a transaction leaves alone. */
  lemma OpTouches(s: Store, e: Event)
    requires Enabled(s, e) && OpOf(s, e).Some?
    ensures var t := Step(s, e);
            && t.disk == s.disk && t.cleared == s.cleared && t.readers == s.readers && t.gone <= s.gone
            && t.held == s.held + Elems(ToReclaim(s.db, OpOf(s, e).value))
            && (forall id :: id in t.writers ==>
                  (id in s.writers && t.writers[id] == s.writers[id]) || (id in t.ever && t.writers[id].None?))
  {}

  lemma WritersStay(db: Db, ever: set<SegId>, db': Db, ever': set<SegId>, disk: map<SegId, Body>,
                    writers: map<SegId, Option<Body>>, writers': map<SegId, Option<Body>>)
    requires WritersOk(db, ever, disk, writers) && Forward(db, ever, db', ever')
    requires forall id :: id in writers' ==>
               (id in writers && writers'[id] == writers[id]) || (id in ever' && writers'[id].None?)
    ensures WritersOk(db', ever', disk, writers')
  {}

  lemma LinkSafe(s: Store, id: SegId, body: Body)
    requires Safe(s) && Enabled(s, LinkBytes(id, body))
    ensures Safe(Step(s, LinkBytes(id, body)))
  {
    var t := Step(s, LinkBytes(id, body));
    forall r | r in t.readers ensures ReaderOk(t.disk, t.cleared, t.readers[r]) {
      assert ReaderOk(s.disk, s.cleared, s.readers[r]);
    }
  }

  lemma CheckPinSafe(s: Store, id: SegId)
    requires Safe(s) && Enabled(s, CheckPin(id))
    ensures Safe(Step(s, CheckPin(id)))
  {
    var t := Step(s, CheckPin(id));
    forall r | r in t.readers ensures ReaderOk(t.disk, t.cleared, t.readers[r]) {
      assert ReaderOk(s.disk, s.cleared, s.readers[r]);
      if s.readers[r].Confirmed? { ConfirmedIsPinned(s.readers, r, id); }
    }
  }

  /** The bytes deleted are no row's, no pending writer's and no confirmed reader's. */
  lemma DeleteSafe(s: Store, id: SegId)
    requires Safe(s) && Enabled(s, DeleteBytes(id))
    ensures Safe(Step(s, DeleteBytes(id)))
  {
    var t := Step(s, DeleteBytes(id));
    assert id in s.held + s.cleared + s.gone;
    forall r | r in t.readers ensures ReaderOk(t.disk, t.cleared, t.readers[r]) {
      assert ReaderOk(s.disk, s.cleared, s.readers[r]);
    }
    forall slot, ref | RefAt(t.db, slot, ref) ensures ref.id in t.disk && |t.disk[ref.id]| == ref.size {
      assert RefAt(s.db, slot, ref) && HoldsAt(s.db, slot, ref.id);
      assert Referenced(s.db, ref.id);
    }
    forall x | x in t.held + t.cleared + t.gone ensures x in s.held + s.cleared + s.gone {}
  }

  lemma ReaderStepSafe(s: Store, e: Event)
    requires Safe(s) && Enabled(s, e) && (e.Look? || e.Pin? || e.Confirm? || e.Release?)
    ensures Safe(Step(s, e))
  {
    var t := Step(s, e);
    if e.Confirm? { CurrentIsReadable(s.db, s.ever, s.disk, s.cleared, s.readers[e.r].k); }
    forall q | q in t.readers ensures ReaderOk(t.disk, t.cleared, t.readers[q]) {
      if q != e.r { assert ReaderOk(s.disk, s.cleared, s.readers[q]); }
    }
  }

  lemma CrashSafe(s: Store)
    requires Safe(s)
    ensures Safe(Crashed(s))
  {}

  lemma ConfirmedIsPinned(readers: map<nat, Reader>, r: nat, id: SegId)
    requires r in readers && readers[r].Confirmed? && !IsPinned(readers, id)
    ensures forall i :: 0 <= i < |readers[r].segments| ==> readers[r].segments[i].id != id
  {
    forall i | 0 <= i < |readers[r].segments| ensures readers[r].segments[i].id != id {
      assert Ids(readers[r].segments)[i] in Ids(readers[r].segments);
    }
  }

  /** A manifest that is current now has no segment on its way out. */
  lemma CurrentIsReadable(db: Db, ever: set<SegId>, disk: map<SegId, Body>, cleared: set<SegId>, k: Bytes)
    requires OnDisk(db, disk) && Dead(db, ever, cleared) && k in db.manifests
    ensures ReaderOk(disk, cleared, Confirmed(k, db.manifests[k]))
  {
    var segments := db.manifests[k];
    forall i | 0 <= i < |segments|
      ensures segments[i].id in disk && |disk[segments[i].id]| == segments[i].size && segments[i].id !in cleared
    {
      assert RefAt(db, InManifest(k, i), segments[i]);
      assert HoldsAt(db, InManifest(k, i), segments[i].id);
      assert Referenced(db, segments[i].id);
    }
  }

  lemma StepSafe(s: Store, e: Event)
    requires Safe(s) && Enabled(s, e)
    ensures Safe(Step(s, e))
  {
    match e
    case LinkBytes(id, body) => LinkSafe(s, id, body);
    case CheckPin(id) => CheckPinSafe(s, id);
    case DeleteBytes(id) => DeleteSafe(s, id);
    case Look(_, _) => ReaderStepSafe(s, e);
    case Pin(_) => ReaderStepSafe(s, e);
    case Confirm(_) => ReaderStepSafe(s, e);
    case Release(_) => ReaderStepSafe(s, e);
    case Crash => CrashSafe(s);
    case _ => OpStepSafe(s, e);
  }
}
