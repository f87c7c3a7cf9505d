/** Whole runs of index transactions. */
module IndexRuns {
  import opened Common
  import opened Bytes
  import opened Keys
  import opened CorsTypes
  import opened Tables
  import opened Lifecycle
  import opened ReferentialIntegrity

  datatype Op =
    | OpCreateBucket(bucket: Bytes, now: nat)
    | OpEnsureBucket(bucket: Bytes, now: nat)
    | OpDeleteBucket(bucket: Bytes)
    | OpSetCors(bucket: Bytes, cors: Option<CorsConfig>)
    | OpAddPending(ids: seq<SegId>, now: nat)
    | OpDiscardPending(ids: seq<SegId>, now: nat)
    | OpClaimDue(now: nat, limit: nat)
    | OpForget(ids: seq<SegId>)
    | OpCommitObjects(bucket: Bytes, rows: seq<ObjectRow>, now: nat)
    | OpDeleteObject(bucket: Bytes, key: Bytes, now: nat)
    | OpCreateUpload(bucket: Bytes, uploadId: Bytes, info: UploadInfo, keep: bool)
    | OpCommitPart(bucket: Bytes, uploadId: Bytes, part: u32, row: PartRow, now: nat)
    | OpComplete(bucket: Bytes, key: Bytes, uploadId: Bytes, numbers: seq<u32>, now: nat)
    | OpAbortUpload(bucket: Bytes, uploadId: Bytes, now: nat)
    | OpAbortBefore(threshold: nat, now: nat, limit: nat)

  /** What the callers promise: names are NUL-free, segment ids and upload ids are newly minted. */
  ghost predicate Legal(db: Db, ever: set<SegId>, op: Op) {
    match op
    case OpCreateBucket(b, _) => NoNul(b)
    case OpEnsureBucket(b, _) => NoNul(b)
    case OpAddPending(ids, _) => forall id :: id in ids ==> id !in ever
    case OpCreateUpload(b, u, _, _) =>
      NoNul(u) && forall k :: k in db.uploads && UploadOk(db.buckets, k) && Tail(k) == u ==> k == UploadKey(b, u)
    case _ => true
  }

  ghost function Exec(db: Db, op: Op): Db {
    match op
    case OpCreateBucket(b, now) => CreateBucket(db, b, now).After(db)
    case OpEnsureBucket(b, now) => EnsureBucket(db, b, now).After(db)
    case OpDeleteBucket(b) => DeleteBucket(db, b).After(db)
    case OpSetCors(b, cors) => SetCors(db, b, cors).After(db)
    case OpAddPending(ids, now) => AddPending(db, ids, now).After(db)
    case OpDiscardPending(ids, now) => DiscardPending(db, ids, now).After(db)
    case OpClaimDue(now, limit) => ClaimDue(db, now, limit).After(db)
    case OpForget(ids) => ForgetSegments(db, ids).After(db)
    case OpCommitObjects(b, rows, now) => CommitObjects(db, b, rows, now).After(db)
    case OpDeleteObject(b, key, now) => DeleteObject(db, b, key, now).After(db)
    case OpCreateUpload(b, u, info, keep) => CreateUpload(db, b, u, info, keep).After(db)
    case OpCommitPart(b, u, part, row, now) => CommitPart(db, b, u, part, row, now).After(db)
    case OpComplete(b, key, u, numbers, now) => CompleteUpload(db, b, key, u, numbers, now).After(db)
    case OpAbortUpload(b, u, now) => AbortUpload(db, b, u, now).After(db)
    case OpAbortBefore(threshold, now, limit) => AbortUploadsBefore(db, threshold, now, limit).After(db)
  }

  /** The `Retired` list the call hands back (empty when it fails or returns none). */
  ghost function RetiredBy(db: Db, op: Op): Retired {
    match op
    case OpDiscardPending(ids, now) => DiscardPending(db, ids, now).value
    case OpCommitObjects(b, rows, now) =>
      var o := CommitObjects(db, b, rows, now); if o.Commit? then o.value else []
    case OpDeleteObject(b, key, now) =>
      var o := DeleteObject(db, b, key, now); if o.Commit? then o.value else []
    case OpCommitPart(b, u, part, row, now) =>
      var o := CommitPart(db, b, u, part, row, now); if o.Commit? then o.value else []
    case OpComplete(b, key, u, numbers, now) =>
      var o := CompleteUpload(db, b, key, u, numbers, now); if o.Commit? then o.value.1 else []
    case OpAbortUpload(b, u, now) =>
      var o := AbortUpload(db, b, u, now); if o.Commit? then o.value else []
    case OpAbortBefore(threshold, now, limit) => AbortUploadsBefore(db, threshold, now, limit).value.1
    case _ => []
  }

  function Grow(ever: set<SegId>, op: Op): set<SegId> {
    if op.OpAddPending? then ever + Elems(op.ids) else ever
  }

  predicate IsBucketOp(op: Op) {
    op.OpCreateBucket? || op.OpEnsureBucket? || op.OpDeleteBucket? || op.OpSetCors?
  }

  predicate IsSegmentOp(op: Op) {
    op.OpAddPending? || op.OpDiscardPending? || op.OpClaimDue? || op.OpForget?
  }

  lemma StepExclusive(db: Db, ever: set<SegId>, op: Op)
    requires Exclusive(db, ever) && Legal(db, ever, op)
    ensures Exclusive(Exec(db, op), Grow(ever, op))
    ensures Forward(db, ever, Exec(db, op), Grow(ever, op))
    ensures !op.OpForget? ==> Conserves(db, Exec(db, op))
    ensures !op.OpClaimDue? && !op.OpForget? ==> RetiredIs(db, Exec(db, op), RetiredBy(db, op))
  {
    if IsBucketOp(op) || op.OpCreateUpload? {
      SameSegmentsMove(db, ever, Exec(db, op));
    } else if IsSegmentOp(op) {
      SegmentExclusive(db, ever, op);
    } else {
      RewriteExclusive(db, ever, op);
    }
  }

  lemma SegmentExclusive(db: Db, ever: set<SegId>, op: Op)
    requires Exclusive(db, ever) && Legal(db, ever, op) && IsSegmentOp(op)
    ensures Exclusive(Exec(db, op), Grow(ever, op))
    ensures Forward(db, ever, Exec(db, op), Grow(ever, op))
    ensures !op.OpForget? ==> Conserves(db, Exec(db, op))
    ensures !op.OpClaimDue? && !op.OpForget? ==> RetiredIs(db, Exec(db, op), RetiredBy(db, op))
  {
    match op
    case OpAddPending(ids, now) => AddPendingMoves(db, ever, ids, now);
    case OpDiscardPending(ids, now) => DiscardPendingMoves(db, ever, ids, now);
    case OpClaimDue(now, limit) => ClaimDueMoves(db, ever, now, limit);
    case OpForget(ids) => ForgetMoves(db, ever, ids);
  }

  lemma RewriteExclusive(db: Db, ever: set<SegId>, op: Op)
    requires Exclusive(db, ever) && !IsBucketOp(op) && !IsSegmentOp(op) && !op.OpCreateUpload?
    ensures Moves(db, ever, Exec(db, op), RetiredBy(db, op))
  {
    if Exec(db, op) == db && RetiredBy(db, op) == [] {
      MovesNothing(db, ever);
    } else if op.OpCommitObjects? || op.OpDeleteObject? || op.OpCommitPart? {
      WriteExclusive(db, ever, op);
    } else {
      UploadExclusive(db, ever, op);
    }
  }

  lemma WriteExclusive(db: Db, ever: set<SegId>, op: Op)
    requires Exclusive(db, ever) && (op.OpCommitObjects? || op.OpDeleteObject? || op.OpCommitPart?)
    requires Exec(db, op) != db || RetiredBy(db, op) != []
    ensures Moves(db, ever, Exec(db, op), RetiredBy(db, op))
  {
    match op
    case OpCommitObjects(b, rows, now) => CommitRowsMoves(db, ever, b, rows, now);
    case OpDeleteObject(b, key, now) => DeleteObjectMoves(db, ever, b, key, now);
    case OpCommitPart(b, u, part, row, now) => CommitPartMoves(db, ever, b, u, part, row, now);
  }

  lemma UploadExclusive(db: Db, ever: set<SegId>, op: Op)
    requires Exclusive(db, ever) && (op.OpComplete? || op.OpAbortUpload? || op.OpAbortBefore?)
    requires Exec(db, op) != db || RetiredBy(db, op) != []
    ensures Moves(db, ever, Exec(db, op), RetiredBy(db, op))
  {
    match op
    case OpComplete(b, key, u, numbers, now) => CompleteMoves(db, ever, b, key, u, numbers, now);
    case OpAbortUpload(b, u, now) => DropUploadMoves(db, ever, b, u, now);
    case OpAbortBefore(threshold, now, limit) =>
      MovesNothing(db, ever);
      DropStaleMoves(db, db, ever, FirstStale(db.uploads, threshold, limit), now, [], 0);
  }

  lemma StepIntegrity(db: Db, ever: set<SegId>, op: Op)
    requires Integrity(db) && Legal(db, ever, op)
    ensures Integrity(Exec(db, op))
  {
    if IsBucketOp(op) {
      BucketIntegrity(db, ever, op);
    } else if IsSegmentOp(op) {
      SegmentIntegrity(db, op);
    } else {
      RowsIntegrity(db, ever, op);
    }
  }

  lemma BucketIntegrity(db: Db, ever: set<SegId>, op: Op)
    requires Integrity(db) && Legal(db, ever, op) && IsBucketOp(op)
    ensures Integrity(Exec(db, op))
  {
    if op.OpDeleteBucket? {
      DeleteBucketKeeps(db, op.bucket);
    } else if Exec(db, op) != db {
      PutBucketKeeps(db, op.bucket, Exec(db, op).buckets[op.bucket]);
    }
  }

  lemma PutBucketKeeps(db: Db, bucket: Bytes, row: BucketRow)
    requires Integrity(db) && NoNul(bucket)
    ensures Integrity(db.(buckets := db.buckets[bucket := row]))
  {
    MoreBuckets(db, db.buckets[bucket := row]);
  }

  lemma DeleteBucketKeeps(db: Db, bucket: Bytes)
    requires Integrity(db)
    ensures Integrity(DeleteBucket(db, bucket).After(db))
  {
    if DeleteBucket(db, bucket).Commit? {
      BucketsKeep(db, db.(buckets := db.buckets - {bucket}));
    }
  }

  lemma MoreBuckets(db: Db, buckets: map<Bytes, BucketRow>)
    requires Integrity(db) && BucketsOk(buckets) && forall b :: b in db.buckets ==> b in buckets
    ensures Integrity(db.(buckets := buckets))
  {
    BucketsKeep(db, db.(buckets := buckets));
  }

  lemma SegmentIntegrity(db: Db, op: Op)
    requires Integrity(db) && IsSegmentOp(op)
    ensures Integrity(Exec(db, op))
  {}

  lemma RowsIntegrity(db: Db, ever: set<SegId>, op: Op)
    requires Integrity(db) && Legal(db, ever, op)
    requires !IsBucketOp(op) && !IsSegmentOp(op)
    ensures Integrity(Exec(db, op))
  {
    match op
    case OpCommitObjects(b, rows, now) =>
      if CommitObjects(db, b, rows, now).Commit? { CommitRowsKeep(db, b, rows, now); }
    case OpDeleteObject(b, key, now) => DeleteObjectKeeps(db, b, key, now);
    case OpCreateUpload(b, u, info, keep) => CreateUploadKeeps(db, b, u, info, keep);
    case OpCommitPart(b, u, part, row, now) => CommitPartKeeps(db, b, u, part, row, now);
    case OpComplete(b, key, u, numbers, now) =>
      if CompleteUpload(db, b, key, u, numbers, now).Commit? { CompleteKeeps(db, b, key, u, numbers, now); }
    case OpAbortUpload(b, u, now) =>
      if AbortUpload(db, b, u, now).Commit? {
        SplitJoined(b, u);
        assert UploadOk(db.buckets, UploadKey(b, u));
        DropUploadKeeps(db, b, u, now);
      }
    case OpAbortBefore(threshold, now, limit) => AbortUploadsKeeps(db, threshold, now, limit);
  }

  // ---- runs ---------------------------------------------------------------

  ghost predicate LegalRun(db: Db, ever: set<SegId>, ops: seq<Op>)
    decreases |ops|
  {
    ops == [] || (Legal(db, ever, ops[0]) && LegalRun(Exec(db, ops[0]), Grow(ever, ops[0]), ops[1..]))
  }

  ghost function Final(db: Db, ops: seq<Op>): Db
    decreases |ops|
  {
    if ops == [] then db else Final(Exec(db, ops[0]), ops[1..])
  }

  function EverAfter(ever: set<SegId>, ops: seq<Op>): set<SegId>
    decreases |ops|
  {
    if ops == [] then ever else EverAfter(Grow(ever, ops[0]), ops[1..])
  }

  /** Every run keeps exclusivity and integrity, and no id ever moves back: what was garbage is never
      referenced again, what was forgotten never returns. */
  lemma {:induction false} EveryRun(db: Db, ever: set<SegId>, ops: seq<Op>, id: SegId)
    requires Sound(db, ever) && LegalRun(db, ever, ops)
    ensures Sound(Final(db, ops), EverAfter(ever, ops))
    ensures Rank(PhaseOf(db, ever, id)) <= Rank(PhaseOf(Final(db, ops), EverAfter(ever, ops), id))
    decreases |ops|
  {
    if ops != [] {
      var db', ever' := Exec(db, ops[0]), Grow(ever, ops[0]);
      StepExclusive(db, ever, ops[0]);
      StepIntegrity(db, ever, ops[0]);
      ForwardMeansOneWay(db, ever, db', ever', id);
      EveryRun(db', ever', ops[1..], id);
    }
  }

  /** Only `forget_segments`, naming it, makes the index lose track of an id. */
  lemma {:induction false} LostOnlyIfForgotten(db: Db, ever: set<SegId>, ops: seq<Op>, id: SegId)
    requires Exclusive(db, ever) && LegalRun(db, ever, ops) && Tracked(db, id)
    requires forall i :: 0 <= i < |ops| && ops[i].OpForget? ==> id !in ops[i].ids
    ensures Tracked(Final(db, ops), id)
    decreases |ops|
  {
    if ops != [] {
      StepExclusive(db, ever, ops[0]);
      if ops[0].OpForget? { SameSlots(db, Exec(db, ops[0])); }
      LostOnlyIfForgotten(Exec(db, ops[0]), Grow(ever, ops[0]), ops[1..], id);
    }
  }

  /** An id that was ever recorded pending, and that no call forgets, is never lost. */
  lemma {:induction false} NeverLost(db: Db, ever: set<SegId>, ops: seq<Op>, id: SegId)
    requires Exclusive(db, ever) && LegalRun(db, ever, ops) && (id in ever ==> Tracked(db, id))
    requires forall i :: 0 <= i < |ops| && ops[i].OpForget? ==> id !in ops[i].ids
    ensures id in EverAfter(ever, ops) ==> Tracked(Final(db, ops), id)
    decreases |ops|
  {
    hide Exclusive, Tracked;
    if ops != [] {
      StepExclusive(db, ever, ops[0]);
      StillTracked(db, ever, ops[0], id);
      NeverLost(Exec(db, ops[0]), Grow(ever, ops[0]), ops[1..], id);
    }
  }

  lemma StillTracked(db: Db, ever: set<SegId>, op: Op, id: SegId)
    requires Exclusive(db, ever) && Legal(db, ever, op) && (op.OpForget? ==> id !in op.ids)
    requires id in ever ==> Tracked(db, id)
    ensures id in Grow(ever, op) ==> Tracked(Exec(db, op), id)
  {
    if id in ever {
      StepExclusive(db, ever, op);
      if op.OpForget? { SameSlots(db, Exec(db, op)); }
    } else if op.OpAddPending? && id in op.ids {
      assert id in Elems(op.ids) && id in Exec(db, op).pending;
    }
  }

  /** In any state a run from an empty index reaches, an id once recorded pending is in at most one place,
      a referenced one is named by exactly one slot, and one that no call of the run forgot is somewhere. */
  lemma ExactlyOnePlace(ops: seq<Op>, id: SegId)
    requires LegalRun(EMPTY, {}, ops) && id in EverAfter({}, ops)
    ensures var db := Final(EMPTY, ops);
            && !(id in db.pending && id in db.garbage)
            && (Referenced(db, id) ==> id !in db.pending && id !in db.garbage)
            && (Referenced(db, id) ==> exists s :: HoldsAt(db, s, id) && forall t :: HoldsAt(db, t, id) ==> t == s)
    ensures (forall i :: 0 <= i < |ops| && ops[i].OpForget? ==> id !in ops[i].ids) ==> Tracked(Final(EMPTY, ops), id)
  {
    EmptyIsSound();
    EveryRun(EMPTY, {}, ops, id);
    var db := Final(EMPTY, ops);
    if Referenced(db, id) {
      var s :| HoldsAt(db, s, id);
    }
    if forall i :: 0 <= i < |ops| && ops[i].OpForget? ==> id !in ops[i].ids { NeverLost(EMPTY, {}, ops, id); }
  }

  lemma EmptyIsSound()
    ensures Sound(EMPTY, {})
  {
    forall s, id ensures !HoldsAt(EMPTY, s, id) {}
  }

  /** A new object row takes over its segments only if each is pending and named once, so an id the
      sweeper claimed as stale makes the commit fail. */
  lemma CommitNeedsPending(db: Db, bucket: Bytes, row: ObjectRow, now: nat)
    ensures CommitObjects(db, bucket, [row], now).Commit? <==>
              bucket in db.buckets && NoDup(Ids(row.segments)) &&
              forall id :: id in Ids(row.segments) ==> id in db.pending
  {
    assert [row][..0] == [];
    assert CommitRows(db, bucket, [], now) == Commit(db, []);
  }

  /** Committing rows takes ids out of the pending table and adds none. */
  lemma {:induction false} CommitRowsTake(db: Db, bucket: Bytes, rows: seq<ObjectRow>, now: nat)
    requires CommitRows(db, bucket, rows, now).Commit?
    ensures forall id :: id in CommitRows(db, bucket, rows, now).db.pending ==> id in db.pending
    decreases |rows|
  {
    if rows != [] { CommitRowsTake(db, bucket, rows[..|rows| - 1], now); }
  }

  ghost predicate Names(rows: seq<ObjectRow>, id: SegId) {
    exists i :: 0 <= i < |rows| && id in Ids(rows[i].segments)
  }

  /** A list of rows naming an id that is not pending does not commit, wherever in the list it is. */
  lemma {:induction false} RowsNeedPending(db: Db, bucket: Bytes, rows: seq<ObjectRow>, i: nat, id: SegId, now: nat)
    requires i < |rows| && id in Ids(rows[i].segments) && id !in db.pending
    ensures CommitRows(db, bucket, rows, now).Abort?
    decreases |rows|
  {
    var n := |rows| - 1;
    if i < n {
      assert rows[..n][i] == rows[i];
      RowsNeedPending(db, bucket, rows[..n], i, id, now);
    } else if CommitRows(db, bucket, rows[..n], now).Commit? {
      CommitRowsTake(db, bucket, rows[..n], now);
    }
  }

  /** Once the sweeper has claimed an id as stale, no commit that names it succeeds, whatever transactions
      run in between: neither any list of object rows nor a part. */
  lemma ClaimedCannotCommit(db: Db, ever: set<SegId>, now: nat, limit: nat, ops: seq<Op>, id: SegId)
    requires Sound(db, ever) && id in Stale(db.pending, now)
    requires LegalRun(ClaimDue(db, now, limit).db, ever, ops)
    ensures var later := Final(ClaimDue(db, now, limit).db, ops);
            && id !in later.pending
            && (forall bucket, rows, at :: Names(rows, id) ==> CommitObjects(later, bucket, rows, at).Abort?)
            && (forall bucket, uploadId, part, row: PartRow, at :: row.segment == id ==>
                  CommitPart(later, bucket, uploadId, part, row, at).Abort?)
  {
    hide Sound, LegalRun, Final, CommitObjects, CommitPart, Names, Stale, Stamp;
    var claimed := ClaimDue(db, now, limit).db;
    ClaimedIsGarbage(db, ever, now, limit, id);
    EveryRun(claimed, ever, ops, id);
    assert id !in Final(claimed, ops).pending;
    CommitsNeedPending(Final(claimed, ops), id);
  }

  /** No commit naming an id that is not pending succeeds. */
  lemma CommitsNeedPending(db: Db, id: SegId)
    requires id !in db.pending
    ensures forall bucket, rows, at :: Names(rows, id) ==> CommitObjects(db, bucket, rows, at).Abort?
    ensures forall bucket, uploadId, part, row: PartRow, at :: row.segment == id ==>
              CommitPart(db, bucket, uploadId, part, row, at).Abort?
  {
    hide CommitRows, CommitPart;
    forall bucket, rows: seq<ObjectRow>, at | Names(rows, id) ensures CommitObjects(db, bucket, rows, at).Abort? {
      var i :| 0 <= i < |rows| && id in Ids(rows[i].segments);
      RowsNeedPending(db, bucket, rows, i, id, at);
    }
    forall bucket, uploadId, part, row: PartRow, at | row.segment == id
      ensures CommitPart(db, bucket, uploadId, part, row, at).Abort?
    {
      PartNeedsPending(db, bucket, uploadId, part, row, at);
    }
  }

  lemma PartNeedsPending(db: Db, bucket: Bytes, uploadId: Bytes, part: u32, row: PartRow, now: nat)
    requires row.segment !in db.pending
    ensures CommitPart(db, bucket, uploadId, part, row, now).Abort?
  {}

  lemma ClaimedIsGarbage(db: Db, ever: set<SegId>, now: nat, limit: nat, id: SegId)
    requires Sound(db, ever) && id in Stale(db.pending, now)
    ensures var claimed := ClaimDue(db, now, limit).db;
            Sound(claimed, ever) && Rank(PhaseOf(claimed, ever, id)) == Rank(Garbage)
  {
    hide Integrity, Forward, Conserves, RetiredIs;
    var op := OpClaimDue(now, limit);
    var claimed := ClaimDue(db, now, limit).db;
    assert Exec(db, op) == claimed;
    StepExclusive(db, ever, op);
    StepIntegrity(db, ever, op);
    assert id in claimed.garbage;
  }
}
