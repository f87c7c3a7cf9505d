/** What every index transaction keeps: a segment id is in one place at a time and moves one way,
    and rows only name rows that exist. */
module Lifecycle {
  import opened Common
  import opened Bytes
  import opened Keys
  import opened CorsTypes
  import opened Tables

  /** A place in the index that can name a segment. */
  datatype Slot = InManifest(k: Bytes, i: nat) | InPart(k: Bytes)

  ghost predicate HoldsAt(db: Db, s: Slot, id: SegId) {
    match s
    case InManifest(k, i) => k in db.manifests && i < |db.manifests[k]| && db.manifests[k][i].id == id
    case InPart(k) => k in db.parts && db.parts[k].segment == id
  }

  ghost predicate Referenced(db: Db, id: SegId) {
    exists s :: HoldsAt(db, s, id)
  }

  /** Pending, referenced and garbage exclude each other; a referenced id has exactly one slot.
      `ever` holds every id that was ever recorded pending. */
  ghost predicate Exclusive(db: Db, ever: set<SegId>) {
    && db.pending.Keys !! db.garbage.Keys
    && db.pending.Keys + db.garbage.Keys <= ever
    && (forall s, id :: HoldsAt(db, s, id) ==> id in ever && id !in db.pending && id !in db.garbage)
    && (forall s, t, id :: HoldsAt(db, s, id) && HoldsAt(db, t, id) ==> s == t)
  }

  ghost predicate UploadExists(uploads: map<Bytes, UploadInfo>, uploadId: Bytes) {
    exists k :: k in uploads && !NoNul(k) && Tail(k) == uploadId
  }

  ghost predicate BucketsOk(buckets: map<Bytes, BucketRow>) {
    forall b :: b in buckets ==> NoNul(b)
  }

  ghost predicate ObjectOk(objects: map<Bytes, ObjectMeta>, buckets: map<Bytes, BucketRow>, k: Bytes)
    requires k in objects
  {
    !NoNul(k) && Head(k) in buckets && objects[k].key == Tail(k)
  }

  ghost predicate ObjectsOk(objects: map<Bytes, ObjectMeta>, buckets: map<Bytes, BucketRow>) {
    forall k :: k in objects ==> ObjectOk(objects, buckets, k)
  }

  ghost predicate UploadOk(buckets: map<Bytes, BucketRow>, k: Bytes) {
    !NoNul(k) && Head(k) in buckets && NoNul(Tail(k))
  }

  /** An upload id is used once, across all buckets. */
  ghost predicate UploadsOk(uploads: map<Bytes, UploadInfo>, buckets: map<Bytes, BucketRow>) {
    && (forall k :: k in uploads ==> UploadOk(buckets, k))
    && (forall k, l :: k in uploads && l in uploads && Tail(k) == Tail(l) ==> k == l)
  }

  ghost predicate PartOk(uploads: map<Bytes, UploadInfo>, k: Bytes) {
    !NoNul(k) && |Tail(k)| == 4 && UploadExists(uploads, Head(k))
  }

  ghost predicate PartsOk(parts: map<Bytes, PartRow>, uploads: map<Bytes, UploadInfo>) {
    |parts| <= MAX_STAGED_PARTS && forall k :: k in parts ==> PartOk(uploads, k)
  }

  /** Objects and manifests pair up, and no row outlives the bucket or upload it names. */
  ghost predicate Integrity(db: Db) {
    && db.objects.Keys == db.manifests.Keys
    && BucketsOk(db.buckets)
    && ObjectsOk(db.objects, db.buckets)
    && UploadsOk(db.uploads, db.buckets)
    && PartsOk(db.parts, db.uploads)
  }

  ghost predicate Sound(db: Db, ever: set<SegId>) {
    Exclusive(db, ever) && Integrity(db)
  }

  const EMPTY := Db(map[], map[], map[], map[], map[], map[], map[])

  datatype Phase = Unborn | Pending | Live | Garbage | Forgotten

  ghost function PhaseOf(db: Db, ever: set<SegId>, id: SegId): Phase {
    if id in db.pending then Pending
    else if Referenced(db, id) then Live
    else if id in db.garbage then Garbage
    else if id in ever then Forgotten
    else Unborn
  }

  function Rank(p: Phase): nat {
    match p case Unborn => 0 case Pending => 1 case Live => 2 case Garbage => 3 case Forgotten => 4
  }

  /** Where ids may have come from, one transaction later. */
  ghost predicate Forward(db: Db, ever: set<SegId>, db': Db, ever': set<SegId>) {
    && ever <= ever'
    && (forall id :: id in db'.pending ==> id in db.pending || id !in ever)
    && (forall s, id :: HoldsAt(db', s, id) ==> id in db.pending || Referenced(db, id))
    && (forall id :: id in db'.garbage ==> id in db.garbage || id in db.pending || Referenced(db, id))
  }

  /** `r` is, once each, exactly what joined the garbage. */
  ghost predicate RetiredIs(db: Db, db': Db, r: Retired) {
    && NoDup(r)
    && db'.garbage.Keys == db.garbage.Keys + Elems(r)
    && (forall id :: id in r ==> id !in db.garbage)
  }

  /** The index still knows where `id` is. */
  ghost predicate Tracked(db: Db, id: SegId) {
    id in db.pending || Referenced(db, id) || id in db.garbage
  }

  /** No id is lost: one that leaves a row or the pending table turns up somewhere else. */
  ghost predicate Conserves(db: Db, db': Db) {
    forall id :: Tracked(db, id) ==> Tracked(db', id)
  }

  /** A transaction that adds no id: places stay exclusive, ids move forward, none is lost, and `r` is
      what it retired. */
  ghost predicate Moves(db: Db, ever: set<SegId>, db': Db, r: Retired) {
    Exclusive(db', ever) && Forward(db, ever, db', ever) && Conserves(db, db') && RetiredIs(db, db', r)
  }

  lemma ForwardMeansOneWay(db: Db, ever: set<SegId>, db': Db, ever': set<SegId>, id: SegId)
    requires Exclusive(db, ever) && Exclusive(db', ever') && Forward(db, ever, db', ever')
    ensures Rank(PhaseOf(db, ever, id)) <= Rank(PhaseOf(db', ever', id))
  {
    if Referenced(db', id) {
      var s :| HoldsAt(db', s, id);
    }
    if Referenced(db, id) {
      var s :| HoldsAt(db, s, id);
    }
  }

  lemma MovesNothing(db: Db, ever: set<SegId>)
    requires Exclusive(db, ever)
    ensures Moves(db, ever, db, [])
  {
    forall s, id | HoldsAt(db, s, id) ensures Referenced(db, id) {}
  }

  lemma MovesCompose(db: Db, ever: set<SegId>, mid: Db, r: Retired, db': Db, more: Retired)
    requires Exclusive(db, ever) && Moves(db, ever, mid, r) && Moves(mid, ever, db', more)
    ensures Moves(db, ever, db', r + more)
  {
    forall s, id | HoldsAt(db', s, id) ensures id in db.pending || Referenced(db, id) {
      if id !in mid.pending {
        var t :| HoldsAt(mid, t, id);
      }
    }
    forall id | id in db'.garbage ensures id in db.garbage || id in db.pending || Referenced(db, id) {
      if id !in mid.garbage && id !in mid.pending {
        var t :| HoldsAt(mid, t, id);
      }
    }
    forall i, j | 0 <= i < j < |r + more| ensures (r + more)[i] != (r + more)[j] {
      if i < |r| <= j { assert r[i] in mid.garbage; }
    }
  }

  // ---- moves that leave manifests and parts alone -------------------------

  lemma SameSlots(db: Db, db': Db)
    requires db'.manifests == db.manifests && db'.parts == db.parts
    ensures forall s, id {:trigger HoldsAt(db', s, id)} :: HoldsAt(db', s, id) ==>
              HoldsAt(db, s, id) && Referenced(db, id)
    ensures forall id :: Referenced(db, id) ==> Referenced(db', id)
  {
    forall s, id | HoldsAt(db', s, id) ensures HoldsAt(db, s, id) && Referenced(db, id) {
      assert HoldsAt(db, s, id);
    }
    forall id | Referenced(db, id) ensures Referenced(db', id) {
      var s :| HoldsAt(db, s, id);
      assert HoldsAt(db', s, id);
    }
  }

  lemma AddPendingMoves(db: Db, ever: set<SegId>, ids: seq<SegId>, now: nat)
    requires Exclusive(db, ever)
    requires forall id :: id in ids ==> id !in ever
    ensures var db' := AddPending(db, ids, now).db;
            var ever' := ever + Elems(ids);
            Exclusive(db', ever') && Forward(db, ever, db', ever') && Conserves(db, db') && RetiredIs(db, db', [])
  {
    var db' := AddPending(db, ids, now).db;
    SameSlots(db, db');
  }

  lemma PendingToGarbageMoves(db: Db, ever: set<SegId>, db': Db, r: Retired)
    requires Exclusive(db, ever) && NoDup(r)
    requires forall id :: id in r ==> id in db.pending
    requires db'.manifests == db.manifests && db'.parts == db.parts
    requires db'.pending.Keys == db.pending.Keys - Elems(r)
    requires db'.garbage.Keys == db.garbage.Keys + Elems(r)
    ensures Moves(db, ever, db', r)
  {
    SameSlots(db, db');
  }

  lemma DiscardPendingMoves(db: Db, ever: set<SegId>, ids: seq<SegId>, now: nat)
    requires Exclusive(db, ever)
    ensures var o := DiscardPending(db, ids, now); Moves(db, ever, o.db, o.value)
  {
    var o := DiscardPending(db, ids, now);
    assert o.db.pending.Keys == db.pending.Keys - Elems(o.value);
    PendingToGarbageMoves(db, ever, o.db, o.value);
  }

  lemma AscendingNoDup(s: set<Bytes>)
    ensures NoDup(Ascending(s))
  {
    forall i, j | 0 <= i < j < |Ascending(s)| ensures Ascending(s)[i] != Ascending(s)[j] {
      Irreflexive(Ascending(s)[i]);
    }
  }

  lemma DueIsGarbage(garbage: map<SegId, nat>, limit: nat)
    ensures var due := Ascending(garbage.Keys);
            var taken := due[..Min(limit, |due|)];
            && |taken| == Min(limit, |garbage|) && NoDup(taken)
            && (forall id :: id in taken ==> id in garbage)
  {
    var due := Ascending(garbage.Keys);
    AscendingNoDup(garbage.Keys);
    assert |garbage| == |garbage.Keys|;
    assert forall i :: 0 <= i < |due| ==> due[i] in due;
  }

  /** Every stale id is garbage before any of its bytes may be deleted. */
  lemma ClaimDueMoves(db: Db, ever: set<SegId>, now: nat, limit: nat)
    requires Exclusive(db, ever)
    ensures var o := ClaimDue(db, now, limit);
            Moves(db, ever, o.db, Ascending(Stale(db.pending, now)))
  {
    var stale := Stale(db.pending, now);
    var db' := ClaimDue(db, now, limit).db;
    var r := Ascending(stale);
    AscendingNoDup(stale);
    assert stale <= db.pending.Keys;
    assert db'.garbage.Keys == db.garbage.Keys + stale;
    StaleMoves(db, ever, db', stale, r);
  }

  lemma StaleMoves(db: Db, ever: set<SegId>, db': Db, stale: set<SegId>, r: Retired)
    requires Exclusive(db, ever) && NoDup(r) && (forall id :: id in r <==> id in stale)
    requires stale <= db.pending.Keys
    requires db'.manifests == db.manifests && db'.parts == db.parts
    requires db'.pending.Keys == db.pending.Keys - stale
    requires db'.garbage.Keys == db.garbage.Keys + stale
    ensures Moves(db, ever, db', r)
  {
    assert Elems(r) == stale;
    PendingToGarbageMoves(db, ever, db', r);
  }

  lemma ForgetMoves(db: Db, ever: set<SegId>, ids: seq<SegId>)
    requires Exclusive(db, ever)
    ensures var db' := ForgetSegments(db, ids).db;
            && Exclusive(db', ever) && Forward(db, ever, db', ever)
            && db'.garbage.Keys == db.garbage.Keys - Elems(ids)
  {
    var db' := ForgetSegments(db, ids).db;
    SameSlots(db, db');
  }

  lemma SameSegmentsMove(db: Db, ever: set<SegId>, db': Db)
    requires Exclusive(db, ever)
    requires db'.manifests == db.manifests && db'.parts == db.parts
    requires db'.pending == db.pending && db'.garbage == db.garbage
    ensures Moves(db, ever, db', [])
  {
    SameSlots(db, db');
  }

  // ---- moves that rewrite manifests and parts ------------------------------

  /** Rows replaced or removed: each slot kept held its id before, each new one took a pending id,
      and `r` names what the lost slots held. */
  lemma RewriteMoves(db: Db, ever: set<SegId>, db': Db, r: Retired)
    requires Exclusive(db, ever) && NoDup(r)
    requires db'.pending.Keys <= db.pending.Keys
    requires db'.garbage.Keys == db.garbage.Keys + Elems(r)
    requires forall id :: id in r ==> Referenced(db, id)
    requires forall s, id :: HoldsAt(db', s, id) ==>
               (id in db.pending && id !in db'.pending) || (HoldsAt(db, s, id) && id !in r)
    requires forall s, t, id :: HoldsAt(db', s, id) && HoldsAt(db', t, id) && id in db.pending ==> s == t
    requires forall s, id :: HoldsAt(db, s, id) ==> id in r || HoldsAt(db', s, id)
    requires forall id :: id in db.pending && id !in db'.pending ==> Referenced(db', id)
    ensures Moves(db, ever, db', r)
  {
    forall id | Tracked(db, id) ensures Tracked(db', id) {
      if Referenced(db, id) && id !in r {
        var s :| HoldsAt(db, s, id);
        assert HoldsAt(db', s, id);
      }
    }
    forall s, id | HoldsAt(db', s, id) ensures id in db.pending || Referenced(db, id) {}
    forall id | id in r ensures id !in db.garbage && id !in db.pending && id in ever {
      var s :| HoldsAt(db, s, id);
    }
  }

  lemma ReplacedOnce(db: Db, ever: set<SegId>, k: Bytes)
    requires Exclusive(db, ever)
    ensures NoDup(Replaced(db, k))
    ensures forall id :: id in Replaced(db, k) ==> Referenced(db, id)
    ensures forall s, id :: HoldsAt(db, s, id) && id in Replaced(db, k) ==> s.InManifest? && s.k == k
  {
    var r := Replaced(db, k);
    forall i | 0 <= i < |r| ensures HoldsAt(db, InManifest(k, i), r[i]) {}
    forall i, j | 0 <= i < j < |r| ensures r[i] != r[j] {
      assert HoldsAt(db, InManifest(k, i), r[i]) && HoldsAt(db, InManifest(k, j), r[j]);
    }
    forall id | id in r ensures Referenced(db, id) {
      var i :| 0 <= i < |r| && r[i] == id;
      assert HoldsAt(db, InManifest(k, i), id);
    }
  }

  lemma CommitRowMoves(db: Db, ever: set<SegId>, bucket: Bytes, row: ObjectRow, now: nat)
    requires Exclusive(db, ever) && CommitRow(db, bucket, row, now).Commit?
    ensures var o := CommitRow(db, bucket, row, now); Moves(db, ever, o.db, o.value)
  {
    var o := CommitRow(db, bucket, row, now);
    PutMoves(db, ever, o.db, ObjKey(bucket, row.meta.key), row.segments);
  }

  lemma PutMoves(db: Db, ever: set<SegId>, db': Db, k: Bytes, segments: seq<SegRef>)
    requires Exclusive(db, ever) && CanTake(db.pending, Ids(segments))
    requires db'.manifests == db.manifests[k := segments] && db'.parts == db.parts
    requires db'.pending.Keys == db.pending.Keys - Elems(Ids(segments))
    requires db'.garbage.Keys == db.garbage.Keys + Elems(Replaced(db, k))
    ensures Moves(db, ever, db', Replaced(db, k))
  {
    ReplacedOnce(db, ever, k);
    forall s, id | HoldsAt(db', s, id)
      ensures (id in db.pending && id !in db'.pending) || (HoldsAt(db, s, id) && id !in Replaced(db, k))
      ensures id in db.pending ==> s.InManifest? && s.k == k
    {
      if s.InManifest? && s.k == k {
        assert Ids(segments)[s.i] == id;
      } else {
        assert HoldsAt(db, s, id);
      }
    }
    forall s, t, id | HoldsAt(db', s, id) && HoldsAt(db', t, id) && id in db.pending ensures s == t {
      assert Ids(segments)[s.i] == Ids(segments)[t.i];
    }
    forall s, id | HoldsAt(db, s, id) ensures id in Replaced(db, k) || HoldsAt(db', s, id) {
      if s.InManifest? && s.k == k { assert Replaced(db, k)[s.i] == id; }
    }
    forall id | id in db.pending && id !in db'.pending ensures Referenced(db', id) {
      var i :| 0 <= i < |segments| && Ids(segments)[i] == id;
      assert HoldsAt(db', InManifest(k, i), id);
    }
    RewriteMoves(db, ever, db', Replaced(db, k));
  }

  lemma {:induction false} CommitRowsMoves(db: Db, ever: set<SegId>, bucket: Bytes, rows: seq<ObjectRow>, now: nat)
    requires Exclusive(db, ever) && CommitRows(db, bucket, rows, now).Commit?
    ensures var o := CommitRows(db, bucket, rows, now); Moves(db, ever, o.db, o.value)
  {
    if rows == [] {
      MovesNothing(db, ever);
    } else {
      var n := |rows| - 1;
      var mid := CommitRows(db, bucket, rows[..n], now);
      CommitRowsMoves(db, ever, bucket, rows[..n], now);
      CommitRowMoves(mid.db, ever, bucket, rows[n], now);
      var last := CommitRow(mid.db, bucket, rows[n], now);
      MovesCompose(db, ever, mid.db, mid.value, last.db, last.value);
    }
  }

  lemma DeleteObjectMoves(db: Db, ever: set<SegId>, bucket: Bytes, key: Bytes, now: nat)
    requires Exclusive(db, ever) && bucket in db.buckets
    ensures var o := DeleteObject(db, bucket, key, now); Moves(db, ever, o.db, o.value)
  {
    var k := ObjKey(bucket, key);
    var db' := DeleteObject(db, bucket, key, now).db;
    ReplacedOnce(db, ever, k);
    forall s, id | HoldsAt(db', s, id) ensures HoldsAt(db, s, id) && id !in Replaced(db, k) {
      assert HoldsAt(db, s, id);
    }
    forall s, id | HoldsAt(db, s, id) ensures id in Replaced(db, k) || HoldsAt(db', s, id) {
      if s.InManifest? && s.k == k { assert Replaced(db, k)[s.i] == id; }
    }
    RewriteMoves(db, ever, db', Replaced(db, k));
  }

  lemma CommitPartMoves(db: Db, ever: set<SegId>, bucket: Bytes, uploadId: Bytes, part: u32, row: PartRow, now: nat)
    requires Exclusive(db, ever) && CommitPart(db, bucket, uploadId, part, row, now).Commit?
    ensures var o := CommitPart(db, bucket, uploadId, part, row, now); Moves(db, ever, o.db, o.value)
  {
    var k := PartKey(uploadId, part);
    var o := CommitPart(db, bucket, uploadId, part, row, now);
    forall id | id in o.value ensures HoldsAt(db, InPart(k), id) && Referenced(db, id) {
      assert HoldsAt(db, InPart(k), id);
    }
    forall s, id | HoldsAt(o.db, s, id)
      ensures if s == InPart(k) then id == row.segment else HoldsAt(db, s, id) && id !in o.value
    {
      if s != InPart(k) { assert HoldsAt(db, s, id); }
    }
    forall s, id | HoldsAt(db, s, id) ensures id in o.value || HoldsAt(o.db, s, id) {}
    assert HoldsAt(o.db, InPart(k), row.segment);
    RewriteMoves(db, ever, o.db, o.value);
  }

  lemma StagedAt(db: Db, uploadId: Bytes, i: nat)
    requires i < |Staged(db, uploadId)|
    ensures var k := Ascending(InRangeOf(db.parts, uploadId))[i];
            k in InRangeOf(db.parts, uploadId) && HoldsAt(db, InPart(k), Staged(db, uploadId)[i])
  {
    var ks := Ascending(InRangeOf(db.parts, uploadId));
    assert ks[i] in ks;
  }

  lemma StagedOnce(db: Db, ever: set<SegId>, uploadId: Bytes)
    requires Exclusive(db, ever)
    ensures NoDup(Staged(db, uploadId))
    ensures forall id :: id in Staged(db, uploadId) ==> Referenced(db, id)
    ensures forall s, id :: HoldsAt(db, s, id) && id in Staged(db, uploadId) ==>
              s.InPart? && s.k in InRangeOf(db.parts, uploadId)
  {
    var ks := Ascending(InRangeOf(db.parts, uploadId));
    var r := Staged(db, uploadId);
    AscendingNoDup(InRangeOf(db.parts, uploadId));
    forall i, j | 0 <= i < j < |r| ensures r[i] != r[j] {
      StagedAt(db, uploadId, i);
      StagedAt(db, uploadId, j);
    }
    forall id | id in r
      ensures Referenced(db, id)
      ensures forall s :: HoldsAt(db, s, id) ==> s.InPart? && s.k in InRangeOf(db.parts, uploadId)
    {
      var i :| 0 <= i < |r| && r[i] == id;
      StagedAt(db, uploadId, i);
      assert HoldsAt(db, InPart(ks[i]), id);
    }
  }

  lemma AllStaged(db: Db, uploadId: Bytes, k: Bytes)
    requires k in InRangeOf(db.parts, uploadId)
    ensures db.parts[k].segment in Staged(db, uploadId)
  {
    var ks := Ascending(InRangeOf(db.parts, uploadId));
    assert k in ks;
    var i :| 0 <= i < |ks| && ks[i] == k;
    assert Staged(db, uploadId)[i] == db.parts[k].segment;
  }

  lemma DropUploadMoves(db: Db, ever: set<SegId>, bucket: Bytes, uploadId: Bytes, now: nat)
    requires Exclusive(db, ever)
    ensures Moves(db, ever, DropUpload(db, bucket, uploadId, now), Staged(db, uploadId))
  {
    var db' := DropUpload(db, bucket, uploadId, now);
    var r := Staged(db, uploadId);
    StagedOnce(db, ever, uploadId);
    forall s, id | HoldsAt(db', s, id) ensures HoldsAt(db, s, id) && id !in r {
      assert HoldsAt(db, s, id);
    }
    forall s, id | HoldsAt(db, s, id) ensures id in r || HoldsAt(db', s, id) {
      if s.InPart? && s.k in InRangeOf(db.parts, uploadId) { AllStaged(db, uploadId, s.k); }
    }
    RewriteMoves(db, ever, db', r);
  }

  lemma {:induction false} DropStaleMoves(db0: Db, db: Db, ever: set<SegId>, ks: seq<Bytes>, now: nat,
                                          retired: Retired, aborted: nat)
    requires Exclusive(db0, ever) && Moves(db0, ever, db, retired)
    ensures var o := DropStale(db, ks, now, retired, aborted); Moves(db0, ever, o.0, o.2)
    decreases |ks|
  {
    if ks == [] || |retired| >= SWEEP_PART_ROWS {
    } else if NoNul(ks[0]) {
      DropStaleMoves(db0, db, ever, ks[1..], now, retired, aborted);
    } else {
      var bucket, uploadId := Head(ks[0]), Tail(ks[0]);
      var next := DropUpload(db, bucket, uploadId, now);
      DropUploadMoves(db, ever, bucket, uploadId, now);
      MovesCompose(db0, ever, db, retired, next, Staged(db, uploadId));
      DropStaleMoves(db0, next, ever, ks[1..], now, retired + Staged(db, uploadId), aborted + 1);
    }
  }

  // ---- completing an upload ------------------------------------------------

  /** The tables with the listed parts' segments put back among the pending: a state between the two
      halves of a complete, where the listed segments have left their part rows and have no object yet. */
  ghost function Unstaged(db: Db, listed: seq<Bytes>): Db
    requires forall k :: k in listed ==> k in db.parts
  {
    db.(parts := db.parts - Elems(listed),
        pending := Stamp(db.pending, Elems(Segments(db.parts, listed)), 0))
  }

  lemma UnstagedExclusive(db: Db, ever: set<SegId>, listed: seq<Bytes>)
    requires Exclusive(db, ever) && NoDup(listed)
    requires forall k :: k in listed ==> k in db.parts
    ensures Exclusive(Unstaged(db, listed), ever)
    ensures CanTake(Unstaged(db, listed).pending, Segments(db.parts, listed))
    ensures forall id :: id in Segments(db.parts, listed) ==> Referenced(db, id) && id !in db.pending
    ensures forall s, id :: HoldsAt(Unstaged(db, listed), s, id) ==> HoldsAt(db, s, id)
  {
    var mid := Unstaged(db, listed);
    var segs := Segments(db.parts, listed);
    forall i | 0 <= i < |segs| ensures HoldsAt(db, InPart(listed[i]), segs[i]) {}
    forall i, j | 0 <= i < j < |segs| ensures segs[i] != segs[j] {
      assert HoldsAt(db, InPart(listed[i]), segs[i]) && HoldsAt(db, InPart(listed[j]), segs[j]);
    }
    forall s, id | HoldsAt(mid, s, id) ensures HoldsAt(db, s, id) && id !in segs {
      assert HoldsAt(db, s, id);
    }
    forall id | id in segs ensures Referenced(db, id) && id !in db.pending && id !in db.garbage && id in ever {
      var i :| 0 <= i < |segs| && segs[i] == id;
      assert HoldsAt(db, InPart(listed[i]), id);
    }
  }

  lemma ListedOnce(uploadId: Bytes, numbers: seq<u32>)
    requires StrictlyRising(numbers)
    ensures NoDup(PartKeys(uploadId, numbers))
  {
    var ks := PartKeys(uploadId, numbers);
    forall i, j | 0 <= i < j < |ks| ensures ks[i] != ks[j] {
      RisingIsSorted(numbers, i, j);
      if ks[i] == ks[j] {
        assert Be32(numbers[i]) == ks[i][|uploadId| + 1..] == ks[j][|uploadId| + 1..] == Be32(numbers[j]);
        Be32RoundTrip(numbers[i]);
        Be32RoundTrip(numbers[j]);
      }
    }
  }

  lemma {:induction false} RisingIsSorted(numbers: seq<u32>, i: nat, j: nat)
    requires StrictlyRising(numbers) && i < j < |numbers|
    ensures numbers[i] < numbers[j]
    decreases j
  {
    if i + 1 < j { RisingIsSorted(numbers, i, j - 1); }
    assert numbers[j - 1] < numbers[j - 1 + 1];
  }

  lemma AssembleMoves(db: Db, ever: set<SegId>, bucket: Bytes, uploadId: Bytes, listed: seq<Bytes>, meta: ObjectMeta,
                      now: nat)
    requires Exclusive(db, ever) && NoDup(listed)
    requires forall k :: k in listed ==> k in db.parts
    ensures Moves(db, ever, Assemble(db, bucket, uploadId, listed, meta, now),
                  Staged(Taken(db, listed), uploadId) + Replaced(db, ObjKey(bucket, meta.key)))
  {
    UnstagedExclusive(db, ever, listed);
    var mid := Unstaged(db, listed);
    var dropped := DropUpload(mid, bucket, uploadId, now);
    DropUploadMoves(mid, ever, bucket, uploadId, now);
    var k := ObjKey(bucket, meta.key);
    var segments := Refs(db.parts, listed);
    var db' := Assemble(db, bucket, uploadId, listed, meta, now);
    assert Ids(segments) == Segments(db.parts, listed);
    PutMoves(dropped, ever, db', k, segments);
    MovesCompose(mid, ever, dropped, Staged(mid, uploadId), db', Replaced(dropped, k));
    UnstagedForward(db, ever, listed, db', Staged(mid, uploadId) + Replaced(dropped, k));
  }

  lemma CompleteMoves(db: Db, ever: set<SegId>, bucket: Bytes, key: Bytes, uploadId: Bytes, numbers: seq<u32>, now: nat)
    requires Exclusive(db, ever) && CompleteUpload(db, bucket, key, uploadId, numbers, now).Commit?
    ensures var o := CompleteUpload(db, bucket, key, uploadId, numbers, now); Moves(db, ever, o.db, o.value.1)
  {
    var o := CompleteUpload(db, bucket, key, uploadId, numbers, now);
    NoBadPart(db.parts, uploadId, numbers, |numbers|);
    ListedOnce(uploadId, numbers);
    AssembleMoves(db, ever, bucket, uploadId, PartKeys(uploadId, numbers), o.value.0, now);
  }

  lemma UnstagedForward(db: Db, ever: set<SegId>, listed: seq<Bytes>, db': Db, r: Retired)
    requires Exclusive(db, ever) && NoDup(listed)
    requires forall k :: k in listed ==> k in db.parts
    requires Exclusive(Unstaged(db, listed), ever) && Moves(Unstaged(db, listed), ever, db', r)
    requires db'.pending == db.pending
    ensures Moves(db, ever, db', r)
  {
    UnstagedExclusive(db, ever, listed);
    var mid := Unstaged(db, listed);
    forall id | id in mid.pending || Referenced(mid, id) ensures id in db.pending || Referenced(db, id) {
      if id !in mid.pending {
        var s :| HoldsAt(mid, s, id);
        assert HoldsAt(db, s, id);
      }
    }
    forall id | Tracked(db, id) ensures Tracked(mid, id) {
      if Referenced(db, id) && id !in mid.pending {
        var s :| HoldsAt(db, s, id);
        assert HoldsAt(mid, s, id);
      }
    }
  }
}
