/** Referential integrity: every transaction keeps each row's bucket and upload in place. */
module ReferentialIntegrity {
  import opened Common
  import opened Bytes
  import opened Keys
  import opened CorsTypes
  import opened Tables
  import opened Lifecycle

  /** A bucket leaves only when its range is empty, so no row is left naming it. */
  lemma BucketsKeep(db: Db, db': Db)
    requires Integrity(db) && db' == db.(buckets := db'.buckets)
    requires BucketsOk(db'.buckets)
    requires forall b :: b in db.buckets && b !in db'.buckets ==>
               InRangeOf(db.objects, b) + InRangeOf(db.uploads, b) == {}
    ensures Integrity(db')
  {
    forall k | k in db.objects ensures ObjectOk(db.objects, db'.buckets, k) {
      assert ObjectOk(db.objects, db.buckets, k);
      RangeIsExact(Head(k), k);
      assert Head(k) in db'.buckets || k in InRangeOf(db.objects, Head(k)) + InRangeOf(db.uploads, Head(k));
    }
    forall k | k in db.uploads ensures UploadOk(db'.buckets, k) {
      assert UploadOk(db.buckets, k);
      RangeIsExact(Head(k), k);
      assert Head(k) in db'.buckets || k in InRangeOf(db.objects, Head(k)) + InRangeOf(db.uploads, Head(k));
    }
  }

  lemma PutObjectKeeps(db: Db, bucket: Bytes, meta: ObjectMeta, segments: seq<SegRef>, now: nat)
    requires Integrity(db) && bucket in db.buckets
    ensures Integrity(PutObject(db, ObjKey(bucket, meta.key), meta, segments, now))
  {
    var k, db' := ObjKey(bucket, meta.key), PutObject(db, ObjKey(bucket, meta.key), meta, segments, now);
    forall l | l in db'.objects ensures ObjectOk(db'.objects, db.buckets, l) {
      if l == k {
        SplitJoined(bucket, meta.key);
      } else {
        assert ObjectOk(db.objects, db.buckets, l);
      }
    }
  }

  lemma {:induction false} CommitRowsKeep(db: Db, bucket: Bytes, rows: seq<ObjectRow>, now: nat)
    requires Integrity(db) && bucket in db.buckets && CommitRows(db, bucket, rows, now).Commit?
    ensures var o := CommitRows(db, bucket, rows, now); Integrity(o.db) && o.db.buckets == db.buckets
  {
    if rows != [] {
      var n := |rows| - 1;
      var mid := CommitRows(db, bucket, rows[..n], now).db;
      CommitRowsKeep(db, bucket, rows[..n], now);
      var taken := mid.(pending := mid.pending - Elems(Ids(rows[n].segments)));
      PutObjectKeeps(taken, bucket, rows[n].meta, rows[n].segments, now);
    }
  }

  lemma DeleteObjectKeeps(db: Db, bucket: Bytes, key: Bytes, now: nat)
    requires Integrity(db)
    ensures Integrity(DeleteObject(db, bucket, key, now).After(db))
  {
    var db' := DeleteObject(db, bucket, key, now).After(db);
    forall l | l in db'.objects ensures ObjectOk(db'.objects, db.buckets, l) {
      assert ObjectOk(db.objects, db.buckets, l);
    }
  }

  lemma CreateUploadKeeps(db: Db, bucket: Bytes, uploadId: Bytes, info: UploadInfo, keep: bool)
    requires Integrity(db) && NoNul(uploadId)
    requires forall k :: k in db.uploads && UploadOk(db.buckets, k) && Tail(k) == uploadId ==>
               k == UploadKey(bucket, uploadId)
    ensures Integrity(CreateUpload(db, bucket, uploadId, info, keep).After(db))
  {
    var k, db' := UploadKey(bucket, uploadId), CreateUpload(db, bucket, uploadId, info, keep).After(db);
    if db' != db {
      SplitJoined(bucket, uploadId);
      forall l | l in db'.uploads ensures UploadOk(db.buckets, l) {
        if l != k { assert UploadOk(db.buckets, l); }
      }
      MoreUploads(db.parts, db.uploads, db'.uploads);
    }
  }

  lemma MoreUploads(parts: map<Bytes, PartRow>, uploads: map<Bytes, UploadInfo>, uploads': map<Bytes, UploadInfo>)
    requires PartsOk(parts, uploads) && forall k :: k in uploads ==> k in uploads'
    ensures PartsOk(parts, uploads')
  {
    forall k | k in parts ensures PartOk(uploads', k) {
      assert PartOk(uploads, k);
      var u :| u in uploads && !NoNul(u) && Tail(u) == Head(k);
      assert u in uploads';
    }
  }

  /** The staged-part cap holds because only a new part number adds a row. */
  lemma CommitPartKeeps(db: Db, bucket: Bytes, uploadId: Bytes, part: u32, row: PartRow, now: nat)
    requires Integrity(db)
    ensures Integrity(CommitPart(db, bucket, uploadId, part, row, now).After(db))
  {
    var o := CommitPart(db, bucket, uploadId, part, row, now);
    if o.Commit? {
      var u, k := UploadKey(bucket, uploadId), PartKey(uploadId, part);
      SplitJoined(bucket, uploadId);
      assert UploadOk(db.buckets, u);
      assert u in db.uploads && !NoNul(u) && Tail(u) == uploadId;
      NewPart(db.parts, db.uploads, uploadId, part, row);
    }
  }

  lemma NewPart(parts: map<Bytes, PartRow>, uploads: map<Bytes, UploadInfo>, uploadId: Bytes, part: u32, row: PartRow)
    requires PartsOk(parts, uploads) && NoNul(uploadId) && UploadExists(uploads, uploadId)
    requires PartKey(uploadId, part) in parts || |parts| < MAX_STAGED_PARTS
    ensures PartsOk(parts[PartKey(uploadId, part) := row], uploads)
  {
    var k := PartKey(uploadId, part);
    var parts' := parts[k := row];
    assert PartOk(uploads, k) by {
      SplitJoined(uploadId, Be32(part));
      Be32RoundTrip(part);
    }
    forall l | l in parts' ensures PartOk(uploads, l) {
      if l != k { assert l in parts; }
    }
    assert parts'.Keys == parts.Keys + {k};
    assert |parts'| == |parts'.Keys| && |parts| == |parts.Keys|;
  }

  lemma FewerParts(db: Db, gone: set<Bytes>)
    requires Integrity(db)
    ensures Integrity(db.(parts := db.parts - gone))
  {
    var parts' := db.parts - gone;
    assert parts'.Keys <= db.parts.Keys;
    SubsetSize(parts'.Keys, db.parts.Keys);
    assert |parts'| == |parts'.Keys| && |db.parts| == |db.parts.Keys|;
  }

  lemma PartRange(db: Db, uploadId: Bytes, k: Bytes)
    requires Integrity(db) && NoNul(uploadId) && k in db.parts
    ensures k in InRangeOf(db.parts, uploadId) <==> Head(k) == uploadId
  {
    assert PartOk(db.uploads, k);
    RangeIsExact(uploadId, k);
  }

  /** Dropping an upload takes every part of it, and no part of another. */
  lemma DropUploadKeeps(db: Db, bucket: Bytes, uploadId: Bytes, now: nat)
    requires Integrity(db) && NoNul(bucket) && NoNul(uploadId)
    ensures var db' := DropUpload(db, bucket, uploadId, now);
            && Integrity(db') && db'.buckets == db.buckets
            && (forall k :: k in db'.parts <==> k in db.parts && Head(k) != uploadId)
            && db'.uploads.Keys == db.uploads.Keys - {UploadKey(bucket, uploadId)}
  {
    var db' := DropUpload(db, bucket, uploadId, now);
    var u := UploadKey(bucket, uploadId);
    FewerParts(db, InRangeOf(db.parts, uploadId));
    SplitJoined(bucket, uploadId);
    forall k | k in db.parts ensures k in db'.parts <==> Head(k) != uploadId {
      PartRange(db, uploadId, k);
    }
    FewerUploads(db'.parts, db.uploads, u);
    forall l | l in db'.uploads ensures UploadOk(db.buckets, l) {
      assert UploadOk(db.buckets, l);
    }
  }

  lemma FewerUploads(parts: map<Bytes, PartRow>, uploads: map<Bytes, UploadInfo>, u: Bytes)
    requires PartsOk(parts, uploads) && !NoNul(u)
    requires forall k :: k in parts ==> Head(k) != Tail(u)
    ensures PartsOk(parts, uploads - {u})
  {
    forall k | k in parts ensures PartOk(uploads - {u}, k) {
      assert PartOk(uploads, k);
      var l :| l in uploads && !NoNul(l) && Tail(l) == Head(k);
      assert l in uploads - {u};
    }
  }

  lemma {:induction false} DropStaleKeeps(db: Db, ks: seq<Bytes>, now: nat, retired: Retired, aborted: nat)
    requires Integrity(db) && forall k :: k in ks ==> !NoNul(k) && NoNul(Tail(k))
    ensures var o := DropStale(db, ks, now, retired, aborted); Integrity(o.0)
    decreases |ks|
  {
    if ks != [] && |retired| < SWEEP_PART_ROWS {
      assert ks[0] in ks;
      var bucket, uploadId := Head(ks[0]), Tail(ks[0]);
      DropUploadKeeps(db, bucket, uploadId, now);
      DropStaleKeeps(DropUpload(db, bucket, uploadId, now), ks[1..], now, retired + Staged(db, uploadId), aborted + 1);
    }
  }

  lemma AbortUploadsKeeps(db: Db, threshold: nat, now: nat, limit: nat)
    requires Integrity(db)
    ensures Integrity(AbortUploadsBefore(db, threshold, now, limit).db)
  {
    var ks := FirstStale(db.uploads, threshold, limit);
    forall k | k in ks ensures !NoNul(k) && NoNul(Tail(k)) {
      assert UploadOk(db.buckets, k);
    }
    DropStaleKeeps(db, ks, now, [], 0);
  }

  lemma AssembleKeeps(db: Db, bucket: Bytes, uploadId: Bytes, listed: seq<Bytes>, meta: ObjectMeta, now: nat)
    requires Integrity(db) && bucket in db.buckets && UploadKey(bucket, uploadId) in db.uploads
    requires forall k :: k in listed ==> k in db.parts
    ensures Integrity(Assemble(db, bucket, uploadId, listed, meta, now))
  {
    FewerParts(db, Elems(listed));
    SplitJoined(bucket, uploadId);
    assert UploadOk(db.buckets, UploadKey(bucket, uploadId));
    DropUploadKeeps(Taken(db, listed), bucket, uploadId, now);
    PutObjectKeeps(DropUpload(Taken(db, listed), bucket, uploadId, now), bucket, meta, Refs(db.parts, listed), now);
  }

  lemma CompleteKeeps(db: Db, bucket: Bytes, key: Bytes, uploadId: Bytes, numbers: seq<u32>, now: nat)
    requires Integrity(db) && CompleteUpload(db, bucket, key, uploadId, numbers, now).Commit?
    ensures Integrity(CompleteUpload(db, bucket, key, uploadId, numbers, now).db)
  {
    hide Integrity, Assemble;
    NoBadPart(db.parts, uploadId, numbers, |numbers|);
    AssembleKeeps(db, bucket, uploadId, PartKeys(uploadId, numbers),
                  CompleteUpload(db, bucket, key, uploadId, numbers, now).value.0, now);
  }
}
