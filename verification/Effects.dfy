/** What each write transaction of the index achieves, read off the tables before and after it, and exactly when
    it is refused. */
module IndexEffects {
  import opened Common
  import opened Bytes
  import opened Keys
  import opened CorsTypes
  import opened Tables
  import opened Lifecycle
  import opened ReferentialIntegrity

  /** `ids` join the garbage at time `now`; every other row of it is as it was. */
  ghost predicate Joins(garbage: map<SegId, nat>, garbage': map<SegId, nat>, ids: seq<SegId>, now: nat) {
    && (forall id :: id in garbage' <==> id in garbage || id in ids)
    && (forall id :: id in garbage' ==> garbage'[id] == if id in ids then now else garbage[id])
  }

  /** Row `k` is gone, and nothing else has changed. */
  ghost predicate OnlyLoses<V>(t: map<Bytes, V>, t': map<Bytes, V>, k: Bytes) {
    k !in t' && forall x :: x != k ==> (x in t' <==> x in t) && (x in t' ==> t'[x] == t[x])
  }

  /** Row `k` is `v`, and nothing else has changed. */
  ghost predicate OnlyPuts<V>(t: map<Bytes, V>, t': map<Bytes, V>, k: Bytes, v: V) {
    k in t' && t'[k] == v && forall x :: x != k ==> (x in t' <==> x in t) && (x in t' ==> t'[x] == t[x])
  }

  /** Every row whose key begins with `p` is gone, and nothing else has changed. */
  ghost predicate OnlyLosesUnder<V>(t: map<Bytes, V>, t': map<Bytes, V>, p: Bytes) {
    && (forall x :: x in t' <==> x in t && !(p <= x))
    && (forall x :: x in t' ==> t'[x] == t[x])
  }

  lemma StampJoins(table: map<SegId, nat>, ids: seq<SegId>, now: nat)
    ensures Joins(table, Stamp(table, Elems(ids), now), ids, now)
  {}

  lemma Loses<V>(t: map<Bytes, V>, k: Bytes)
    ensures OnlyLoses(t, t - {k}, k)
  {}

  lemma Puts<V>(t: map<Bytes, V>, k: Bytes, v: V)
    ensures OnlyPuts(t, t[k := v], k, v)
  {}

  // ---- buckets ------------------------------------------------------------------------------

  lemma CreateBucketDoes(db: Db, bucket: Bytes, now: nat)
    ensures match CreateBucket(db, bucket, now)
            case Abort(e) => bucket in db.buckets && e == BucketAlreadyExists
            case Commit(db', _) =>
              bucket !in db.buckets && db' == db.(buckets := db'.buckets) &&
              OnlyPuts(db.buckets, db'.buckets, bucket, BucketRow(now, None))
  {}

  lemma EnsureBucketDoes(db: Db, bucket: Bytes, created: nat)
    ensures match EnsureBucket(db, bucket, created)
            case Abort(_) => false
            case Commit(db', _) =>
              if bucket in db.buckets then db' == db
              else db' == db.(buckets := db'.buckets) &&
                   OnlyPuts(db.buckets, db'.buckets, bucket, BucketRow(created, None))
  {}

  /** A bucket goes if and only if it is there and no object's or upload's key is in it. */
  lemma DeleteBucketDoes(db: Db, bucket: Bytes)
    ensures match DeleteBucket(db, bucket)
            case Abort(e) =>
              if bucket !in db.buckets then e == NoSuchBucket
              else e == BucketNotEmpty && exists k :: (k in db.objects || k in db.uploads) && bucket + [0] <= k
            case Commit(db', _) =>
              && bucket in db.buckets && (forall k :: k in db.objects || k in db.uploads ==> !(bucket + [0] <= k))
              && db' == db.(buckets := db'.buckets) && OnlyLoses(db.buckets, db'.buckets, bucket)
  {
    forall k ensures InRange(bucket, k) <==> bucket + [0] <= k { UnitRange(bucket, 0, k); }
    if bucket in db.buckets {
      var held := InRangeOf(db.objects, bucket) + InRangeOf(db.uploads, bucket);
      if held != {} { var k :| k in held; }
      forall k | k in db.objects || k in db.uploads ensures bucket + [0] <= k ==> k in held {}
    }
  }

  lemma SetCorsDoes(db: Db, bucket: Bytes, cors: Option<CorsConfig>)
    ensures match SetCors(db, bucket, cors)
            case Abort(e) => bucket !in db.buckets && cors.Some? && e == NoSuchBucket
            case Commit(db', _) =>
              if bucket !in db.buckets then cors.None? && db' == db
              else db' == db.(buckets := db'.buckets) &&
                   OnlyPuts(db.buckets, db'.buckets, bucket, BucketRow(db.buckets[bucket].created, cors))
  {}

  // ---- segments -----------------------------------------------------------------------------

  lemma AddPendingDoes(db: Db, ids: seq<SegId>, now: nat)
    ensures var o := AddPending(db, ids, now);
            o.Commit? && o.db == db.(pending := o.db.pending) && Joins(db.pending, o.db.pending, ids, now)
  {}

  /** `id` is named before `other` is. */
  ghost predicate NamedBefore(ids: seq<SegId>, id: SegId, other: SegId) {
    exists i :: 0 <= i < |ids| && ids[i] == id && other !in ids[..i + 1]
  }

  lemma {:induction false} StillPendingOrder(pending: map<SegId, nat>, ids: seq<SegId>, i: nat, j: nat)
    requires i < j < |StillPending(pending, ids)|
    ensures var r := StillPending(pending, ids); NamedBefore(ids, r[i], r[j])
    decreases |ids|
  {
    var n := |ids| - 1;
    var before, r := StillPending(pending, ids[..n]), StillPending(pending, ids);
    if j < |before| {
      StillPendingOrder(pending, ids[..n], i, j);
      var k :| 0 <= k < n && ids[..n][k] == r[i] && r[j] !in ids[..n][..k + 1];
      assert ids[..n][..k + 1] == ids[..k + 1];
    } else {
      assert r[i] in before && r[j] == ids[n] && r[j] !in before;
      assert r[i] in ids[..n];
      var k :| 0 <= k < n && ids[..n][k] == r[i];
      assert ids[k] == r[i];
      forall m | 0 <= m < k + 1 ensures ids[m] != r[j] {
        assert ids[..n][m] in ids[..n] && ids[..n][m] == ids[m];
      }
    }
  }

  /** Ids still pending leave the table for the garbage, and are returned once each, in the order first named. */
  lemma DiscardPendingDoes(db: Db, ids: seq<SegId>, now: nat)
    ensures var o := DiscardPending(db, ids, now);
            && o.Commit? && o.db == db.(pending := o.db.pending, garbage := o.db.garbage)
            && NoDup(o.value) && (forall id :: id in o.value <==> id in ids && id in db.pending)
            && (forall i, j :: 0 <= i < j < |o.value| ==> NamedBefore(ids, o.value[i], o.value[j]))
            && (forall id :: id in o.db.pending <==> id in db.pending && id !in ids)
            && (forall id :: id in o.db.pending ==> o.db.pending[id] == db.pending[id])
            && Joins(db.garbage, o.db.garbage, o.value, now)
  {
    var r := StillPending(db.pending, ids);
    forall i, j | 0 <= i < j < |r| ensures NamedBefore(ids, r[i], r[j]) { StillPendingOrder(db.pending, ids, i, j); }
  }

  /** Twelve hours after it was recorded, with the sum capped at the largest `u64`. */
  predicate Expired(since: nat, now: nat) {
    (if since + 43_200 > 0xFFFF_FFFF_FFFF_FFFF then 0xFFFF_FFFF_FFFF_FFFF else since + 43_200) <= now
  }

  /** Exactly the expired ids leave the pending table for the garbage; no other row changes. */
  lemma ClaimDueDoes(db: Db, now: nat, limit: nat, id: SegId)
    ensures var o := ClaimDue(db, now, limit);
            var due := id in db.pending && Expired(db.pending[id], now);
            && o.Commit? && o.db == db.(pending := o.db.pending, garbage := o.db.garbage)
            && (id in o.db.pending <==> id in db.pending && !due)
            && (id in o.db.pending ==> o.db.pending[id] == db.pending[id])
            && (id in o.db.garbage <==> id in db.garbage || due)
            && (id in o.db.garbage ==> o.db.garbage[id] == if due then now else db.garbage[id])
  {
    assert id in Stale(db.pending, now) <==> id in db.pending && Expired(db.pending[id], now);
    hide Stale, Expired;
  }

  /** What it returns: the least `limit` ids of the garbage, in order. */
  lemma ClaimDueLists(db: Db, now: nat, limit: nat)
    ensures var o := ClaimDue(db, now, limit);
            && Ascends(o.value) && (forall id :: id in o.value ==> id in o.db.garbage)
            && |o.value| == (if limit < |o.db.garbage| then limit else |o.db.garbage|)
            && (forall id, x :: id in o.db.garbage && id !in o.value && x in o.value ==> Lt(x, id))
  {
    var o := ClaimDue(db, now, limit);
    LeastFirst(Ascending(o.db.garbage.Keys), |o.value|);
    hide Ascends, Stale, Stamp;
  }

  /** The first `n` of an ascending list are its least. */
  lemma LeastFirst(due: seq<SegId>, n: nat)
    requires Ascends(due) && n <= |due|
    ensures Ascends(due[..n]) && (forall id :: id in due[..n] ==> id in due)
    ensures forall id, x :: id in due && id !in due[..n] && x in due[..n] ==> Lt(x, id)
  {
    forall id, x | id in due && id !in due[..n] && x in due[..n] ensures Lt(x, id) {
      var i :| 0 <= i < |due| && due[i] == id;
      var j :| 0 <= j < n && due[..n][j] == x;
      assert forall m :: 0 <= m < n ==> due[..n][m] in due[..n] && due[..n][m] == due[m];
    }
  }

  lemma ForgetSegmentsDoes(db: Db, ids: seq<SegId>)
    ensures var o := ForgetSegments(db, ids);
            && o.Commit? && o.db == db.(garbage := o.db.garbage)
            && (forall id :: id in o.db.garbage <==> id in db.garbage && id !in ids)
            && (forall id :: id in o.db.garbage ==> o.db.garbage[id] == db.garbage[id])
  {}

  // ---- objects ------------------------------------------------------------------------------

  /** The ids of the segments an object's manifest lists, if there is one. */
  ghost predicate ListsIds(manifests: map<Bytes, seq<SegRef>>, k: Bytes, ids: seq<SegId>) {
    if k !in manifests then ids == [] else
      |ids| == |manifests[k]| && forall i :: 0 <= i < |ids| ==> ids[i] == manifests[k][i].id
  }

  /** A delete that commits leaves neither row of the key, touches nothing else, and retires the manifest. */
  lemma DeleteObjectDoes(db: Db, bucket: Bytes, key: Bytes, now: nat)
    ensures match DeleteObject(db, bucket, key, now)
            case Abort(e) => bucket !in db.buckets && e == NoSuchBucket
            case Commit(db', retired) =>
              var k := bucket + [0] + key;
              && bucket in db.buckets
              && OnlyLoses(db.objects, db'.objects, k) && OnlyLoses(db.manifests, db'.manifests, k)
              && db'.buckets == db.buckets && db'.uploads == db.uploads && db'.parts == db.parts
              && db'.pending == db.pending && Joins(db.garbage, db'.garbage, retired, now)
              && ListsIds(db.manifests, k, retired)
  {}

  /** Every id the rows name, in order. */
  function NamedIds(rows: seq<ObjectRow>): seq<SegId> {
    if rows == [] then [] else NamedIds(rows[..|rows| - 1]) + Ids(rows[|rows| - 1].segments)
  }

  /** What is left pending after the rows. */
  lemma {:induction false} RowsTake(db: Db, bucket: Bytes, rows: seq<ObjectRow>, now: nat)
    ensures var o := CommitRows(db, bucket, rows, now);
            && (o.Commit? <==> NoDup(NamedIds(rows)) && forall id :: id in NamedIds(rows) ==> id in db.pending)
            && (o.Abort? ==> o.error == NoLongerPending)
            && (o.Commit? ==> o.db.pending == db.pending - Elems(NamedIds(rows)))
            && (o.Commit? ==> o.db == db.(objects := o.db.objects, manifests := o.db.manifests, pending := o.db.pending,
                                          garbage := o.db.garbage))
    decreases |rows|
  {
    hide Stamp, Ids, Replaced, ObjKey;
    if rows != [] {
      var n := |rows| - 1;
      RowsTake(db, bucket, rows[..n], now);
      DistinctJoin(NamedIds(rows[..n]), Ids(rows[n].segments));
      TakesMore(db.pending, NamedIds(rows[..n]), Ids(rows[n].segments));
    }
  }

  lemma DistinctJoin(a: seq<SegId>, b: seq<SegId>)
    ensures NoDup(a + b) <==> NoDup(a) && NoDup(b) && forall x :: x in b ==> x !in a
  {
    if NoDup(a + b) {
      forall i, j | 0 <= i < j < |b| ensures b[i] != b[j] { assert (a + b)[|a| + i] != (a + b)[|a| + j]; }
      forall i, j | 0 <= i < j < |a| ensures a[i] != a[j] { assert (a + b)[i] != (a + b)[j]; }
      forall i, j | 0 <= i < |a| && 0 <= j < |b| ensures a[i] != b[j] { assert (a + b)[i] != (a + b)[|a| + j]; }
    } else {
      var i, j :| 0 <= i < j < |a + b| && (a + b)[i] == (a + b)[j];
      if i < |a| && j >= |a| { assert b[j - |a|] in b && a[i] in a; }
    }
  }

  lemma TakesMore(pending: map<SegId, nat>, a: seq<SegId>, b: seq<SegId>)
    ensures pending - Elems(a) - Elems(b) == pending - Elems(a + b)
    ensures (forall id :: id in a + b ==> id in pending) <==>
            (forall id :: id in a ==> id in pending) && forall id :: id in b ==> id in pending
    ensures (forall x :: x in b ==> x in pending - Elems(a)) <==>
            (forall x :: x in b ==> x in pending) && forall x :: x in b ==> x !in a
  {}

  ghost predicate AllPending(db: Db, ids: seq<SegId>) {
    NoDup(ids) && forall id :: id in ids ==> id in db.pending
  }

  /** Rows commit together if and only if the bucket is there and the ids they name are pending and all
      different. */
  lemma CommitsExactly(db: Db, bucket: Bytes, rows: seq<ObjectRow>, now: nat)
    ensures match CommitObjects(db, bucket, rows, now)
            case Abort(e) =>
              if bucket !in db.buckets then e == NoSuchBucket
              else e == NoLongerPending && !AllPending(db, NamedIds(rows))
            case Commit(db', _) =>
              && bucket in db.buckets && AllPending(db, NamedIds(rows))
              && db'.buckets == db.buckets && db'.uploads == db.uploads && db'.parts == db.parts
              && db'.pending == db.pending - Elems(NamedIds(rows))
  {
    RowsTake(db, bucket, rows, now);
  }

  /** Row `i` is the last of `rows` for its key. */
  ghost predicate LastFor(rows: seq<ObjectRow>, i: nat, key: Bytes) {
    i < |rows| && rows[i].meta.key == key && forall j :: i < j < |rows| ==> rows[j].meta.key != key
  }

  /** What the tables hold under a key that row `i` was the last to write. */
  ghost predicate HoldsRow(db: Db, bucket: Bytes, row: ObjectRow) {
    var k := bucket + [0] + row.meta.key;
    && k in db.objects && db.objects[k] == row.meta
    && k in db.manifests && db.manifests[k] == row.segments
  }

  /** Both rows of key `k` are as they were. */
  ghost predicate SameRows(db: Db, db': Db, k: Bytes) {
    && (k in db'.objects <==> k in db.objects) && (k in db.objects ==> db'.objects[k] == db.objects[k])
    && (k in db'.manifests <==> k in db.manifests) && (k in db.manifests ==> db'.manifests[k] == db.manifests[k])
  }

  ghost predicate Unwritten(bucket: Bytes, rows: seq<ObjectRow>, k: Bytes) {
    forall i :: 0 <= i < |rows| ==> k != bucket + [0] + rows[i].meta.key
  }

  lemma PutHolds(db: Db, bucket: Bytes, row: ObjectRow, now: nat)
    requires CommitRow(db, bucket, row, now).Commit?
    ensures var db' := CommitRow(db, bucket, row, now).db;
            HoldsRow(db', bucket, row) && forall k :: k != bucket + [0] + row.meta.key ==> SameRows(db, db', k)
  {
    hide Stamp, Ids, Replaced, CanTake;
  }

  /** Each key written holds its last row, and no other key's rows change. */
  lemma {:induction false} CommitPuts(db: Db, bucket: Bytes, rows: seq<ObjectRow>, now: nat)
    requires CommitRows(db, bucket, rows, now).Commit?
    ensures var db' := CommitRows(db, bucket, rows, now).db;
            && (forall i: nat, key :: LastFor(rows, i, key) ==> HoldsRow(db', bucket, rows[i]))
            && (forall k :: Unwritten(bucket, rows, k) ==> SameRows(db, db', k))
    decreases |rows|
  {
    hide CommitRow, HoldsRow;
    if rows != [] {
      var n := |rows| - 1;
      CommitPuts(db, bucket, rows[..n], now);
      var mid, db' := CommitRows(db, bucket, rows[..n], now).db, CommitRows(db, bucket, rows, now).db;
      PutHolds(mid, bucket, rows[n], now);
      forall i: nat, key | LastFor(rows, i, key) ensures HoldsRow(db', bucket, rows[i]) {
        if i < n {
          assert LastFor(rows[..n], i, key);
          OtherKey(bucket, key, rows[n].meta.key);
          StillHolds(mid, db', bucket, rows[i]);
        }
      }
      forall k | Unwritten(bucket, rows, k) ensures SameRows(db, db', k) {
        assert Unwritten(bucket, rows[..n], k) && k != bucket + [0] + rows[n].meta.key;
        assert SameRows(db, mid, k) && SameRows(mid, db', k);
      }
    }
  }

  lemma StillHolds(db: Db, db': Db, bucket: Bytes, row: ObjectRow)
    requires HoldsRow(db, bucket, row) && SameRows(db, db', bucket + [0] + row.meta.key)
    ensures HoldsRow(db', bucket, row)
  {}

  lemma OtherKey(bucket: Bytes, a: Bytes, b: Bytes)
    requires a != b
    ensures bucket + [0] + a != bucket + [0] + b
  {
    assert (bucket + [0] + a)[|bucket| + 1..] == a && (bucket + [0] + b)[|bucket| + 1..] == b;
  }

  /** One row: what was there is retired. */
  lemma CommitRowDoes(db: Db, bucket: Bytes, row: ObjectRow, now: nat)
    requires CommitRow(db, bucket, row, now).Commit?
    ensures var Commit(db', retired) := CommitRow(db, bucket, row, now);
            var k := bucket + [0] + row.meta.key;
            && OnlyPuts(db.objects, db'.objects, k, row.meta) && OnlyPuts(db.manifests, db'.manifests, k, row.segments)
            && Joins(db.garbage, db'.garbage, retired, now) && ListsIds(db.manifests, k, retired)
  {}

  // ---- multipart ----------------------------------------------------------------------------

  lemma CreateUploadDoes(db: Db, bucket: Bytes, uploadId: Bytes, info: UploadInfo, keepExisting: bool)
    ensures match CreateUpload(db, bucket, uploadId, info, keepExisting)
            case Abort(e) => bucket !in db.buckets && e == NoSuchBucket
            case Commit(db', _) =>
              var k := bucket + [0] + uploadId;
              && bucket in db.buckets && db' == db.(uploads := db'.uploads)
              && (if keepExisting && k in db.uploads then db' == db else OnlyPuts(db.uploads, db'.uploads, k, info))
  {}

  /** A part's key, with its number in four bytes, the highest first. */
  function PartAt(uploadId: Bytes, n: u32): Bytes {
    uploadId + [0] + [n / 16_777_216, n / 65_536 % 256, n / 256 % 256, n % 256]
  }

  lemma PartIsAt(uploadId: Bytes, n: u32)
    ensures PartKey(uploadId, n) == PartAt(uploadId, n)
  {}

  /** A part is staged if and only if its bucket and upload are there, it replaces one or fewer than a hundred
      thousand are staged, and its segment is pending. */
  lemma CommitPartDoes(db: Db, bucket: Bytes, uploadId: Bytes, part: u32, row: PartRow, now: nat)
    ensures var k := PartAt(uploadId, part);
            match CommitPart(db, bucket, uploadId, part, row, now)
            case Abort(e) =>
              if bucket !in db.buckets then e == NoSuchBucket
              else if bucket + [0] + uploadId !in db.uploads then e == NoSuchUpload
              else if k !in db.parts && |db.parts| >= 100_000 then e == TooManyStagedParts
              else e == NoLongerPending && row.segment !in db.pending
            case Commit(db', retired) =>
              && bucket in db.buckets && bucket + [0] + uploadId in db.uploads
              && (k in db.parts || |db.parts| < 100_000) && row.segment in db.pending
              && db' == db.(parts := db'.parts, pending := db'.pending, garbage := db'.garbage)
              && OnlyPuts(db.parts, db'.parts, k, row) && OnlyLoses(db.pending, db'.pending, row.segment)
              && retired == (if k in db.parts then [db.parts[k].segment] else [])
              && Joins(db.garbage, db'.garbage, retired, now)
  {
    var k := PartKey(uploadId, part);
    PartIsAt(uploadId, part);
    var retired := if k in db.parts then [db.parts[k].segment] else [];
    StampJoins(db.garbage, retired, now);
    Puts(db.parts, k, row);
    Loses(db.pending, row.segment);
    hide PartAt, PartKey, Joins, OnlyPuts, OnlyLoses, Stamp;
  }

  // ---- completing an upload --------------------------------------------------------------------

  /** Listed part `i` is not there. */
  predicate Missing(db: Db, uploadId: Bytes, numbers: seq<u32>, i: nat)
    requires i < |numbers|
  {
    PartAt(uploadId, numbers[i]) !in db.parts
  }

  /** Listed part `i` is there, has another after it, and is under five mebibytes. */
  predicate Undersized(db: Db, uploadId: Bytes, numbers: seq<u32>, i: nat)
    requires i < |numbers|
  {
    && PartAt(uploadId, numbers[i]) in db.parts && i + 1 < |numbers|
    && db.parts[PartAt(uploadId, numbers[i])].size < 5 * 1024 * 1024
  }

  predicate Rises(numbers: seq<u32>) {
    forall i, j :: 0 <= i < j < |numbers| ==> numbers[i] < numbers[j]
  }

  lemma {:induction false} StepsRise(numbers: seq<u32>, i: nat, j: nat)
    requires StrictlyRising(numbers) && i < j < |numbers|
    ensures numbers[i] < numbers[j]
    decreases j
  {
    if i < j - 1 { StepsRise(numbers, i, j - 1); }
    assert numbers[j - 1] < numbers[j - 1 + 1];
  }

  lemma RisesExactly(numbers: seq<u32>)
    ensures StrictlyRising(numbers) <==> Rises(numbers)
  {
    if StrictlyRising(numbers) {
      forall i, j | 0 <= i < j < |numbers| ensures numbers[i] < numbers[j] { StepsRise(numbers, i, j); }
    }
  }

  /** Listed part `i` is the first with something wrong, and `e` says what. */
  ghost predicate FaultAt(db: Db, uploadId: Bytes, numbers: seq<u32>, i: nat, e: ObjectError)
    requires i < |numbers|
  {
    && (forall j: nat :: j < i ==> !Missing(db, uploadId, numbers, j) && !Undersized(db, uploadId, numbers, j))
    && ((Missing(db, uploadId, numbers, i) && e == MissingPart(numbers[i])) ||
        (Undersized(db, uploadId, numbers, i) && e == EntityTooSmall(numbers[i])))
  }

  lemma {:induction false} BadPartExactly(db: Db, uploadId: Bytes, numbers: seq<u32>, n: nat)
    requires n <= |numbers|
    ensures var bad := BadPart(db.parts, uploadId, numbers[..n], |numbers|);
            && (bad.None? <==> forall i: nat :: i < n ==>
                  !Missing(db, uploadId, numbers, i) && !Undersized(db, uploadId, numbers, i))
            && (bad.Some? ==> exists i: nat :: i < n && FaultAt(db, uploadId, numbers, i, bad.value))
  {
    if n > 0 {
      BadPartExactly(db, uploadId, numbers, n - 1);
      assert numbers[..n][..n - 1] == numbers[..n - 1];
      PartIsAt(uploadId, numbers[n - 1]);
      hide PartAt, PartKey;
      var bad := BadPart(db.parts, uploadId, numbers[..n], |numbers|);
      if BadPart(db.parts, uploadId, numbers[..n - 1], |numbers|).None? && bad.Some? {
        assert FaultAt(db, uploadId, numbers, n - 1, bad.value);
      }
    }
  }

  /** An upload completes if and only if its bucket and its row are there, the row is for this key, and the
      list is of at least one part, in rising order, of parts that are there and, but for the last, at least
      five mebibytes. Otherwise the first of these that fails, in this order, tells the error. */
  lemma CompletesExactly(db: Db, bucket: Bytes, key: Bytes, uploadId: Bytes, numbers: seq<u32>, now: nat)
    ensures var u := bucket + [0] + uploadId;
            match CompleteUpload(db, bucket, key, uploadId, numbers, now)
            case Commit(_, _) =>
              && bucket in db.buckets && u in db.uploads && db.uploads[u].key == key
              && numbers != [] && Rises(numbers)
              && forall i: nat :: i < |numbers| ==>
                   !Missing(db, uploadId, numbers, i) && !Undersized(db, uploadId, numbers, i)
            case Abort(e) =>
              if bucket !in db.buckets then e == NoSuchBucket
              else if u !in db.uploads then e == NoSuchUpload
              else if db.uploads[u].key != key then e == KeyDoesNotMatchUpload
              else if numbers == [] then e == NoParts
              else if !Rises(numbers) then e == InvalidPartOrder
              else exists i: nat :: i < |numbers| && FaultAt(db, uploadId, numbers, i, e)
  {
    hide BadPart, Missing, Undersized, FaultAt, Assemble, CompletedMeta, Staged, Replaced;
    RisesExactly(numbers);
    assert numbers[..|numbers|] == numbers;
    BadPartExactly(db, uploadId, numbers, |numbers|);
  }

  function Concat<T>(ss: seq<seq<T>>): seq<T> {
    if ss == [] then [] else ss[0] + Concat(ss[1..])
  }

  lemma {:induction false} ConcatEnds<T>(ss: seq<seq<T>>, s: seq<T>)
    ensures Concat(ss + [s]) == Concat(ss) + s
    decreases |ss|
  {
    if ss == [] {
      assert ss + [s] == [s] && [s][1..] == [];
    } else {
      assert (ss + [s])[1..] == ss[1..] + [s];
      ConcatEnds(ss[1..], s);
      Associates(ss[0], Concat(ss[1..]), s);
    }
  }

  /** The listed parts' digests, in listed order. */
  ghost predicate DigestsOf(db: Db, uploadId: Bytes, numbers: seq<u32>, md5s: seq<Bytes>) {
    |md5s| == |numbers| && forall i: nat :: i < |numbers| ==>
      PartAt(uploadId, numbers[i]) in db.parts && md5s[i] == db.parts[PartAt(uploadId, numbers[i])].md5
  }

  /** The listed parts' segments, in listed order. */
  ghost predicate SegmentsOf(db: Db, uploadId: Bytes, numbers: seq<u32>, segments: seq<SegRef>) {
    |segments| == |numbers| && forall i: nat :: i < |numbers| ==>
      && PartAt(uploadId, numbers[i]) in db.parts
      && var row := db.parts[PartAt(uploadId, numbers[i])];
         segments[i].id == row.segment && segments[i].size == row.size
  }

  function Sizes(segments: seq<SegRef>): seq<nat> {
    seq(|segments|, i requires 0 <= i < |segments| => segments[i].size)
  }

  lemma {:induction false} TotalIsSum(segments: seq<SegRef>)
    ensures TotalSize(segments) == Sum(Sizes(segments))
  {
    if segments != [] {
      var n := |segments| - 1;
      TotalIsSum(segments[..n]);
      assert Sizes(segments)[..n] == Sizes(segments[..n]);
    }
  }

  lemma {:induction false} DigestsAre(db: Db, uploadId: Bytes, numbers: seq<u32>) returns (md5s: seq<Bytes>)
    requires forall k :: k in PartKeys(uploadId, numbers) ==> k in db.parts
    ensures DigestsOf(db, uploadId, numbers, md5s) && Digests(db.parts, PartKeys(uploadId, numbers)) == Concat(md5s)
  {
    if numbers == [] {
      md5s := [];
    } else {
      var n, ks := |numbers| - 1, PartKeys(uploadId, numbers);
      assert ks[..n] == PartKeys(uploadId, numbers[..n]) && ks[n] in ks;
      md5s := DigestsAre(db, uploadId, numbers[..n]);
      ConcatEnds(md5s, db.parts[ks[n]].md5);
      md5s := md5s + [db.parts[ks[n]].md5];
      forall i: nat | i < |numbers|
        ensures PartAt(uploadId, numbers[i]) in db.parts && md5s[i] == db.parts[PartAt(uploadId, numbers[i])].md5
      {
        PartIsAt(uploadId, numbers[i]);
        if i < n { assert numbers[..n][i] == numbers[i]; }
      }
    }
  }

  lemma RefsAre(db: Db, uploadId: Bytes, numbers: seq<u32>)
    requires forall k :: k in PartKeys(uploadId, numbers) ==> k in db.parts
    ensures SegmentsOf(db, uploadId, numbers, Refs(db.parts, PartKeys(uploadId, numbers)))
  {
    var ks := PartKeys(uploadId, numbers);
    forall i: nat | i < |numbers| ensures PartAt(uploadId, numbers[i]) == ks[i] && ks[i] in db.parts {
      PartIsAt(uploadId, numbers[i]);
      assert ks[i] in ks;
    }
    hide PartAt, PartKeys, PartKey;
  }

  /** The rows under an upload id, by key, and `ids` their segments. */
  ghost predicate StagesIn(parts: map<Bytes, PartRow>, uploadId: Bytes, ks: seq<Bytes>, ids: seq<SegId>) {
    && Ascends(ks) && (forall k :: k in ks <==> k in parts && uploadId + [0] <= k)
    && |ids| == |ks| && forall i :: 0 <= i < |ks| ==> ks[i] in parts && ids[i] == parts[ks[i]].segment
  }

  lemma UnderIsRange(t: map<Bytes, PartRow>, uploadId: Bytes)
    ensures forall k :: k in InRangeOf(t, uploadId) <==> k in t && uploadId + [0] <= k
  {
    forall k ensures InRange(uploadId, k) <==> uploadId + [0] <= k { UnitRange(uploadId, 0, k); }
  }

  lemma StagedIs(db: Db, uploadId: Bytes) returns (ks: seq<Bytes>)
    ensures StagesIn(db.parts, uploadId, ks, Staged(db, uploadId))
  {
    UnderIsRange(db.parts, uploadId);
    ks := Ascending(InRangeOf(db.parts, uploadId));
    forall i | 0 <= i < |ks| ensures ks[i] in db.parts { assert ks[i] in ks; }
  }

  /** The metadata of a completed object, field by field. `md5s` are the listed parts' digests. */
  lemma CompletedMetadata(db: Db, bucket: Bytes, key: Bytes, uploadId: Bytes, numbers: seq<u32>, now: nat)
    returns (md5s: seq<Bytes>)
    requires CompleteUpload(db, bucket, key, uploadId, numbers, now).Commit?
    ensures DigestsOf(db, uploadId, numbers, md5s)
    ensures var info := db.uploads[bucket + [0] + uploadId];
            var meta := CompleteUpload(db, bucket, key, uploadId, numbers, now).value.0;
            && meta.key == key && meta.contentType == info.contentType && meta.cacheControl == info.cacheControl
            && meta.lastModified == now && meta.etag == Multipart(Concat(md5s), |numbers|)
            && exists segments :: SegmentsOf(db, uploadId, numbers, segments) && meta.size == Sum(Sizes(segments))
  {
    hide Assemble, Staged, Replaced, BadPart;
    NoBadPart(db.parts, uploadId, numbers, |numbers|);
    md5s := DigestsAre(db, uploadId, numbers);
    RefsAre(db, uploadId, numbers);
    TotalIsSum(Refs(db.parts, PartKeys(uploadId, numbers)));
  }

  /** The tables after a completed upload. */
  lemma CompletedDoes(db: Db, bucket: Bytes, key: Bytes, uploadId: Bytes, numbers: seq<u32>, now: nat)
    returns (left: seq<SegId>, replaced: seq<SegId>, segments: seq<SegRef>, ks: seq<Bytes>)
    requires CompleteUpload(db, bucket, key, uploadId, numbers, now).Commit?
    ensures var Commit(db', (meta, retired)) := CompleteUpload(db, bucket, key, uploadId, numbers, now);
            var k := bucket + [0] + key;
            && db'.buckets == db.buckets && db'.pending == db.pending
            && OnlyLoses(db.uploads, db'.uploads, bucket + [0] + uploadId)
            && OnlyLosesUnder(db.parts, db'.parts, uploadId + [0])
            && SegmentsOf(db, uploadId, numbers, segments)
            && OnlyPuts(db.objects, db'.objects, k, meta) && OnlyPuts(db.manifests, db'.manifests, k, segments)
            && retired == left + replaced && ListsIds(db.manifests, k, replaced)
            && Joins(db.garbage, db'.garbage, retired, now)
    ensures StagesIn(db.parts - (set n | n in numbers :: PartAt(uploadId, n)), uploadId, ks, left)
  {
    NoBadPart(db.parts, uploadId, numbers, |numbers|);
    var listed := PartKeys(uploadId, numbers);
    segments := Refs(db.parts, listed);
    RefsAre(db, uploadId, numbers);
    ListedRows(uploadId, numbers);
    ListedAreUnder(uploadId, numbers);
    hide Staged, BadPart, PartKeys, PartAt, StagesIn, SegmentsOf, OnlyPuts, OnlyLoses, OnlyLosesUnder, Joins, Assemble;
    left := Staged(Taken(db, listed), uploadId);
    ks := StagedIs(Taken(db, listed), uploadId);
    replaced := Replaced(db, ObjKey(bucket, key));
    var meta := CompleteUpload(db, bucket, key, uploadId, numbers, now).value.0;
    AssembleDoes(db, bucket, uploadId, listed, meta, now);
  }

  lemma AssembleDoes(db: Db, bucket: Bytes, uploadId: Bytes, listed: seq<Bytes>, meta: ObjectMeta, now: nat)
    requires forall k :: k in listed ==> k in db.parts && uploadId + [0] <= k
    ensures var db' := Assemble(db, bucket, uploadId, listed, meta, now);
            var k := bucket + [0] + meta.key;
            && db'.buckets == db.buckets && db'.pending == db.pending
            && OnlyLoses(db.uploads, db'.uploads, bucket + [0] + uploadId)
            && OnlyLosesUnder(db.parts, db'.parts, uploadId + [0])
            && OnlyPuts(db.objects, db'.objects, k, meta)
            && OnlyPuts(db.manifests, db'.manifests, k, Refs(db.parts, listed))
            && Joins(db.garbage, db'.garbage, Staged(Taken(db, listed), uploadId) + Replaced(db, k), now)
  {
    var taken, k := Taken(db, listed), ObjKey(bucket, meta.key);
    DropDoes(taken, bucket, uploadId, now);
    JoinsTwice(db.garbage, Staged(taken, uploadId), Replaced(db, k), now);
    Puts(db.objects, k, meta);
    Puts(db.manifests, k, Refs(db.parts, listed));
    TakenUnder(db.parts, taken.parts, DropUpload(taken, bucket, uploadId, now).parts, listed, uploadId + [0]);
    hide Staged, Stamp, Joins, OnlyLoses, OnlyPuts, OnlyLosesUnder, InRangeOf, Refs;
  }

  lemma TakenUnder(parts: map<Bytes, PartRow>, taken: map<Bytes, PartRow>, left: map<Bytes, PartRow>,
                   listed: seq<Bytes>, p: Bytes)
    requires taken == parts - Elems(listed) && OnlyLosesUnder(taken, left, p) && forall k :: k in listed ==> p <= k
    ensures OnlyLosesUnder(parts, left, p)
  {}

  lemma ListedRows(uploadId: Bytes, numbers: seq<u32>)
    ensures Elems(PartKeys(uploadId, numbers)) == set n | n in numbers :: PartAt(uploadId, n)
  {
    var rows := set n | n in numbers :: PartAt(uploadId, n);
    forall k | k in PartKeys(uploadId, numbers) ensures k in rows {
      var i :| 0 <= i < |numbers| && PartKeys(uploadId, numbers)[i] == k;
      PartIsAt(uploadId, numbers[i]);
    }
    forall n | n in numbers ensures PartAt(uploadId, n) in PartKeys(uploadId, numbers) {
      var i :| 0 <= i < |numbers| && numbers[i] == n;
      PartIsAt(uploadId, n);
      assert PartKeys(uploadId, numbers)[i] == PartAt(uploadId, n);
    }
  }

  lemma ListedAreUnder(uploadId: Bytes, numbers: seq<u32>)
    ensures forall k :: k in PartKeys(uploadId, numbers) ==> uploadId + [0] <= k
  {
    hide Be32;
  }

  lemma JoinsTwice(garbage: map<SegId, nat>, a: seq<SegId>, b: seq<SegId>, now: nat)
    ensures Joins(garbage, Stamp(Stamp(garbage, Elems(a), now), Elems(b), now), a + b, now)
  {}

  // ---- aborting uploads ----------------------------------------------------------------------

  /** An upload is aborted if and only if its bucket and its row are there. Its row and its parts' rows go, and
      the parts' segments are retired in key order. */
  lemma AbortUploadDoes(db: Db, bucket: Bytes, uploadId: Bytes, now: nat) returns (ks: seq<Bytes>)
    ensures match AbortUpload(db, bucket, uploadId, now)
            case Abort(e) =>
              if bucket !in db.buckets then e == NoSuchBucket
              else e == NoSuchUpload && bucket + [0] + uploadId !in db.uploads
            case Commit(db', retired) =>
              && bucket in db.buckets && bucket + [0] + uploadId in db.uploads
              && Dropped(db, db', bucket + [0] + uploadId, uploadId, retired, now)
              && StagesIn(db.parts, uploadId, ks, retired)
  {
    ks := StagedIs(db, uploadId);
    DropDoes(db, bucket, uploadId, now);
    hide Staged, StagesIn, Dropped, DropUpload;
  }

  /** An upload's row and its parts' rows are gone, their segments retired; nothing else has changed. */
  ghost predicate Dropped(db: Db, db': Db, u: Bytes, uploadId: Bytes, retired: seq<SegId>, now: nat) {
    && db' == db.(uploads := db'.uploads, parts := db'.parts, garbage := db'.garbage)
    && OnlyLoses(db.uploads, db'.uploads, u) && OnlyLosesUnder(db.parts, db'.parts, uploadId + [0])
    && Joins(db.garbage, db'.garbage, retired, now)
  }

  lemma DropDoes(db: Db, bucket: Bytes, uploadId: Bytes, now: nat)
    ensures var db' := DropUpload(db, bucket, uploadId, now);
            Dropped(db, db', bucket + [0] + uploadId, uploadId, Staged(db, uploadId), now)
  {
    UnderIsRange(db.parts, uploadId);
    StampJoins(db.garbage, Staged(db, uploadId), now);
    hide Staged, Joins, Stamp, InRangeOf;
  }

  /** `ids` are the segments of the parts of the upload with row key `k`, in key order. */
  ghost predicate StagedList(parts: map<Bytes, PartRow>, k: Bytes, ids: seq<SegId>) {
    !NoNul(k) && exists order :: StagesIn(parts, Tail(k), order, ids)
  }

  ghost predicate StagedLists(parts: map<Bytes, PartRow>, ks: seq<Bytes>, lists: seq<seq<SegId>>) {
    |lists| == |ks| && forall i :: 0 <= i < |ks| ==> StagedList(parts, ks[i], lists[i])
  }

  /** Part key `p` is of the upload with row key `k`. */
  predicate PartOf(k: Bytes, p: Bytes) {
    !NoNul(k) && Tail(k) + [0] <= p
  }

  ghost predicate PartOfNone(ks: seq<Bytes>, p: Bytes) {
    forall i :: 0 <= i < |ks| ==> !PartOf(ks[i], p)
  }

  /** Exactly the rows of the uploads `ks` and of their parts are gone. */
  ghost predicate AllDropped(db: Db, db': Db, ks: seq<Bytes>) {
    && db' == db.(uploads := db'.uploads, parts := db'.parts, garbage := db'.garbage)
    && (forall k :: k in db'.uploads <==> k in db.uploads && k !in ks)
    && (forall k :: k in db'.uploads ==> db'.uploads[k] == db.uploads[k])
    && (forall p :: p in db'.parts <==> p in db.parts && PartOfNone(ks, p))
    && (forall p :: p in db'.parts ==> db'.parts[p] == db.parts[p])
  }

  lemma OnePrefix(a: Bytes, b: Bytes, p: Bytes)
    requires NoNul(a) && NoNul(b) && a + [0] <= p && b + [0] <= p
    ensures a == b
  {
    assert p == a + [0] + p[|a| + 1..] && p == b + [0] + p[|b| + 1..];
    SplitJoined(a, p[|a| + 1..]);
    SplitJoined(b, p[|b| + 1..]);
  }

  /** Dropping one upload leaves the list of another as it was. */
  lemma OtherStages(db: Db, db1: Db, k: Bytes, other: Bytes, ids: seq<SegId>)
    requires Integrity(db) && k in db.uploads && other in db.uploads && k != other
    requires !NoNul(k) && OnlyLosesUnder(db.parts, db1.parts, Tail(k) + [0]) && StagedList(db1.parts, other, ids)
    ensures StagedList(db.parts, other, ids)
  {
    var order :| StagesIn(db1.parts, Tail(other), order, ids);
    assert UploadOk(db.buckets, k) && UploadOk(db.buckets, other) && Tail(k) != Tail(other);
    forall p | p in db.parts && Tail(other) + [0] <= p ensures p in db1.parts {
      if Tail(k) + [0] <= p { OnePrefix(Tail(k), Tail(other), p); }
    }
    assert StagesIn(db.parts, Tail(other), order, ids);
  }

  lemma PartOfNoneMore(k: Bytes, ks: seq<Bytes>, p: Bytes)
    ensures PartOfNone([k] + ks, p) <==> !PartOf(k, p) && PartOfNone(ks, p)
  {
    var all := [k] + ks;
    assert all[0] == k && forall i :: 0 <= i < |ks| ==> all[i + 1] == ks[i];
    if PartOfNone(ks, p) && !PartOf(k, p) {
      forall i | 0 <= i < |all| ensures !PartOf(all[i], p) {
        if i > 0 { assert all[i] == ks[i - 1]; }
      }
    }
    if PartOfNone(all, p) {
      assert !PartOf(all[0], p);
      forall i | 0 <= i < |ks| ensures !PartOf(ks[i], p) { assert !PartOf(all[i + 1], p); }
    }
  }

  lemma DroppedThenAll(db: Db, db1: Db, db2: Db, k: Bytes, ks: seq<Bytes>, s: seq<SegId>, now: nat)
    requires !NoNul(k) && Dropped(db, db1, k, Tail(k), s, now) && AllDropped(db1, db2, ks)
    ensures AllDropped(db, db2, [k] + ks)
  {
    assert forall p :: PartOf(k, p) <==> Tail(k) + [0] <= p;
    hide PartOf, PartOfNone, Joins;
    forall p ensures PartOfNone([k] + ks, p) <==> !PartOf(k, p) && PartOfNone(ks, p) { PartOfNoneMore(k, ks, p); }
    assert forall x :: x in [k] + ks <==> x == k || x in ks;
  }

  lemma JoinsBoth(g: map<SegId, nat>, g1: map<SegId, nat>, g2: map<SegId, nat>, a: seq<SegId>, b: seq<SegId>, now: nat)
    requires Joins(g, g1, a, now) && Joins(g1, g2, b, now)
    ensures Joins(g, g2, a + b, now)
  {}

  /** The first `|lists|` of the uploads `ks` were dropped, and `lists` are their parts' segments. */
  ghost predicate SweptRows(db: Db, db': Db, ks: seq<Bytes>, lists: seq<seq<SegId>>, now: nat) {
    && |lists| <= |ks| && StagedLists(db.parts, ks[..|lists|], lists)
    && AllDropped(db, db', ks[..|lists|]) && Joins(db.garbage, db'.garbage, Concat(lists), now)
  }

  /** It stopped at the end of the uploads or once ten thousand parts had been retired, `before` them counted. */
  ghost predicate StoppedRight(ks: seq<Bytes>, lists: seq<seq<SegId>>, before: nat) {
    && (|lists| == |ks| || before + |Concat(lists)| >= 10_000)
    && forall m :: 0 <= m < |lists| ==> before + |Concat(lists[..m])| < 10_000
  }

  /** Uploads are dropped in turn until ten thousand parts have been retired. */
  lemma {:induction false} DropStaleDoes(db: Db, ks: seq<Bytes>, now: nat, retired: Retired, aborted: nat)
    returns (lists: seq<seq<SegId>>)
    requires Integrity(db) && NoDup(ks) && forall k :: k in ks ==> k in db.uploads
    ensures var (db', count, all) := DropStale(db, ks, now, retired, aborted);
            && SweptRows(db, db', ks, lists, now) && count == aborted + |lists| && all == retired + Concat(lists)
    ensures StoppedRight(ks, lists, |retired|)
    decreases |ks|
  {
    if ks == [] || |retired| >= SWEEP_PART_ROWS {
      lists := [];
      NoneDropped(db, now);
      assert retired + [] == retired && ks[..0] == [];
    } else {
      var k := ks[0];
      assert k in ks;
      UploadIsOk(db, k);
      var s, db1 := Staged(db, Tail(k)), DropUpload(db, Head(k), Tail(k), now);
      hide Integrity, AllDropped, Dropped, StagedLists, StagesIn, Staged, DropUpload, Joins, SweptRows, StoppedRight;
      DropDoes(db, Head(k), Tail(k), now);
      DropUploadKeeps(db, Head(k), Tail(k), now);
      forall x | x in ks[1..] ensures x in db1.uploads { LaterStays(ks, x); }
      var rest := DropStaleDoes(db1, ks[1..], now, retired + s, aborted + 1);
      lists := [s] + rest;
      RowsMore(db, db1, DropStale(db1, ks[1..], now, retired + s, aborted + 1).0, ks, s, rest, now);
      StopsMore(ks, s, rest, |retired|);
      Associates(retired, s, Concat(rest));
      ConcatStarts(s, rest, 0);
    }
  }

  lemma RowsMore(db: Db, db1: Db, db2: Db, ks: seq<Bytes>, s: seq<SegId>, rest: seq<seq<SegId>>, now: nat)
    requires Integrity(db) && NoDup(ks) && ks != [] && forall k :: k in ks ==> k in db.uploads
    requires !NoNul(ks[0]) && s == Staged(db, Tail(ks[0])) && Dropped(db, db1, ks[0], Tail(ks[0]), s, now)
    requires SweptRows(db1, db2, ks[1..], rest, now)
    ensures SweptRows(db, db2, ks, [s] + rest, now)
  {
    hide Integrity, AllDropped, Dropped, StagedLists, Staged, Joins;
    var n := |rest|;
    assert ks[..n + 1] == [ks[0]] + ks[1..][..n];
    OneMoreList(db, db1, ks, s, n, rest, now);
    DroppedThenAll(db, db1, db2, ks[0], ks[1..][..n], s, now);
    DroppedJoins(db, db1, ks[0], s, now);
    JoinsBoth(db.garbage, db1.garbage, db2.garbage, s, Concat(rest), now);
    ConcatStarts(s, rest, 0);
  }

  lemma StopsMore(ks: seq<Bytes>, s: seq<SegId>, rest: seq<seq<SegId>>, before: nat)
    requires ks != [] && before < 10_000 && StoppedRight(ks[1..], rest, before + |s|)
    ensures StoppedRight(ks, [s] + rest, before)
  {
    ConcatStarts(s, rest, 0);
    var lists := [s] + rest;
    forall m | 0 <= m < |lists| ensures before + |Concat(lists[..m])| < 10_000 {
      ConcatStarts(s, rest, m);
      if m > 0 { assert before + |s| + |Concat(rest[..m - 1])| < 10_000; }
    }
  }

  lemma ConcatStarts(s: seq<SegId>, lists: seq<seq<SegId>>, m: nat)
    requires m <= |lists| + 1
    ensures Concat([s] + lists) == s + Concat(lists)
    ensures |Concat(([s] + lists)[..m])| == if m == 0 then 0 else |s| + |Concat(lists[..m - 1])|
  {
    assert ([s] + lists)[1..] == lists;
    if m > 0 { assert ([s] + lists)[..m] == [s] + lists[..m - 1] && ([s] + lists[..m - 1])[1..] == lists[..m - 1]; }
  }

  lemma UploadIsOk(db: Db, k: Bytes)
    requires Integrity(db) && k in db.uploads
    ensures !NoNul(k) && NoNul(Head(k)) && NoNul(Tail(k)) && UploadKey(Head(k), Tail(k)) == k
  {
    assert UploadOk(db.buckets, k);
    JoinSplit(k);
  }

  lemma NoneDropped(db: Db, now: nat)
    ensures AllDropped(db, db, []) && StagedLists(db.parts, [], []) && Joins(db.garbage, db.garbage, Concat([]), now)
  {}

  lemma DroppedJoins(db: Db, db1: Db, k: Bytes, s: seq<SegId>, now: nat)
    requires !NoNul(k) && Dropped(db, db1, k, Tail(k), s, now)
    ensures Joins(db.garbage, db1.garbage, s, now) && OnlyLosesUnder(db.parts, db1.parts, Tail(k) + [0])
  {}

  lemma OneMoreList(db: Db, db1: Db, ks: seq<Bytes>, s: seq<SegId>, n1: nat, lists1: seq<seq<SegId>>, now: nat)
    requires Integrity(db) && NoDup(ks) && ks != [] && n1 < |ks| && forall k :: k in ks ==> k in db.uploads
    requires !NoNul(ks[0]) && s == Staged(db, Tail(ks[0])) && Dropped(db, db1, ks[0], Tail(ks[0]), s, now)
    requires StagedLists(db1.parts, ks[1..][..n1], lists1)
    ensures StagedLists(db.parts, [ks[0]] + ks[1..][..n1], [s] + lists1)
  {
    var rest := ks[1..][..n1];
    var order := StagedIs(db, Tail(ks[0]));
    DroppedJoins(db, db1, ks[0], s, now);
    assert StagedList(db.parts, ks[0], s);
    hide StagesIn, Staged, Integrity, StagedList, Dropped, OnlyLosesUnder, StagedLists;
    forall x | x in rest ensures x in db.uploads && x != ks[0] {
      assert x in ks[1..];
      LaterStays(ks, x);
    }
    assert ks[0] in ks;
    OthersStage(db, db1, ks[0], rest, lists1);
    ListsMore(db.parts, ks[0], rest, s, lists1);
  }

  lemma OthersStage(db: Db, db1: Db, k: Bytes, ks: seq<Bytes>, lists: seq<seq<SegId>>)
    requires Integrity(db) && k in db.uploads && !NoNul(k) && forall x :: x in ks ==> x in db.uploads && x != k
    requires OnlyLosesUnder(db.parts, db1.parts, Tail(k) + [0]) && StagedLists(db1.parts, ks, lists)
    ensures StagedLists(db.parts, ks, lists)
  {
    hide Integrity, OnlyLosesUnder, StagedList;
    forall i | 0 <= i < |ks| ensures StagedList(db.parts, ks[i], lists[i]) {
      assert ks[i] in ks;
      OtherStages(db, db1, k, ks[i], lists[i]);
    }
  }

  lemma ListsMore(parts: map<Bytes, PartRow>, k: Bytes, ks: seq<Bytes>, s: seq<SegId>, lists: seq<seq<SegId>>)
    requires StagedList(parts, k, s) && StagedLists(parts, ks, lists)
    ensures StagedLists(parts, [k] + ks, [s] + lists)
  {
    hide StagedList;
  }

  lemma LaterStays(ks: seq<Bytes>, x: Bytes)
    requires NoDup(ks) && ks != [] && x in ks[1..]
    ensures x in ks && x != ks[0]
  {}

  /** The uploads begun at or before the threshold, in key order, are dropped one after the other: at most
      `limit` of them (any number if it is 0), until ten thousand parts have been retired. */
  lemma AbortUploadsBeforeDoes(db: Db, threshold: nat, now: nat, limit: nat)
    returns (due: seq<Bytes>, lists: seq<seq<SegId>>)
    requires Integrity(db)
    ensures Ascends(due) && forall k :: k in due <==> k in db.uploads && db.uploads[k].initiated <= threshold
    ensures var o := AbortUploadsBefore(db, threshold, now, limit);
            o.Commit? && SweptRows(db, o.db, due, lists, now) && o.value == (|lists|, Concat(lists))
    ensures StoppedRight(if 0 < limit < |due| then due[..limit] else due, lists, 0)
  {
    due := FirstStaleIs(db.uploads, threshold, limit);
    var ks := FirstStale(db.uploads, threshold, limit);
    hide Integrity, SweptRows, StoppedRight, DropStale, FirstStale, Ascends;
    lists := DropStaleDoes(db, ks, now, [], 0);
    RowsOfPrefix(db, AbortUploadsBefore(db, threshold, now, limit).db, ks, due, lists, now);
    assert [] + Concat(lists) == Concat(lists);
  }

  lemma FirstStaleIs(uploads: map<Bytes, UploadInfo>, threshold: nat, limit: nat) returns (due: seq<Bytes>)
    ensures Ascends(due) && forall k :: k in due <==> k in uploads && uploads[k].initiated <= threshold
    ensures FirstStale(uploads, threshold, limit) == if 0 < limit < |due| then due[..limit] else due
    ensures NoDup(FirstStale(uploads, threshold, limit)) && FirstStale(uploads, threshold, limit) <= due
  {
    var all := Ascending(uploads.Keys);
    due := BegunBy(uploads, all, threshold);
    BegunByMembers(uploads, all, threshold);
    BegunByAscends(uploads, all, threshold);
    AscendsNoDup(due);
    hide Ascends, BegunBy;
    assert due[..|due|] == due;
  }

  lemma RowsOfPrefix(db: Db, db': Db, ks: seq<Bytes>, all: seq<Bytes>, lists: seq<seq<SegId>>, now: nat)
    requires SweptRows(db, db', ks, lists, now) && ks <= all
    ensures SweptRows(db, db', all, lists, now)
  {
    hide StagedLists, AllDropped, Joins;
    assert all[..|lists|] == ks[..|lists|];
  }

  lemma AscendsNoDup(ks: seq<Bytes>)
    requires Ascends(ks)
    ensures NoDup(ks)
  {
    forall i, j | 0 <= i < j < |ks| ensures ks[i] != ks[j] {
      assert Lt(ks[i], ks[j]);
      Irreflexive(ks[i]);
    }
  }

  lemma {:induction false} BegunByAscends(uploads: map<Bytes, UploadInfo>, ks: seq<Bytes>, threshold: nat)
    requires Ascends(ks) && forall k :: k in ks ==> k in uploads
    ensures Ascends(BegunBy(uploads, ks, threshold))
    decreases |ks|
  {
    if ks != [] {
      var n := |ks| - 1;
      var r := BegunBy(uploads, ks[..n], threshold);
      BegunByAscends(uploads, ks[..n], threshold);
      BegunByMembers(uploads, ks[..n], threshold);
      forall i | 0 <= i < |r| ensures Lt(r[i], ks[n]) {
        assert r[i] in r;
        var j :| 0 <= j < n && ks[..n][j] == r[i];
        assert Lt(ks[j], ks[n]);
      }
    }
  }
}
