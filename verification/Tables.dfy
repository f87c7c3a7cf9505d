/** The index's tables as one value, and each write transaction as a function on it. A transaction
    that fails has no new tables: nothing partial can be committed. */
module Tables {
  import opened Common
  import opened Bytes
  import opened Keys
  import opened CorsTypes

  type SegId = Bytes

  const PENDING_ORPHAN_AGE: nat := 12 * 3600
  const MIN_PART_SIZE: nat := 5 * 1024 * 1024
  const MAX_STAGED_PARTS: nat := 100_000
  const SWEEP_PART_ROWS: nat := 10_000

  datatype BucketRow = BucketRow(created: nat, cors: Option<CorsConfig>)

  /** One segment of an object, in object order. */
  datatype SegRef = SegRef(id: SegId, size: nat)

  /** MD5 is not interpreted: an etag carries what was hashed. */
  datatype Etag = Whole(digest: Bytes) | Multipart(digests: Bytes, count: nat)

  datatype ObjectMeta = ObjectMeta(
    key: Bytes, size: nat, etag: Etag, contentType: string, lastModified: nat, cacheControl: Option<string>)

  datatype ObjectRow = ObjectRow(meta: ObjectMeta, segments: seq<SegRef>)

  datatype UploadInfo = UploadInfo(key: Bytes, contentType: string, initiated: nat, cacheControl: Option<string>)

  datatype PartRow = PartRow(segment: SegId, size: nat, md5: Bytes)

  datatype ObjectError =
    | NoSuchBucket
    | NoSuchUpload
    | BucketAlreadyExists
    | BucketNotEmpty
    | TooManyStagedParts
    | KeyDoesNotMatchUpload
    | NoParts
    | InvalidPartOrder
    | MissingPart(part: u32)
    | EntityTooSmall(part: u32)
    | NoLongerPending

  datatype Db = Db(
    buckets: map<Bytes, BucketRow>,
    objects: map<Bytes, ObjectMeta>,
    manifests: map<Bytes, seq<SegRef>>,
    uploads: map<Bytes, UploadInfo>,
    parts: map<Bytes, PartRow>,
    pending: map<SegId, nat>,
    garbage: map<SegId, nat>)

  /** Segment ids a mutation made unreachable. */
  type Retired = seq<SegId>

  datatype Outcome<+T> = Commit(db: Db, value: T) | Abort(error: ObjectError)
  {
    /** The tables after the transaction: an abort leaves them as they were. */
    function After(before: Db): Db {
      if Commit? then db else before
    }

    function Reply(): Result<T, ObjectError> {
      if Commit? then Ok(value) else Err(error)
    }
  }

  // ---- buckets ----------------------------------------------------------

  function CreateBucket(db: Db, bucket: Bytes, now: nat): Outcome<()> {
    if bucket in db.buckets then Abort(BucketAlreadyExists)
    else Commit(db.(buckets := db.buckets[bucket := BucketRow(now, None)]), ())
  }

  function EnsureBucket(db: Db, bucket: Bytes, created: nat): Outcome<()> {
    if bucket in db.buckets then Commit(db, ())
    else Commit(db.(buckets := db.buckets[bucket := BucketRow(created, None)]), ())
  }

  function InRangeOf<V>(t: map<Bytes, V>, name: Bytes): set<Bytes> {
    set k | k in t && InRange(name, k)
  }

  function DeleteBucket(db: Db, bucket: Bytes): Outcome<()> {
    if bucket !in db.buckets then Abort(NoSuchBucket)
    else if InRangeOf(db.objects, bucket) + InRangeOf(db.uploads, bucket) != {} then Abort(BucketNotEmpty)
    else Commit(db.(buckets := db.buckets - {bucket}), ())
  }

  /** Clearing a missing bucket's policy is a no-op; setting one is refused. */
  function SetCors(db: Db, bucket: Bytes, cors: Option<CorsConfig>): Outcome<()> {
    if bucket in db.buckets then
      Commit(db.(buckets := db.buckets[bucket := db.buckets[bucket].(cors := cors)]), ())
    else if cors.Some? then Abort(NoSuchBucket)
    else Commit(db, ())
  }

  // ---- segments ---------------------------------------------------------

  /** A segment table with `ids` entered at time `now`. */
  function Stamp(table: map<SegId, nat>, ids: set<SegId>, now: nat): (r: map<SegId, nat>)
    ensures r.Keys == table.Keys + ids
  {
    table + (map id | id in ids :: now)
  }

  function AddPending(db: Db, ids: seq<SegId>, now: nat): Outcome<()> {
    Commit(db.(pending := Stamp(db.pending, Elems(ids), now)), ())
  }

  /** The ids still pending, each once, in the order first named. */
  function StillPending(pending: map<SegId, nat>, ids: seq<SegId>): (r: Retired)
    ensures NoDup(r)
    ensures forall id :: id in r <==> id in ids && id in pending
  {
    if ids == [] then [] else
      var r := StillPending(pending, ids[..|ids| - 1]);
      var id := ids[|ids| - 1];
      if id in pending && id !in r then r + [id] else r
  }

  function DiscardPending(db: Db, ids: seq<SegId>, now: nat): Outcome<Retired> {
    var retired := StillPending(db.pending, ids);
    Commit(db.(pending := db.pending - Elems(ids),
               garbage := Stamp(db.garbage, Elems(retired), now)),
           retired)
  }

  function Stale(pending: map<SegId, nat>, now: nat): set<SegId> {
    set id | id in pending && SatAdd(pending[id], PENDING_ORPHAN_AGE) <= now
  }

  ghost function ClaimDue(db: Db, now: nat, limit: nat): Outcome<seq<SegId>> {
    var stale := Stale(db.pending, now);
    var garbage := Stamp(db.garbage, stale, now);
    var due := Ascending(garbage.Keys);
    Commit(db.(pending := db.pending - stale, garbage := garbage), due[..Min(limit, |due|)])
  }

  function ForgetSegments(db: Db, ids: seq<SegId>): Outcome<()> {
    Commit(db.(garbage := db.garbage - Elems(ids)), ())
  }

  // ---- objects ----------------------------------------------------------

  function Ids(segments: seq<SegRef>): (r: seq<SegId>)
    ensures |r| == |segments| && forall i :: 0 <= i < |r| ==> r[i] == segments[i].id
  {
    seq(|segments|, i requires 0 <= i < |segments| => segments[i].id)
  }

  predicate CanTake(pending: map<SegId, nat>, ids: seq<SegId>) {
    NoDup(ids) && forall id :: id in ids ==> id in pending
  }

  function Replaced(db: Db, k: Bytes): seq<SegId> {
    if k in db.manifests then Ids(db.manifests[k]) else []
  }

  /** Make `segments` the object at `k`, retiring what was there. */
  function PutObject(db: Db, k: Bytes, meta: ObjectMeta, segments: seq<SegRef>, now: nat): Db {
    db.(objects := db.objects[k := meta],
        manifests := db.manifests[k := segments],
        garbage := Stamp(db.garbage, Elems(Replaced(db, k)), now))
  }

  function CommitRow(db: Db, bucket: Bytes, row: ObjectRow, now: nat): Outcome<Retired> {
    if !CanTake(db.pending, Ids(row.segments)) then Abort(NoLongerPending) else
      var k := ObjKey(bucket, row.meta.key);
      var taken := db.(pending := db.pending - Elems(Ids(row.segments)));
      Commit(PutObject(taken, k, row.meta, row.segments, now), Replaced(db, k))
  }

  function CommitRows(db: Db, bucket: Bytes, rows: seq<ObjectRow>, now: nat): Outcome<Retired> {
    if rows == [] then Commit(db, []) else
      var n := |rows| - 1;
      match CommitRows(db, bucket, rows[..n], now)
      case Abort(e) => Abort(e)
      case Commit(mid, retired) =>
        match CommitRow(mid, bucket, rows[n], now)
        case Abort(e) => Abort(e)
        case Commit(after, more) => Commit(after, retired + more)
  }

  function CommitObjects(db: Db, bucket: Bytes, rows: seq<ObjectRow>, now: nat): Outcome<Retired> {
    if bucket !in db.buckets then Abort(NoSuchBucket) else CommitRows(db, bucket, rows, now)
  }

  function DeleteObject(db: Db, bucket: Bytes, key: Bytes, now: nat): Outcome<Retired> {
    if bucket !in db.buckets then Abort(NoSuchBucket) else
      var k := ObjKey(bucket, key);
      Commit(db.(objects := db.objects - {k},
                 manifests := db.manifests - {k},
                 garbage := Stamp(db.garbage, Elems(Replaced(db, k)), now)),
             Replaced(db, k))
  }

  // ---- multipart --------------------------------------------------------

  function CreateUpload(db: Db, bucket: Bytes, uploadId: Bytes, info: UploadInfo, keepExisting: bool): Outcome<()> {
    var k := UploadKey(bucket, uploadId);
    if bucket !in db.buckets then Abort(NoSuchBucket)
    else if keepExisting && k in db.uploads then Commit(db, ())
    else Commit(db.(uploads := db.uploads[k := info]), ())
  }

  function RequireUpload(db: Db, bucket: Bytes, uploadId: Bytes): Result<UploadInfo, ObjectError> {
    var k := UploadKey(bucket, uploadId);
    if bucket !in db.buckets then Err(NoSuchBucket)
    else if k !in db.uploads then Err(NoSuchUpload)
    else Ok(db.uploads[k])
  }

  function CommitPart(db: Db, bucket: Bytes, uploadId: Bytes, part: u32, row: PartRow, now: nat): Outcome<Retired> {
    var k := PartKey(uploadId, part);
    match RequireUpload(db, bucket, uploadId)
    case Err(e) => Abort(e)
    case Ok(_) =>
      if k !in db.parts && |db.parts| >= MAX_STAGED_PARTS then Abort(TooManyStagedParts)
      else if row.segment !in db.pending then Abort(NoLongerPending)
      else
        var retired := if k in db.parts then [db.parts[k].segment] else [];
        Commit(db.(pending := db.pending - {row.segment},
                   parts := db.parts[k := row],
                   garbage := Stamp(db.garbage, Elems(retired), now)),
               retired)
  }

  function Segments(parts: map<Bytes, PartRow>, ks: seq<Bytes>): (r: seq<SegId>)
    requires forall k :: k in ks ==> k in parts
    ensures |r| == |ks| && forall i :: 0 <= i < |ks| ==> r[i] == parts[ks[i]].segment
  {
    seq(|ks|, i requires 0 <= i < |ks| => parts[ks[i]].segment)
  }

  /** The segments an upload still stages, by part number. */
  ghost function Staged(db: Db, uploadId: Bytes): Retired {
    Segments(db.parts, Ascending(InRangeOf(db.parts, uploadId)))
  }

  ghost function DropUpload(db: Db, bucket: Bytes, uploadId: Bytes, now: nat): Db {
    db.(parts := db.parts - InRangeOf(db.parts, uploadId),
        uploads := db.uploads - {UploadKey(bucket, uploadId)},
        garbage := Stamp(db.garbage, Elems(Staged(db, uploadId)), now))
  }

  ghost function AbortUpload(db: Db, bucket: Bytes, uploadId: Bytes, now: nat): Outcome<Retired> {
    match RequireUpload(db, bucket, uploadId)
    case Err(e) => Abort(e)
    case Ok(_) => Commit(DropUpload(db, bucket, uploadId, now), Staged(db, uploadId))
  }

  predicate StrictlyRising(ns: seq<u32>) {
    forall i :: 0 <= i < |ns| - 1 ==> ns[i] < ns[i + 1]
  }

  /** The first listed part that is missing, or too small and not the last of `total`. */
  function BadPart(parts: map<Bytes, PartRow>, uploadId: Bytes, numbers: seq<u32>, total: nat): Option<ObjectError> {
    if numbers == [] then None else
      var n := |numbers| - 1;
      var earlier := BadPart(parts, uploadId, numbers[..n], total);
      var k := PartKey(uploadId, numbers[n]);
      if earlier.Some? then earlier
      else if k !in parts then Some(MissingPart(numbers[n]))
      else if parts[k].size < MIN_PART_SIZE && n + 1 < total then Some(EntityTooSmall(numbers[n]))
      else None
  }

  function PartKeys(uploadId: Bytes, numbers: seq<u32>): (r: seq<Bytes>)
    ensures |r| == |numbers| && forall i :: 0 <= i < |r| ==> r[i] == PartKey(uploadId, numbers[i])
  {
    seq(|numbers|, i requires 0 <= i < |numbers| => PartKey(uploadId, numbers[i]))
  }

  function RefOf(row: PartRow): SegRef {
    SegRef(row.segment, row.size)
  }

  function Refs(parts: map<Bytes, PartRow>, ks: seq<Bytes>): (r: seq<SegRef>)
    requires forall k :: k in ks ==> k in parts
    ensures |r| == |ks| && forall i :: 0 <= i < |ks| ==> r[i] == RefOf(parts[ks[i]])
  {
    seq(|ks|, i requires 0 <= i < |ks| => RefOf(parts[ks[i]]))
  }

  function Digests(parts: map<Bytes, PartRow>, ks: seq<Bytes>): Bytes
    requires forall k :: k in ks ==> k in parts
  {
    if ks == [] then [] else Digests(parts, ks[..|ks| - 1]) + parts[ks[|ks| - 1]].md5
  }

  function TotalSize(segments: seq<SegRef>): nat {
    if segments == [] then 0 else TotalSize(segments[..|segments| - 1]) + segments[|segments| - 1].size
  }

  lemma {:induction false} NoBadPart(parts: map<Bytes, PartRow>, uploadId: Bytes, numbers: seq<u32>, total: nat)
    requires BadPart(parts, uploadId, numbers, total).None?
    ensures forall k :: k in PartKeys(uploadId, numbers) ==> k in parts
  {
    if numbers != [] {
      NoBadPart(parts, uploadId, numbers[..|numbers| - 1], total);
      forall k | k in PartKeys(uploadId, numbers) ensures k in parts {
        var i :| 0 <= i < |numbers| && PartKeys(uploadId, numbers)[i] == k;
        if i < |numbers| - 1 { assert PartKeys(uploadId, numbers[..|numbers| - 1])[i] == k; }
      }
    }
  }

  function WhyNotComplete(db: Db, bucket: Bytes, key: Bytes, uploadId: Bytes, numbers: seq<u32>): Option<ObjectError> {
    match RequireUpload(db, bucket, uploadId)
    case Err(e) => Some(e)
    case Ok(info) =>
      if info.key != key then Some(KeyDoesNotMatchUpload)
      else if numbers == [] then Some(NoParts)
      else if !StrictlyRising(numbers) then Some(InvalidPartOrder)
      else BadPart(db.parts, uploadId, numbers, |numbers|)
  }

  function CompletedMeta(db: Db, info: UploadInfo, key: Bytes, listed: seq<Bytes>, now: nat): ObjectMeta
    requires forall k :: k in listed ==> k in db.parts
  {
    ObjectMeta(key, TotalSize(Refs(db.parts, listed)), Multipart(Digests(db.parts, listed), |listed|),
               info.contentType, now, info.cacheControl)
  }

  /** The tables once the listed part rows are gone. */
  function Taken(db: Db, listed: seq<Bytes>): Db {
    db.(parts := db.parts - Elems(listed))
  }

  /** The listed parts become the object's segments, in order; the rest of the upload is dropped. */
  ghost function Assemble(db: Db, bucket: Bytes, uploadId: Bytes, listed: seq<Bytes>, meta: ObjectMeta, now: nat): Db
    requires forall k :: k in listed ==> k in db.parts
  {
    PutObject(DropUpload(Taken(db, listed), bucket, uploadId, now), ObjKey(bucket, meta.key), meta,
              Refs(db.parts, listed), now)
  }

  ghost function CompleteUpload(db: Db, bucket: Bytes, key: Bytes, uploadId: Bytes, numbers: seq<u32>, now: nat)
    : Outcome<(ObjectMeta, Retired)>
  {
    match WhyNotComplete(db, bucket, key, uploadId, numbers)
    case Some(e) => Abort(e)
    case None =>
      NoBadPart(db.parts, uploadId, numbers, |numbers|);
      var listed := PartKeys(uploadId, numbers);
      var meta := CompletedMeta(db, db.uploads[UploadKey(bucket, uploadId)], key, listed, now);
      Commit(Assemble(db, bucket, uploadId, listed, meta, now),
             (meta, Staged(Taken(db, listed), uploadId) + Replaced(db, ObjKey(bucket, key))))
  }

  /** The keys of uploads begun at or before `threshold`, in table order. */
  function BegunBy(uploads: map<Bytes, UploadInfo>, ks: seq<Bytes>, threshold: nat): (r: seq<Bytes>)
    requires forall k :: k in ks ==> k in uploads
  {
    if ks == [] then [] else
      var r := BegunBy(uploads, ks[..|ks| - 1], threshold);
      var k := ks[|ks| - 1];
      if uploads[k].initiated <= threshold then r + [k] else r
  }

  lemma {:induction false} BegunByMembers(uploads: map<Bytes, UploadInfo>, ks: seq<Bytes>, threshold: nat)
    requires forall k :: k in ks ==> k in uploads
    ensures forall k :: k in BegunBy(uploads, ks, threshold) <==> k in ks && uploads[k].initiated <= threshold
    decreases |ks|
  {
    if ks != [] {
      var rest := ks[..|ks| - 1];
      BegunByMembers(uploads, rest, threshold);
      assert ks == rest + [ks[|ks| - 1]];
    }
  }

  /** The collection loop breaks on reaching `limit` after a push, so a limit of 0 never breaks it. */
  ghost function FirstStale(uploads: map<Bytes, UploadInfo>, threshold: nat, limit: nat): (r: seq<Bytes>)
    ensures forall k :: k in r ==> k in uploads
  {
    var r := BegunBy(uploads, Ascending(uploads.Keys), threshold);
    BegunByMembers(uploads, Ascending(uploads.Keys), threshold);
    if 0 < limit <= |r| then r[..limit] else r
  }

  /** Drop uploads in turn until `SWEEP_PART_ROWS` parts have been retired. */
  ghost function DropStale(db: Db, ks: seq<Bytes>, now: nat, retired: Retired, aborted: nat): (Db, nat, Retired)
    decreases |ks|
  {
    if ks == [] || |retired| >= SWEEP_PART_ROWS then (db, aborted, retired)
    else if NoNul(ks[0]) then DropStale(db, ks[1..], now, retired, aborted)
    else
      var bucket, uploadId := Head(ks[0]), Tail(ks[0]);
      DropStale(DropUpload(db, bucket, uploadId, now), ks[1..], now, retired + Staged(db, uploadId), aborted + 1)
  }

  ghost function AbortUploadsBefore(db: Db, threshold: nat, now: nat, limit: nat): Outcome<(nat, Retired)> {
    var (after, aborted, retired) := DropStale(db, FirstStale(db.uploads, threshold, limit), now, [], 0);
    Commit(after, (aborted, retired))
  }
}
