/** The index as it runs: the tables are updated row by row inside a write transaction, which an
    error rolls back. Each method is proved to be the transaction `Tables` describes. */
module IndexStore {
  import opened Common
  import opened Bytes
  import opened Keys
  import opened CorsTypes
  import opened Tables
  import opened Lifecycle
  import Listing
  import Pages
  import Scan

  lemma StampNext(table: map<SegId, nat>, ids: seq<SegId>, i: nat, now: nat)
    requires i < |ids|
    ensures Elems(ids[..i + 1]) == Elems(ids[..i]) + {ids[i]}
    ensures Stamp(table, Elems(ids[..i + 1]), now) == Stamp(table, Elems(ids[..i]), now)[ids[i] := now]
  {
    assert ids[..i + 1] == ids[..i] + [ids[i]];
    assert Elems(ids[..i + 1]) == Elems(ids[..i]) + {ids[i]};
  }

  lemma StampAppended(table: map<SegId, nat>, ids: seq<SegId>, id: SegId, now: nat)
    ensures Stamp(table, Elems(ids + [id]), now) == Stamp(table, Elems(ids), now)[id := now]
  {
    assert (ids + [id])[..|ids|] == ids && (ids + [id])[..|ids| + 1] == ids + [id];
    StampNext(table, ids + [id], |ids|, now);
  }

  lemma StampFew(table: map<SegId, nat>, ids: seq<SegId>, now: nat)
    requires |ids| <= 1
    ensures Stamp(table, Elems(ids), now) == if ids == [] then table else table[ids[0] := now]
  {
    if ids == [] {
      assert Elems(ids) == {};
    } else {
      assert ids == [ids[0]] && Elems(ids) == {ids[0]};
    }
  }

  lemma RemoveNext<V>(table: map<SegId, V>, ids: seq<SegId>, i: nat)
    requires i < |ids|
    ensures table - Elems(ids[..i + 1]) == (table - Elems(ids[..i])) - {ids[i]}
  {
    assert ids[..i + 1] == ids[..i] + [ids[i]];
    assert Elems(ids[..i + 1]) == Elems(ids[..i]) + {ids[i]};
  }

  class Index {
    var buckets: map<Bytes, BucketRow>
    var objects: map<Bytes, ObjectMeta>
    var manifests: map<Bytes, seq<SegRef>>
    var uploads: map<Bytes, UploadInfo>
    var parts: map<Bytes, PartRow>
    var pending: map<SegId, nat>
    var garbage: map<SegId, nat>

    function State(): Db
      reads this
    {
      Db(buckets, objects, manifests, uploads, parts, pending, garbage)
    }

    constructor ()
      ensures State() == EMPTY
    {
      buckets, objects, manifests, uploads, parts := map[], map[], map[], map[], map[];
      pending, garbage := map[], map[];
    }

    /** Dropping a write transaction without committing it. */
    method RollBack(to: Db)
      modifies this
      ensures State() == to
    {
      buckets, objects, manifests, uploads, parts := to.buckets, to.objects, to.manifests, to.uploads, to.parts;
      pending, garbage := to.pending, to.garbage;
    }

    // ---- buckets ----------------------------------------------------------

    method CreateBucket(bucket: Bytes, now: nat) returns (r: Result<(), ObjectError>)
      modifies this
      ensures State() == Tables.CreateBucket(old(State()), bucket, now).After(old(State()))
      ensures r == Tables.CreateBucket(old(State()), bucket, now).Reply()
    {
      if bucket in buckets { return Err(BucketAlreadyExists); }
      buckets := buckets[bucket := BucketRow(now, None)];
      return Ok(());
    }

    method EnsureBucket(bucket: Bytes, created: nat) returns (r: Result<(), ObjectError>)
      modifies this
      ensures State() == Tables.EnsureBucket(old(State()), bucket, created).After(old(State()))
      ensures r == Tables.EnsureBucket(old(State()), bucket, created).Reply()
    {
      if bucket !in buckets {
        buckets := buckets[bucket := BucketRow(created, None)];
      }
      return Ok(());
    }

    method List(bucket: Bytes, q: Listing.Query, maxKeys: nat) returns (r: Result<Pages.ListV2Page, ObjectError>)
      requires Scan.NoHighByte(objects.Keys)
      ensures r.Ok? <==> bucket in buckets
      ensures r.Err? ==> r.error == NoSuchBucket
      ensures r.Ok? ==> Pages.IsPage(q, objects, bucket + [0], maxKeys, r.value)
      ensures r.Ok? ==> Pages.ShowsExactly(q, objects, bucket + [0], maxKeys, r.value)
    {
      if bucket !in buckets { return Err(NoSuchBucket); }
      var page, visited := Pages.List(objects, bucket, q, maxKeys);
      return Ok(page);
    }

    method DeleteBucket(bucket: Bytes) returns (r: Result<(), ObjectError>)
      modifies this
      ensures State() == Tables.DeleteBucket(old(State()), bucket).After(old(State()))
      ensures r == Tables.DeleteBucket(old(State()), bucket).Reply()
    {
      var saved := State();
      if bucket !in buckets { return Err(NoSuchBucket); }
      buckets := buckets - {bucket};
      var occupied := InRangeOf(objects, bucket) != {} || InRangeOf(uploads, bucket) != {};
      if occupied {
        RollBack(saved);
        return Err(BucketNotEmpty);
      }
      return Ok(());
    }

    method SetCors(bucket: Bytes, cors: Option<CorsConfig>) returns (r: Result<(), ObjectError>)
      modifies this
      ensures State() == Tables.SetCors(old(State()), bucket, cors).After(old(State()))
      ensures r == Tables.SetCors(old(State()), bucket, cors).Reply()
    {
      if bucket !in buckets {
        return if cors.Some? then Err(NoSuchBucket) else Ok(());
      }
      buckets := buckets[bucket := buckets[bucket].(cors := cors)];
      return Ok(());
    }

    // ---- segments ---------------------------------------------------------

    method AddPending(ids: seq<SegId>, now: nat)
      modifies this`pending
      ensures State() == Tables.AddPending(old(State()), ids, now).db
    {
      for i := 0 to |ids|
        invariant pending == Stamp(old(pending), Elems(ids[..i]), now)
      {
        StampNext(old(pending), ids, i, now);
        pending := pending[ids[i] := now];
      }
      assert ids[..|ids|] == ids;
    }

    method DiscardPending(ids: seq<SegId>, now: nat) returns (retired: Retired)
      modifies this`pending, this`garbage
      ensures var o := Tables.DiscardPending(old(State()), ids, now); State() == o.db && retired == o.value
    {
      retired := [];
      for i := 0 to |ids|
        invariant pending == old(pending) - Elems(ids[..i])
        invariant retired == StillPending(old(pending), ids[..i])
        invariant garbage == Stamp(old(garbage), Elems(retired), now)
      {
        var id := ids[i];
        assert ids[..i + 1][..i] == ids[..i];
        RemoveNext(old(pending), ids, i);
        if id in pending {
          StampAppended(old(garbage), retired, id, now);
          garbage := garbage[id := now];
          retired := retired + [id];
        }
        pending := pending - {id};
      }
      assert ids[..|ids|] == ids;
    }

    method FindStale(now: nat) returns (stale: seq<SegId>)
      ensures Elems(stale) == Stale(pending, now)
    {
      var rows := Enumerate(pending.Keys);
      assert forall i :: 0 <= i < |rows| ==> rows[i] in rows;
      stale := [];
      for i := 0 to |rows|
        invariant forall id :: id in stale <==> id in rows[..i] && SatAdd(pending[id], PENDING_ORPHAN_AGE) <= now
      {
        assert rows[..i + 1] == rows[..i] + [rows[i]];
        if SatAdd(pending[rows[i]], PENDING_ORPHAN_AGE) <= now {
          stale := stale + [rows[i]];
        }
      }
      assert rows[..|rows|] == rows;
    }

    method RetirePending(ids: seq<SegId>, now: nat)
      modifies this`pending, this`garbage
      ensures pending == old(pending) - Elems(ids)
      ensures garbage == Stamp(old(garbage), Elems(ids), now)
    {
      for i := 0 to |ids|
        invariant pending == old(pending) - Elems(ids[..i])
        invariant garbage == Stamp(old(garbage), Elems(ids[..i]), now)
      {
        RemoveNext(old(pending), ids, i);
        StampNext(old(garbage), ids, i, now);
        pending := pending - {ids[i]};
        garbage := garbage[ids[i] := now];
      }
      assert ids[..|ids|] == ids;
    }

    method ClaimDue(now: nat, limit: nat) returns (out: seq<SegId>)
      modifies this`pending, this`garbage
      ensures var o := Tables.ClaimDue(old(State()), now, limit); State() == o.db && out == o.value
    {
      var stale := FindStale(now);
      RetirePending(stale, now);
      var due := Enumerate(garbage.Keys);
      out := due[..Min(limit, |due|)];
    }

    method ForgetSegments(ids: seq<SegId>)
      modifies this`garbage
      ensures State() == Tables.ForgetSegments(old(State()), ids).db
    {
      for i := 0 to |ids|
        invariant garbage == old(garbage) - Elems(ids[..i])
      {
        RemoveNext(old(garbage), ids, i);
        garbage := garbage - {ids[i]};
      }
      assert ids[..|ids|] == ids;
    }

    // ---- transaction helpers ------------------------------------------------

    /** `take_pending`: stops at the first id that is not (or no longer) pending. */
    method TakePending(ids: seq<SegId>) returns (ok: bool)
      modifies this`pending
      ensures ok == CanTake(old(pending), ids)
      ensures ok ==> pending == old(pending) - Elems(ids)
    {
      for i := 0 to |ids|
        invariant CanTake(old(pending), ids[..i])
        invariant pending == old(pending) - Elems(ids[..i])
      {
        RemoveNext(old(pending), ids, i);
        if ids[i] !in pending {
          assert ids[i] in ids;
          assert ids[i] in old(pending) ==> ids[i] in ids[..i];
          return false;
        }
        assert ids[..i + 1] == ids[..i] + [ids[i]];
        assert ids[i] !in ids[..i];
        pending := pending - {ids[i]};
      }
      assert ids[..|ids|] == ids;
      ok := true;
    }

    method RetireManifest(segments: seq<SegRef>, now: nat, out: Retired) returns (retired: Retired)
      modifies this`garbage
      ensures garbage == Stamp(old(garbage), Elems(Ids(segments)), now)
      ensures retired == out + Ids(segments)
    {
      var ids := Ids(segments);
      retired := out;
      for i := 0 to |segments|
        invariant garbage == Stamp(old(garbage), Elems(ids[..i]), now)
        invariant retired == out + ids[..i]
      {
        StampNext(old(garbage), ids, i, now);
        garbage := garbage[segments[i].id := now];
        retired := retired + [segments[i].id];
      }
      assert ids[..|ids|] == ids;
    }

    /** `insert` into OBJECTS and MANIFESTS, retiring what the key held. */
    method Put(k: Bytes, meta: ObjectMeta, segments: seq<SegRef>, now: nat, out: Retired) returns (retired: Retired)
      modifies this`objects, this`manifests, this`garbage
      ensures State() == PutObject(old(State()), k, meta, segments, now)
      ensures retired == out + Replaced(old(State()), k)
    {
      objects := objects[k := meta];
      var old_ := if k in manifests then manifests[k] else [];
      var replaced := k in manifests;
      manifests := manifests[k := segments];
      retired := out;
      if replaced {
        retired := RetireManifest(old_, now, out);
      } else {
        assert Stamp(garbage, {}, now) == garbage;
      }
    }

    // ---- objects ----------------------------------------------------------

    method CommitObjects(bucket: Bytes, rows: seq<ObjectRow>, now: nat) returns (r: Result<Retired, ObjectError>)
      modifies this
      ensures State() == Tables.CommitObjects(old(State()), bucket, rows, now).After(old(State()))
      ensures r == Tables.CommitObjects(old(State()), bucket, rows, now).Reply()
    {
      var saved := State();
      if bucket !in buckets { return Err(NoSuchBucket); }
      var retired := [];
      for i := 0 to |rows|
        invariant CommitRows(saved, bucket, rows[..i], now) == Commit(State(), retired)
      {
        var row := rows[i];
        assert rows[..i + 1][..i] == rows[..i];
        var ok := TakePending(Ids(row.segments));
        if !ok {
          CommitRowsStops(saved, bucket, rows, i, now);
          RollBack(saved);
          return Err(NoLongerPending);
        }
        retired := Put(ObjKey(bucket, row.meta.key), row.meta, row.segments, now, retired);
      }
      assert rows[..|rows|] == rows;
      return Ok(retired);
    }

    method DeleteObject(bucket: Bytes, key: Bytes, now: nat) returns (r: Result<Retired, ObjectError>)
      modifies this
      ensures State() == Tables.DeleteObject(old(State()), bucket, key, now).After(old(State()))
      ensures r == Tables.DeleteObject(old(State()), bucket, key, now).Reply()
    {
      if bucket !in buckets { return Err(NoSuchBucket); }
      var k := ObjKey(bucket, key);
      objects := objects - {k};
      var retired := [];
      if k in manifests {
        retired := RetireManifest(manifests[k], now, []);
        assert [] + Ids(manifests[k]) == Ids(manifests[k]);
      } else {
        assert Stamp(garbage, {}, now) == garbage;
      }
      manifests := manifests - {k};
      return Ok(retired);
    }

    // ---- multipart --------------------------------------------------------

    method CreateUpload(bucket: Bytes, uploadId: Bytes, info: UploadInfo, keepExisting: bool)
      returns (r: Result<(), ObjectError>)
      modifies this
      ensures State() == Tables.CreateUpload(old(State()), bucket, uploadId, info, keepExisting).After(old(State()))
      ensures r == Tables.CreateUpload(old(State()), bucket, uploadId, info, keepExisting).Reply()
    {
      if bucket !in buckets { return Err(NoSuchBucket); }
      var k := UploadKey(bucket, uploadId);
      if !(keepExisting && k in uploads) {
        uploads := uploads[k := info];
      }
      return Ok(());
    }

    method CommitPart(bucket: Bytes, uploadId: Bytes, part: u32, row: PartRow, now: nat)
      returns (r: Result<Retired, ObjectError>)
      modifies this
      ensures var o := Tables.CommitPart(old(State()), bucket, uploadId, part, row, now);
              State() == o.After(old(State())) && r == o.Reply()
    {
      var saved := State();
      var found := RequireUpload(saved, bucket, uploadId);
      if found.Err? { return Err(found.error); }
      var k := PartKey(uploadId, part);
      if k !in parts && |parts| >= MAX_STAGED_PARTS { return Err(TooManyStagedParts); }
      var ok := TakePending([row.segment]);
      TakeJustOne(saved.pending, row.segment);
      if !ok {
        RollBack(saved);
        return Err(NoLongerPending);
      }
      var retired := ReplacePart(k, row, now);
      return Ok(retired);
    }

    method ReplacePart(k: Bytes, row: PartRow, now: nat) returns (retired: Retired)
      modifies this`parts, this`garbage
      ensures parts == old(parts)[k := row]
      ensures retired == if k in old(parts) then [old(parts)[k].segment] else []
      ensures garbage == Stamp(old(garbage), Elems(retired), now)
    {
      retired := if k in parts then [parts[k].segment] else [];
      StampFew(garbage, retired, now);
      if k in parts {
        garbage := garbage[parts[k].segment := now];
      }
      parts := parts[k := row];
    }

    method RemoveParts(doomed: seq<Bytes>, staged: seq<SegId>, now: nat, out: Retired) returns (retired: Retired)
      requires |staged| == |doomed|
      modifies this`parts, this`garbage
      ensures parts == old(parts) - Elems(doomed)
      ensures garbage == Stamp(old(garbage), Elems(staged), now)
      ensures retired == out + staged
    {
      retired := out;
      for i := 0 to |doomed|
        invariant parts == old(parts) - Elems(doomed[..i])
        invariant garbage == Stamp(old(garbage), Elems(staged[..i]), now)
        invariant retired == out + staged[..i]
      {
        RemoveNext(old(parts), doomed, i);
        StampNext(old(garbage), staged, i, now);
        parts := parts - {doomed[i]};
        garbage := garbage[staged[i] := now];
        retired := retired + [staged[i]];
      }
      assert doomed[..|doomed|] == doomed && staged[..|staged|] == staged;
    }

    /** `drop_upload`: the part rows are collected first, then removed one by one. */
    method DropUpload(bucket: Bytes, uploadId: Bytes, now: nat, out: Retired) returns (retired: Retired)
      modifies this`parts, this`uploads, this`garbage
      ensures State() == Tables.DropUpload(old(State()), bucket, uploadId, now)
      ensures retired == out + Staged(old(State()), uploadId)
    {
      hide Ascending, InRangeOf, Stamp;
      var doomed := Enumerate(InRangeOf(parts, uploadId));
      DoomedIsStaged(State(), uploadId, doomed);
      var staged := Segments(parts, doomed);
      retired := RemoveParts(doomed, staged, now, out);
      uploads := uploads - {UploadKey(bucket, uploadId)};
    }

    method AbortUpload(bucket: Bytes, uploadId: Bytes, now: nat) returns (r: Result<Retired, ObjectError>)
      modifies this
      ensures State() == Tables.AbortUpload(old(State()), bucket, uploadId, now).After(old(State()))
      ensures r == Tables.AbortUpload(old(State()), bucket, uploadId, now).Reply()
    {
      var found := RequireUpload(State(), bucket, uploadId);
      if found.Err? { return Err(found.error); }
      var retired := DropUpload(bucket, uploadId, now, []);
      assert [] + Staged(old(State()), uploadId) == Staged(old(State()), uploadId);
      return Ok(retired);
    }

    /** The upload's part rows by number, read from the table range that holds them. */
    method StagedParts(uploadId: Bytes) returns (staged: map<u32, PartRow>)
      ensures forall pn: u32 :: pn in staged <==> PartKey(uploadId, pn) in parts
      ensures forall pn: u32 :: pn in staged ==> staged[pn] == parts[PartKey(uploadId, pn)]
    {
      staged := map[];
      var rows := Enumerate(InRangeOf(parts, uploadId));
      for i := 0 to |rows|
        invariant forall pn: u32 :: pn in staged <==> PartKey(uploadId, pn) in rows[..i]
        invariant forall pn: u32 :: pn in staged ==>
                    PartKey(uploadId, pn) in parts && staged[pn] == parts[PartKey(uploadId, pn)]
      {
        assert rows[i] in rows && rows[..i + 1] == rows[..i] + [rows[i]];
        RangeSuffix(uploadId, rows[i]);
        var suffix := rows[i][|uploadId| + 1..];
        if |suffix| == 4 {
          staged := staged[FromBe32(suffix) := parts[rows[i]]];
        }
      }
      assert rows[..|rows|] == rows;
      forall pn: u32 | PartKey(uploadId, pn) in parts ensures PartKey(uploadId, pn) in rows {
        PartKeyInRange(uploadId, pn);
      }
    }

    /** The listed parts' segments and digests, in order, or the first reason to refuse the list. */
    method ListParts(uploadId: Bytes, numbers: seq<u32>, all: map<u32, PartRow>)
      returns (r: Result<(seq<SegRef>, Bytes), ObjectError>)
      requires StrictlyRising(numbers)
      requires forall pn: u32 :: pn in all <==> PartKey(uploadId, pn) in parts
      requires forall pn: u32 :: pn in all ==> all[pn] == parts[PartKey(uploadId, pn)]
      ensures r.Err? ==> BadPart(parts, uploadId, numbers, |numbers|) == Some(r.error)
      ensures r.Ok? ==> BadPart(parts, uploadId, numbers, |numbers|) == None
      ensures var listed := PartKeys(uploadId, numbers);
              r.Ok? ==>
                (forall k :: k in listed ==> k in parts) && r.value == (Refs(parts, listed), Digests(parts, listed))
    {
      var staged := all;
      var segments: seq<SegRef>, concat: Bytes := [], [];
      for i := 0 to |numbers|
        invariant staged == all - Elems(numbers[..i])
        invariant ListedSoFar(parts, uploadId, numbers[..i], |numbers|, segments, concat)
      {
        var pn := numbers[i];
        RisingIsNew(numbers, i);
        RemoveNextNumber(all, numbers, i);
        ListNext(parts, uploadId, numbers, i, segments, concat);
        if pn !in staged {
          BadPartStops(parts, uploadId, numbers, i + 1, |numbers|);
          return Err(MissingPart(pn));
        }
        var row := staged[pn];
        staged := staged - {pn};
        if row.size < MIN_PART_SIZE && i + 1 < |numbers| {
          BadPartStops(parts, uploadId, numbers, i + 1, |numbers|);
          return Err(EntityTooSmall(pn));
        }
        concat := concat + row.md5;
        segments := segments + [RefOf(row)];
      }
      assert numbers[..|numbers|] == numbers;
      return Ok((segments, concat));
    }

    method RemoveListed(uploadId: Bytes, numbers: seq<u32>)
      modifies this`parts
      ensures State() == Taken(old(State()), PartKeys(uploadId, numbers))
    {
      ghost var listed := PartKeys(uploadId, numbers);
      for i := 0 to |numbers|
        invariant parts == old(parts) - Elems(listed[..i])
      {
        RemoveNext(old(parts), listed, i);
        parts := parts - {PartKey(uploadId, numbers[i])};
      }
      assert listed[..|listed|] == listed;
    }

    method CompleteUpload(bucket: Bytes, key: Bytes, uploadId: Bytes, numbers: seq<u32>, now: nat)
      returns (r: Result<(ObjectMeta, Retired), ObjectError>)
      modifies this
      ensures var o := Tables.CompleteUpload(old(State()), bucket, key, uploadId, numbers, now);
              State() == o.After(old(State())) && r == o.Reply()
    {
      var found := RequireUpload(State(), bucket, uploadId);
      if found.Err? { return Err(found.error); }
      var info := found.value;
      if info.key != key { return Err(KeyDoesNotMatchUpload); }
      if numbers == [] { return Err(NoParts); }
      if !StrictlyRising(numbers) { return Err(InvalidPartOrder); }
      var staged := StagedParts(uploadId);
      var list := ListParts(uploadId, numbers, staged);
      if list.Err? { return Err(list.error); }
      var (segments, concat) := list.value;
      ghost var db, listed := State(), PartKeys(uploadId, numbers);
      RemoveListed(uploadId, numbers);
      var retired := DropUpload(bucket, uploadId, now, []);
      assert State() == Tables.DropUpload(Taken(db, listed), bucket, uploadId, now);
      assert retired == Staged(Taken(db, listed), uploadId);
      var meta := ObjectMeta(key, TotalSize(segments), Multipart(concat, |numbers|), info.contentType, now,
                             info.cacheControl);
      assert meta == CompletedMeta(db, info, key, listed, now);
      retired := Put(ObjKey(bucket, key), meta, segments, now, retired);
      assert State() == Assemble(db, bucket, uploadId, listed, meta, now);
      return Ok((meta, retired));
    }

    method AbortUploadsBefore(threshold: nat, now: nat, limit: nat) returns (aborted: nat, retired: Retired)
      modifies this
      ensures var o := Tables.AbortUploadsBefore(old(State()), threshold, now, limit);
              State() == o.db && (aborted, retired) == o.value
    {
      var stale := CollectStale(threshold, limit);
      retired, aborted := [], 0;
      var i := 0;
      ghost var db0 := State();
      while i < |stale| && |retired| < SWEEP_PART_ROWS
        invariant 0 <= i <= |stale|
        invariant DropStale(db0, stale, now, [], 0) == DropStale(State(), stale[i..], now, retired, aborted)
      {
        assert stale[i..][1..] == stale[i + 1..];
        if !NoNul(stale[i]) {
          retired := DropUpload(Head(stale[i]), Tail(stale[i]), now, retired);
          aborted := aborted + 1;
        }
        i := i + 1;
      }
    }

    method CollectStale(threshold: nat, limit: nat) returns (stale: seq<Bytes>)
      ensures stale == FirstStale(uploads, threshold, limit)
    {
      var rows := Enumerate(uploads.Keys);
      stale := TakeStale(rows, threshold, limit);
    }

    method TakeStale(rows: seq<Bytes>, threshold: nat, limit: nat) returns (stale: seq<Bytes>)
      requires forall i :: 0 <= i < |rows| ==> rows[i] in uploads
      ensures var all := BegunBy(uploads, rows, threshold);
              stale == if 0 < limit <= |all| then all[..limit] else all
    {
      stale := [];
      for i := 0 to |rows|
        invariant stale == BegunBy(uploads, rows[..i], threshold)
        invariant limit == 0 || |stale| < limit
      {
        BegunByNext(uploads, rows, i, threshold);
        if uploads[rows[i]].initiated <= threshold {
          stale := stale + [rows[i]];
          if |stale| == limit {
            BegunByPrefix(uploads, rows, i + 1, threshold);
            return;
          }
        }
      }
      assert rows[..|rows|] == rows;
    }
  }

  lemma TakeJustOne(pending: map<SegId, nat>, id: SegId)
    ensures CanTake(pending, [id]) <==> id in pending
    ensures Elems([id]) == {id}
  {}

  lemma DoomedIsStaged(db: Db, uploadId: Bytes, doomed: seq<Bytes>)
    requires doomed == Ascending(InRangeOf(db.parts, uploadId))
    ensures Elems(doomed) == InRangeOf(db.parts, uploadId)
    ensures forall k :: k in doomed ==> k in db.parts
    ensures Segments(db.parts, doomed) == Staged(db, uploadId)
  {}

  /** A row that cannot take its segments fails the whole batch. */
  lemma {:induction false} CommitRowsStops(db: Db, bucket: Bytes, rows: seq<ObjectRow>, i: nat, now: nat)
    requires i < |rows| && CommitRows(db, bucket, rows[..i], now).Commit?
    requires CommitRow(CommitRows(db, bucket, rows[..i], now).db, bucket, rows[i], now) == Abort(NoLongerPending)
    ensures CommitRows(db, bucket, rows, now) == Abort(NoLongerPending)
    decreases |rows|
  {
    var n := |rows| - 1;
    if i < n {
      assert rows[..n][..i] == rows[..i];
      CommitRowsStops(db, bucket, rows[..n], i, now);
    }
  }

  lemma RangeSuffix(uploadId: Bytes, k: Bytes)
    requires InRange(uploadId, k)
    ensures |k| > |uploadId| && uploadId + [0] + k[|uploadId| + 1..] == k
    ensures |k[|uploadId| + 1..]| == 4 ==> PartKey(uploadId, FromBe32(k[|uploadId| + 1..])) == k
    ensures forall pn: u32 :: PartKey(uploadId, pn) == k ==>
              |k[|uploadId| + 1..]| == 4 && FromBe32(k[|uploadId| + 1..]) == pn
  {
    UnitRange(uploadId, 0, k);
    var suffix := k[|uploadId| + 1..];
    if |suffix| == 4 { FromBe32RoundTrip(suffix); }
    forall pn: u32 | PartKey(uploadId, pn) == k ensures |suffix| == 4 && FromBe32(suffix) == pn {
      Be32RoundTrip(pn);
      assert suffix == Be32(pn);
    }
  }

  lemma PartKeyInRange(uploadId: Bytes, pn: u32)
    ensures InRange(uploadId, PartKey(uploadId, pn))
  {
    UnitRange(uploadId, 0, PartKey(uploadId, pn));
    assert uploadId + [0] <= PartKey(uploadId, pn);
  }

  lemma RisingIsNew(numbers: seq<u32>, i: nat)
    requires StrictlyRising(numbers) && i < |numbers|
    ensures numbers[i] !in numbers[..i]
  {
    forall j | 0 <= j < i ensures numbers[j] != numbers[i] { RisingIsSorted(numbers, j, i); }
  }

  lemma ListedNext(uploadId: Bytes, numbers: seq<u32>, i: nat)
    requires i < |numbers|
    ensures numbers[..i + 1][..i] == numbers[..i] && numbers[..i + 1] == numbers[..i] + [numbers[i]]
    ensures PartKeys(uploadId, numbers[..i + 1]) == PartKeys(uploadId, numbers[..i]) + [PartKey(uploadId, numbers[i])]
    ensures PartKeys(uploadId, numbers[..i + 1])[..i] == PartKeys(uploadId, numbers[..i])
  {}

  /** The first bad part decides, however the list goes on. */
  lemma {:induction false} BadPartStops(parts: map<Bytes, PartRow>, uploadId: Bytes, numbers: seq<u32>, i: nat,
                                        total: nat)
    requires i <= |numbers| && BadPart(parts, uploadId, numbers[..i], total).Some?
    ensures BadPart(parts, uploadId, numbers, total) == BadPart(parts, uploadId, numbers[..i], total)
    decreases |numbers|
  {
    if i < |numbers| {
      var n := |numbers| - 1;
      assert numbers[..n][..i] == numbers[..i];
      BadPartStops(parts, uploadId, numbers[..n], i, total);
    } else {
      assert numbers[..i] == numbers;
    }
  }

  lemma {:induction false} BegunByPrefix(uploads: map<Bytes, UploadInfo>, ks: seq<Bytes>, i: nat, threshold: nat)
    requires i <= |ks| && forall k :: k in ks ==> k in uploads
    ensures BegunBy(uploads, ks[..i], threshold) <= BegunBy(uploads, ks, threshold)
    decreases |ks|
  {
    if i < |ks| {
      var n := |ks| - 1;
      assert ks[..n][..i] == ks[..i];
      BegunByPrefix(uploads, ks[..n], i, threshold);
    } else {
      assert ks[..i] == ks;
    }
  }

  lemma BegunByNext(uploads: map<Bytes, UploadInfo>, ks: seq<Bytes>, i: nat, threshold: nat)
    requires i < |ks| && forall k :: k in ks ==> k in uploads
    ensures BegunBy(uploads, ks[..i + 1], threshold) ==
            BegunBy(uploads, ks[..i], threshold) + (if uploads[ks[i]].initiated <= threshold then [ks[i]] else [])
  {
    assert ks[..i + 1][..i] == ks[..i] && ks[i] in ks;
  }

  lemma RemoveNextNumber(all: map<u32, PartRow>, numbers: seq<u32>, i: nat)
    requires i < |numbers|
    ensures all - Elems(numbers[..i + 1]) == (all - Elems(numbers[..i])) - {numbers[i]}
  {
    assert numbers[..i + 1] == numbers[..i] + [numbers[i]];
    assert Elems(numbers[..i + 1]) == Elems(numbers[..i]) + {numbers[i]};
  }

  /** Every part listed so far is there and large enough; these are their segments and digests. */
  ghost predicate ListedSoFar(parts: map<Bytes, PartRow>, uploadId: Bytes, numbers: seq<u32>, total: nat,
                              segments: seq<SegRef>, concat: Bytes) {
    var listed := PartKeys(uploadId, numbers);
    && BadPart(parts, uploadId, numbers, total) == None
    && (forall k :: k in listed ==> k in parts)
    && segments == Refs(parts, listed)
    && concat == Digests(parts, listed)
  }

  lemma ListNext(parts: map<Bytes, PartRow>, uploadId: Bytes, numbers: seq<u32>, i: nat, segments: seq<SegRef>,
                 concat: Bytes)
    requires i < |numbers| && ListedSoFar(parts, uploadId, numbers[..i], |numbers|, segments, concat)
    ensures var k := PartKey(uploadId, numbers[i]);
            if k !in parts then BadPart(parts, uploadId, numbers[..i + 1], |numbers|) == Some(MissingPart(numbers[i]))
            else if parts[k].size < MIN_PART_SIZE && i + 1 < |numbers| then
              BadPart(parts, uploadId, numbers[..i + 1], |numbers|) == Some(EntityTooSmall(numbers[i]))
            else ListedSoFar(parts, uploadId, numbers[..i + 1], |numbers|, segments + [RefOf(parts[k])],
                             concat + parts[k].md5)
  {
    ListedNext(uploadId, numbers, i);
  }
}
