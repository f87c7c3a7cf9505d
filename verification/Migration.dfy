/** Moving a layout-1 store into the index, in the face of a crash after any step. */
module Migration {
  import opened Common
  import opened Bytes
  import opened Keys
  import opened Tables
  import opened Lifecycle
  import opened ReferentialIntegrity
  import opened IndexRuns
  import opened Protocol
  import opened ProtocolRuns

  /** A `<stem>.meta` file: JSON that parses as object metadata, or not. */
  datatype Sidecar = Garbled | Parsed(meta: ObjectMeta)

  /** A layout-1 bucket directory: `<stem>` byte files and `<stem>.meta` sidecars. */
  datatype Dir = Dir(bytes: map<Bytes, Body>, sidecars: map<Bytes, Sidecar>)

  /** What a GET of a key returns. */
  datatype Obj = Obj(meta: ObjectMeta, body: Body)

  type StemOf = Bytes -> Bytes

  predicate KeyOk(key: Bytes) {
    1 <= |key| <= 1024 && NoNul(key)
  }

  /** `read_legacy`: a sidecar that parses, sits under its own key's name and has its bytes. */
  predicate Serves(stem: StemOf, dir: Dir, st: Bytes) {
    && st in dir.sidecars && dir.sidecars[st].Parsed?
    && KeyOk(dir.sidecars[st].meta.key) && stem(dir.sidecars[st].meta.key) == st
    && st in dir.bytes
  }

  function Served(dir: Dir, st: Bytes): Obj
    requires st in dir.sidecars && dir.sidecars[st].Parsed? && st in dir.bytes
  {
    Obj(dir.sidecars[st].meta.(size := |dir.bytes[st]|), dir.bytes[st])
  }

  ghost function DirValue(stem: StemOf, dirs: map<Bytes, Dir>, bucket: Bytes, key: Bytes): Option<Obj> {
    if bucket in dirs && Serves(stem, dirs[bucket], stem(key)) && dirs[bucket].sidecars[stem(key)].meta.key == key
    then Some(Served(dirs[bucket], stem(key)))
    else None
  }

  ghost function IndexValue(db: Db, segs: map<SegId, Body>, bucket: Bytes, key: Bytes): Option<Obj> {
    var k := ObjKey(bucket, key);
    if k in db.objects && k in db.manifests && Readable(segs, db.manifests[k])
    then Some(Obj(db.objects[k], Content(segs, db.manifests[k])))
    else None
  }

  /** The store's root: bucket directories not yet started on, half-migrated ones, what was set aside, the
      index and the segments. */
  datatype Root = Root(
    plain: map<Bytes, Dir>, hidden: map<Bytes, Dir>, aside: seq<(Bytes, Dir)>, db: Db, segs: map<SegId, Body>)

  /** The value a key has, wherever a migration has got to: legacy content wins, and a plain directory
      was written after a hidden one. */
  ghost function Effective(stem: StemOf, r: Root, bucket: Bytes, key: Bytes): Option<Obj> {
    var p := DirValue(stem, r.plain, bucket, key);
    var h := DirValue(stem, r.hidden, bucket, key);
    if p.Some? then p else if h.Some? then h else IndexValue(r.db, r.segs, bucket, key)
  }

  ghost predicate SameValues(stem: StemOf, r: Root, r': Root) {
    forall bucket, key :: NoNul(bucket) ==> Effective(stem, r', bucket, key) == Effective(stem, r, bucket, key)
  }

  /** The index is sound and every referenced segment is in the byte store. */
  ghost predicate Fine(db: Db, ever: set<SegId>, segs: map<SegId, Body>) {
    Sound(db, ever) && OnDisk(db, segs) && segs.Keys <= ever
  }

  // ---- single steps ---------------------------------------------------------

  lemma HideKeeps(stem: StemOf, r: Root, bucket: Bytes)
    requires bucket in r.plain && bucket !in r.hidden
    ensures SameValues(stem, r, r.(plain := r.plain - {bucket}, hidden := r.hidden[bucket := r.plain[bucket]]))
  {}

  /** Directories that serve the same values can be swapped. */
  lemma HiddenKeeps(stem: StemOf, r: Root, hidden: map<Bytes, Dir>)
    requires forall b, key :: DirValue(stem, hidden, b, key) == DirValue(stem, r.hidden, b, key)
    ensures SameValues(stem, r, r.(hidden := hidden))
  {}

  lemma IndexKeeps(stem: StemOf, r: Root, db: Db, segs: map<SegId, Body>)
    requires forall b, key :: NoNul(b) ==> IndexValue(db, segs, b, key) == IndexValue(r.db, r.segs, b, key)
    ensures SameValues(stem, r, r.(db := db, segs := segs))
  {}

  /** A sidecar whose bytes are gone serves nothing. */
  lemma DropSidecarKeeps(stem: StemOf, r: Root, bucket: Bytes, st: Bytes)
    requires bucket in r.hidden && st !in r.hidden[bucket].bytes
    ensures var dir := r.hidden[bucket];
            SameValues(stem, r, r.(hidden := r.hidden[bucket := dir.(sidecars := dir.sidecars - {st})]))
  {
    var dir := r.hidden[bucket];
    HiddenKeeps(stem, r, r.hidden[bucket := dir.(sidecars := dir.sidecars - {st})]);
  }

  /** Bytes may go once the index serves the same object. */
  lemma DropBytesKeeps(stem: StemOf, r: Root, bucket: Bytes, st: Bytes)
    requires bucket in r.hidden
    requires Serves(stem, r.hidden[bucket], st) ==>
               IndexValue(r.db, r.segs, bucket, r.hidden[bucket].sidecars[st].meta.key) ==
                 Some(Served(r.hidden[bucket], st))
    ensures var dir := r.hidden[bucket];
            SameValues(stem, r, r.(hidden := r.hidden[bucket := dir.(bytes := dir.bytes - {st})]))
  {
    var dir := r.hidden[bucket];
    var dir' := dir.(bytes := dir.bytes - {st});
    var r' := r.(hidden := r.hidden[bucket := dir']);
    forall b, key ensures Effective(stem, r', b, key) == Effective(stem, r, b, key) {
      if b == bucket && stem(key) != st {
        assert Serves(stem, dir', stem(key)) == Serves(stem, dir, stem(key));
      }
    }
  }

  lemma DropDirKeeps(stem: StemOf, r: Root, bucket: Bytes)
    requires bucket in r.hidden && forall st :: !Serves(stem, r.hidden[bucket], st)
    ensures SameValues(stem, r, r.(hidden := r.hidden - {bucket}))
  {
    HiddenKeeps(stem, r, r.hidden - {bucket});
  }

  // ---- the index side ---------------------------------------------------------

  lemma IndexReadable(db: Db, segs: map<SegId, Body>, k: Bytes)
    requires OnDisk(db, segs) && k in db.manifests
    ensures Readable(segs, db.manifests[k])
  {
    forall i | 0 <= i < |db.manifests[k]|
      ensures db.manifests[k][i].id in segs && |segs[db.manifests[k][i].id]| == db.manifests[k][i].size
    {
      assert RefAt(db, InManifest(k, i), db.manifests[k][i]);
    }
  }

  /** Linking a new segment changes no object. */
  lemma LinkKeeps(stem: StemOf, r: Root, id: SegId, body: Body)
    requires OnDisk(r.db, r.segs) && id !in r.segs
    ensures SameValues(stem, r, r.(segs := r.segs[id := body]))
    ensures OnDisk(r.db, r.segs[id := body])
  {
    var segs' := r.segs[id := body];
    forall b, key ensures IndexValue(r.db, segs', b, key) == IndexValue(r.db, r.segs, b, key) {
      var k := ObjKey(b, key);
      if k in r.db.manifests {
        IndexReadable(r.db, r.segs, k);
        assert Readable(segs', r.db.manifests[k]);
        SameContent(r.segs, segs', r.db.manifests[k]);
      }
    }
    IndexKeeps(stem, r, r.db, segs');
  }

  // ---- a batch ------------------------------------------------------------------

  /** Objects to move together, each with the pending segment its bytes were linked to. */
  ghost predicate BatchOk(stem: StemOf, dir: Dir, segs: map<SegId, Body>, stems: seq<Bytes>, ids: seq<SegId>) {
    && |ids| == |stems| && NoDup(stems) && NoDup(ids)
    && AllServe(stem, dir, stems)
    && (forall i :: 0 <= i < |ids| ==> ids[i] in segs && segs[ids[i]] == dir.bytes[stems[i]])
  }

  function RowAt(stem: StemOf, dir: Dir, st: Bytes, id: SegId): ObjectRow
    requires Serves(stem, dir, st)
  {
    RowFor(dir.sidecars[st].meta, id, dir.bytes[st])
  }

  predicate AllServe(stem: StemOf, dir: Dir, stems: seq<Bytes>) {
    forall i :: 0 <= i < |stems| ==> Serves(stem, dir, stems[i])
  }

  function BatchRows(stem: StemOf, dir: Dir, stems: seq<Bytes>, ids: seq<SegId>): (rows: seq<ObjectRow>)
    requires |ids| == |stems| && AllServe(stem, dir, stems)
    ensures |rows| == |stems|
    ensures forall i :: 0 <= i < |rows| ==> rows[i] == RowAt(stem, dir, stems[i], ids[i])
  {
    seq(|stems|, i requires 0 <= i < |stems| => RowAt(stem, dir, stems[i], ids[i]))
  }

  ghost function PutMetas(objects: map<Bytes, ObjectMeta>, bucket: Bytes,
                          rows: seq<ObjectRow>): map<Bytes, ObjectMeta> {
    if rows == [] then objects else
      var n := |rows| - 1;
      PutMetas(objects, bucket, rows[..n])[ObjKey(bucket, rows[n].meta.key) := rows[n].meta]
  }

  ghost function PutSegments(manifests: map<Bytes, seq<SegRef>>, bucket: Bytes,
                             rows: seq<ObjectRow>): map<Bytes, seq<SegRef>> {
    if rows == [] then manifests else
      var n := |rows| - 1;
      PutSegments(manifests, bucket, rows[..n])[ObjKey(bucket, rows[n].meta.key) := rows[n].segments]
  }

  ghost predicate OneSegmentEach(rows: seq<ObjectRow>, ids: seq<SegId>) {
    |ids| == |rows| && forall i :: 0 <= i < |rows| ==> Ids(rows[i].segments) == [ids[i]]
  }

  /** A batch of fresh rows always commits. */
  lemma {:induction false} BatchCommits(db: Db, bucket: Bytes, rows: seq<ObjectRow>, ids: seq<SegId>, now: nat)
    requires OneSegmentEach(rows, ids) && CanTake(db.pending, ids)
    ensures var o := CommitRows(db, bucket, rows, now);
            && o.Commit? && o.db.pending == db.pending - Elems(ids)
            && o.db.objects == PutMetas(db.objects, bucket, rows)
            && o.db.manifests == PutSegments(db.manifests, bucket, rows)
            && o.db.parts == db.parts && o.db.buckets == db.buckets
  {
    if rows == [] {
      assert db.pending - Elems(ids) == db.pending;
    } else {
      var n := |rows| - 1;
      BatchCommits(db, bucket, rows[..n], ids[..n], now);
      TakeLast(db.pending, ids);
    }
  }

  lemma TakeLast(pending: map<SegId, nat>, ids: seq<SegId>)
    requires ids != [] && CanTake(pending, ids)
    ensures var n := |ids| - 1;
            && CanTake(pending - Elems(ids[..n]), [ids[n]])
            && pending - Elems(ids) == (pending - Elems(ids[..n])) - Elems([ids[n]])
  {
    var n := |ids| - 1;
    assert ids == ids[..n] + [ids[n]];
    assert Elems(ids) == Elems(ids[..n]) + Elems([ids[n]]);
    assert ids[n] in ids;
  }

  lemma {:induction false} PutElsewhere(objects: map<Bytes, ObjectMeta>, manifests: map<Bytes, seq<SegRef>>,
                                        bucket: Bytes, rows: seq<ObjectRow>, k: Bytes)
    requires forall i :: 0 <= i < |rows| ==> k != ObjKey(bucket, rows[i].meta.key)
    ensures var o, m := PutMetas(objects, bucket, rows), PutSegments(manifests, bucket, rows);
            && (k in o <==> k in objects) && (k in objects ==> o[k] == objects[k])
            && (k in m <==> k in manifests) && (k in manifests ==> m[k] == manifests[k])
  {
    if rows != [] { PutElsewhere(objects, manifests, bucket, rows[..|rows| - 1], k); }
  }

  lemma {:induction false} PutAt(objects: map<Bytes, ObjectMeta>, manifests: map<Bytes, seq<SegRef>>, bucket: Bytes,
                                 rows: seq<ObjectRow>, i: nat)
    requires i < |rows|
    requires forall j :: i < j < |rows| ==> rows[i].meta.key != rows[j].meta.key
    ensures var k := ObjKey(bucket, rows[i].meta.key);
            var o, m := PutMetas(objects, bucket, rows), PutSegments(manifests, bucket, rows);
            k in o && k in m && o[k] == rows[i].meta && m[k] == rows[i].segments
  {
    var n := |rows| - 1;
    if i < n {
      PutAt(objects, manifests, bucket, rows[..n], i);
      if ObjKey(bucket, rows[i].meta.key) == ObjKey(bucket, rows[n].meta.key) {
        ObjKeyInjective(bucket, rows[i].meta.key, rows[n].meta.key);
      }
    }
  }

  lemma ObjKeyInjective(bucket: Bytes, a: Bytes, b: Bytes)
    requires ObjKey(bucket, a) == ObjKey(bucket, b)
    ensures a == b
  {
    assert a == ObjKey(bucket, a)[|bucket| + 1..] == ObjKey(bucket, b)[|bucket| + 1..] == b;
  }

  lemma BatchKeysDistinct(stem: StemOf, dir: Dir, stems: seq<Bytes>, ids: seq<SegId>)
    requires |ids| == |stems| && NoDup(stems) && AllServe(stem, dir, stems)
    ensures var rows := BatchRows(stem, dir, stems, ids);
            forall i, j :: 0 <= i < j < |rows| ==> rows[i].meta.key != rows[j].meta.key
  {
    var rows := BatchRows(stem, dir, stems, ids);
    forall i, j | 0 <= i < j < |rows| ensures rows[i].meta.key != rows[j].meta.key {
      assert Serves(stem, dir, stems[i]) && Serves(stem, dir, stems[j]);
    }
  }

  ghost predicate InBatch(dir: Dir, stems: seq<Bytes>, stem: StemOf, key: Bytes) {
    exists i :: 0 <= i < |stems| && Serves(stem, dir, stems[i]) && dir.sidecars[stems[i]].meta.key == key
  }

  ghost predicate BatchIndexed(stem: StemOf, dir: Dir, db: Db, segs: map<SegId, Body>, bucket: Bytes,
                               stems: seq<Bytes>) {
    forall i :: 0 <= i < |stems| ==>
      Serves(stem, dir, stems[i]) && IndexValue(db, segs, bucket, dir.sidecars[stems[i]].meta.key) ==
        Some(Served(dir, stems[i]))
  }

  lemma BatchValues(stem: StemOf, dir: Dir, db: Db, db': Db, segs: map<SegId, Body>, bucket: Bytes,
                    stems: seq<Bytes>, ids: seq<SegId>)
    requires BatchOk(stem, dir, segs, stems, ids)
    requires db'.objects == PutMetas(db.objects, bucket, BatchRows(stem, dir, stems, ids))
    requires db'.manifests == PutSegments(db.manifests, bucket, BatchRows(stem, dir, stems, ids))
    ensures BatchIndexed(stem, dir, db', segs, bucket, stems)
  {
    var rows := BatchRows(stem, dir, stems, ids);
    BatchKeysDistinct(stem, dir, stems, ids);
    forall i | 0 <= i < |stems|
      ensures Serves(stem, dir, stems[i])
      ensures IndexValue(db', segs, bucket, dir.sidecars[stems[i]].meta.key) == Some(Served(dir, stems[i]))
    {
      assert Serves(stem, dir, stems[i]);
      PutAt(db.objects, db.manifests, bucket, rows, i);
      var segments := rows[i].segments;
      assert segments == [SegRef(ids[i], |dir.bytes[stems[i]]|)];
      assert Readable(segs, segments) && segments[..0] == [];
      assert Content(segs, segments) == [] + segs[ids[i]] == segs[ids[i]];
    }
  }

  lemma BatchElsewhere(stem: StemOf, dir: Dir, db: Db, db': Db, segs: map<SegId, Body>, bucket: Bytes,
                       stems: seq<Bytes>, ids: seq<SegId>, b: Bytes, key: Bytes)
    requires BatchOk(stem, dir, segs, stems, ids) && NoNul(bucket) && NoNul(b)
    requires db'.objects == PutMetas(db.objects, bucket, BatchRows(stem, dir, stems, ids))
    requires db'.manifests == PutSegments(db.manifests, bucket, BatchRows(stem, dir, stems, ids))
    requires b != bucket || !InBatch(dir, stems, stem, key)
    ensures IndexValue(db', segs, b, key) == IndexValue(db, segs, b, key)
  {
    var rows := BatchRows(stem, dir, stems, ids);
    var k := ObjKey(b, key);
    forall i | 0 <= i < |rows| ensures k != ObjKey(bucket, rows[i].meta.key) {
      assert Serves(stem, dir, stems[i]);
      SplitJoined(b, key);
      SplitJoined(bucket, rows[i].meta.key);
    }
    PutElsewhere(db.objects, db.manifests, bucket, rows, k);
  }

  lemma BatchOnDisk(stem: StemOf, dir: Dir, db: Db, db': Db, segs: map<SegId, Body>, bucket: Bytes,
                    stems: seq<Bytes>, ids: seq<SegId>)
    requires BatchOk(stem, dir, segs, stems, ids) && OnDisk(db, segs)
    requires db'.manifests == PutSegments(db.manifests, bucket, BatchRows(stem, dir, stems, ids))
    requires db'.parts == db.parts
    ensures OnDisk(db', segs)
  {
    var rows := BatchRows(stem, dir, stems, ids);
    BatchKeysDistinct(stem, dir, stems, ids);
    forall slot, ref | RefAt(db', slot, ref) ensures ref.id in segs && |segs[ref.id]| == ref.size {
      if slot.InManifest? {
        if i :| 0 <= i < |rows| && slot.k == ObjKey(bucket, rows[i].meta.key) {
          PutAt(db.objects, db.manifests, bucket, rows, i);
          assert ref == SegRef(ids[i], |dir.bytes[stems[i]]|);
        } else {
          PutElsewhere(db.objects, db.manifests, bucket, rows, slot.k);
          assert RefAt(db, slot, ref);
        }
      } else {
        assert RefAt(db, slot, ref);
      }
    }
  }

  lemma BatchSameValues(stem: StemOf, r: Root, db': Db, bucket: Bytes, stems: seq<Bytes>, ids: seq<SegId>)
    requires bucket in r.hidden && NoNul(bucket) && BatchOk(stem, r.hidden[bucket], r.segs, stems, ids)
    requires db'.objects == PutMetas(r.db.objects, bucket, BatchRows(stem, r.hidden[bucket], stems, ids))
    requires db'.manifests == PutSegments(r.db.manifests, bucket, BatchRows(stem, r.hidden[bucket], stems, ids))
    ensures SameValues(stem, r, r.(db := db'))
  {
    var dir := r.hidden[bucket];
    BatchValues(stem, dir, r.db, db', r.segs, bucket, stems, ids);
    forall b, key | NoNul(b) ensures Effective(stem, r.(db := db'), b, key) == Effective(stem, r, b, key) {
      if b == bucket && InBatch(dir, stems, stem, key) {
        var i :| 0 <= i < |stems| && Serves(stem, dir, stems[i]) && dir.sidecars[stems[i]].meta.key == key;
        assert DirValue(stem, r.hidden, b, key) == Some(Served(dir, stems[i]));
      } else {
        BatchElsewhere(stem, dir, r.db, db', r.segs, bucket, stems, ids, b, key);
      }
    }
  }

  lemma BatchIsOneEach(stem: StemOf, dir: Dir, stems: seq<Bytes>, ids: seq<SegId>)
    requires |ids| == |stems| && AllServe(stem, dir, stems)
    ensures OneSegmentEach(BatchRows(stem, dir, stems, ids), ids)
  {}

  /** Committing a batch gives each of its keys, in the index, the value its directory still serves. */
  lemma CommitKeeps(stem: StemOf, r: Root, ever: set<SegId>, bucket: Bytes, stems: seq<Bytes>, ids: seq<SegId>,
                    now: nat)
    requires Fine(r.db, ever, r.segs) && bucket in r.hidden && bucket in r.db.buckets
    requires BatchOk(stem, r.hidden[bucket], r.segs, stems, ids) && CanTake(r.db.pending, ids)
    ensures var o := CommitObjects(r.db, bucket, BatchRows(stem, r.hidden[bucket], stems, ids), now);
            && o.Commit? && Fine(o.db, ever, r.segs) && o.db.buckets == r.db.buckets
            && SameValues(stem, r, r.(db := o.db))
            && BatchIndexed(stem, r.hidden[bucket], o.db, r.segs, bucket, stems)
  {
    var dir := r.hidden[bucket];
    var rows := BatchRows(stem, dir, stems, ids);
    BatchIsOneEach(stem, dir, stems, ids);
    BatchCommits(r.db, bucket, rows, ids, now);
    var db' := CommitRows(r.db, bucket, rows, now).db;
    CommitRowsMoves(r.db, ever, bucket, rows, now);
    CommitRowsKeep(r.db, bucket, rows, now);
    BatchOnDisk(stem, dir, r.db, db', r.segs, bucket, stems, ids);
    BatchValues(stem, dir, r.db, db', r.segs, bucket, stems, ids);
    BatchSameValues(stem, r, db', bucket, stems, ids);
  }

  // ---- what a finished migration serves ---------------------------------------------------------

  /** The bucket's directory holds the object: a sidecar that parses and names the key, under the key's own
      file name, and the bytes beside it. */
  ghost predicate Holds(stem: StemOf, dirs: map<Bytes, Dir>, bucket: Bytes, key: Bytes, meta: ObjectMeta, body: Body) {
    && 1 <= |key| <= 1024 && 0 !in key && meta.key == key
    && bucket in dirs && stem(key) in dirs[bucket].sidecars && stem(key) in dirs[bucket].bytes
    && dirs[bucket].sidecars[stem(key)] == Parsed(meta) && dirs[bucket].bytes[stem(key)] == body
  }

  ghost predicate HoldsNone(stem: StemOf, dirs: map<Bytes, Dir>, bucket: Bytes, key: Bytes) {
    forall meta, body :: !Holds(stem, dirs, bucket, key, meta, body)
  }

  /** A GET through the index. */
  ghost predicate IndexServes(db: Db, segs: map<SegId, Body>, bucket: Bytes, key: Bytes, meta: ObjectMeta, body: Body) {
    var k := bucket + [0] + key;
    && k in db.objects && k in db.manifests && db.objects[k] == meta
    && Readable(segs, db.manifests[k]) && Content(segs, db.manifests[k]) == body
  }

  lemma HeldValue(stem: StemOf, dirs: map<Bytes, Dir>, bucket: Bytes, key: Bytes, meta: ObjectMeta, body: Body)
    ensures Holds(stem, dirs, bucket, key, meta, body) ==>
              DirValue(stem, dirs, bucket, key) == Some(Obj(meta.(size := |body|), body))
    ensures HoldsNone(stem, dirs, bucket, key) ==> DirValue(stem, dirs, bucket, key) == None
  {
    if DirValue(stem, dirs, bucket, key).Some? {
      var dir := dirs[bucket];
      assert Holds(stem, dirs, bucket, key, dir.sidecars[stem(key)].meta, dir.bytes[stem(key)]);
    }
  }

  /** Wherever the index serves what the store did, an object of an unstarted directory, or else of one
      half migrated, is served with its own bytes, their number for its size and all else as its sidecar says;
      a key that neither holds is served as the index served it. */
  lemma ServedExactly(stem: StemOf, start: Root, db: Db, segs: map<SegId, Body>, bucket: Bytes, key: Bytes,
                      meta: ObjectMeta, body: Body)
    requires IndexValue(db, segs, bucket, key) == Effective(stem, start, bucket, key)
    ensures Holds(stem, start.plain, bucket, key, meta, body) ==>
              IndexServes(db, segs, bucket, key, meta.(size := |body|), body)
    ensures HoldsNone(stem, start.plain, bucket, key) && Holds(stem, start.hidden, bucket, key, meta, body) ==>
              IndexServes(db, segs, bucket, key, meta.(size := |body|), body)
    ensures HoldsNone(stem, start.plain, bucket, key) && HoldsNone(stem, start.hidden, bucket, key) ==>
              (IndexServes(db, segs, bucket, key, meta, body) <==>
               IndexServes(start.db, start.segs, bucket, key, meta, body))
  {
    hide DirValue, Holds, HoldsNone;
    HeldValue(stem, start.plain, bucket, key, meta, body);
    HeldValue(stem, start.hidden, bucket, key, meta, body);
  }
}
