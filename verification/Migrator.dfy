/** The migration as it runs, one file operation or index transaction at a time. `fuel` is how many
    more of those this process lives to perform: any value is a possible crash point. */
module MigrationRun {
  import opened Common
  import opened Bytes
  import opened Keys
  import opened Tables
  import opened Lifecycle
  import opened ReferentialIntegrity
  import opened IndexRuns
  import opened Protocol
  import opened ProtocolRuns
  import opened Migration
  import opened MigrationCost

  const BATCH: nat := 512
  const LAYOUT_V2: nat := 2

  /** `read_legacy`: the sidecar does not parse, or names a key whose file this is not. */
  predicate IsUnreadable(stem: StemOf, sidecar: Sidecar, st: Bytes) {
    sidecar.Garbled? || !KeyOk(sidecar.meta.key) || stem(sidecar.meta.key) != st
  }

  lemma ReadableExactly(stem: StemOf, sidecar: Sidecar, st: Bytes)
    ensures !IsUnreadable(stem, sidecar, st) <==>
            exists meta :: sidecar == Parsed(meta) && NamesItsFile(stem, meta, st)
  {}

  predicate NamesItsFile(stem: StemOf, meta: ObjectMeta, st: Bytes) {
    1 <= |meta.key| <= 1024 && 0 !in meta.key && stem(meta.key) == st
  }

  /** The directory holds this sidecar, with this byte file beside it or none. */
  predicate Has(dir: Dir, st: Bytes, sidecar: Sidecar, body: Option<Body>) {
    && st in dir.sidecars && dir.sidecars[st] == sidecar
    && body == (if st in dir.bytes then Some(dir.bytes[st]) else None)
  }

  ghost predicate SetApart(aside: seq<(Bytes, Dir)>, bucket: Bytes, st: Bytes, sidecar: Sidecar, body: Option<Body>) {
    exists i :: 0 <= i < |aside| && aside[i].0 == bucket && Has(aside[i].1, st, sidecar, body)
  }

  ghost predicate StillHeld(plain: map<Bytes, Dir>, hidden: map<Bytes, Dir>, aside: seq<(Bytes, Dir)>, bucket: Bytes,
                            st: Bytes, sidecar: Sidecar, body: Option<Body>) {
    || (bucket in plain && Has(plain[bucket], st, sidecar, body))
    || (bucket in hidden && Has(hidden[bucket], st, sidecar, body))
    || SetApart(aside, bucket, st, sidecar, body)
  }

  /** No object that cannot be migrated is lost: its sidecar and its bytes are still together somewhere. */
  ghost predicate NoneLost(stem: StemOf, a: Root, b: Root) {
    forall bucket, st, sidecar, body ::
      IsUnreadable(stem, sidecar, st) && StillHeld(a.plain, a.hidden, a.aside, bucket, st, sidecar, body) ==>
        StillHeld(b.plain, b.hidden, b.aside, bucket, st, sidecar, body)
  }

  ghost predicate AllApart(stem: StemOf, r: Root, aside: seq<(Bytes, Dir)>) {
    forall bucket, st, sidecar, body ::
      IsUnreadable(stem, sidecar, st) && StillHeld(r.plain, r.hidden, r.aside, bucket, st, sidecar, body) ==>
        SetApart(aside, bucket, st, sidecar, body)
  }

  /** Every key keeps its value, no directory becomes more work, and nothing unreadable is lost. */
  ghost predicate Kept(stem: StemOf, a: Root, b: Root) {
    SameValues(stem, a, b) && Shrunk(a.plain, a.hidden, b.plain, b.hidden) && NoneLost(stem, a, b)
  }

  lemma KeptTrans(stem: StemOf, a: Root, b: Root, c: Root)
    requires Kept(stem, a, b) && Kept(stem, b, c)
    ensures Kept(stem, a, c)
  {
    hide Weight, StillHeld, IsUnreadable;
    forall n ensures Weight(c.plain, c.hidden, n) <= Weight(a.plain, a.hidden, n) {
      assert Weight(b.plain, b.hidden, n) <= Weight(a.plain, a.hidden, n);
    }
  }

  /** One hidden directory changes, and keeps whatever in it cannot be read. */
  lemma DirKeepsUnreadable(stem: StemOf, r: Root, bucket: Bytes, dir: Dir)
    requires bucket in r.hidden
    requires forall st, sidecar, body :: IsUnreadable(stem, sidecar, st) && Has(r.hidden[bucket], st, sidecar, body) ==>
               Has(dir, st, sidecar, body)
    ensures NoneLost(stem, r, r.(hidden := r.hidden[bucket := dir]))
  {
    hide SetApart, Has, IsUnreadable;
  }

  lemma KeptSelf(stem: StemOf, r: Root)
    ensures Kept(stem, r, r)
  {
    hide Weight, StillHeld, IsUnreadable;
  }

  lemma EnsureBucketKeeps(stem: StemOf, r: Root, ever: set<SegId>, bucket: Bytes, created: nat)
    requires Fine(r.db, ever, r.segs) && NoNul(bucket)
    ensures var db' := EnsureBucket(r.db, bucket, created).db;
            Fine(db', ever, r.segs) && bucket in db'.buckets && SameValues(stem, r, r.(db := db'))
  {
    var db' := EnsureBucket(r.db, bucket, created).db;
    if bucket !in r.db.buckets {
      SameSegmentsMove(r.db, ever, db');
      PutBucketKeeps(r.db, bucket, BucketRow(created, None));
      SameReferences(r.db, db', r.segs);
    }
    IndexKeeps(stem, r, db', r.segs);
  }

  lemma SameReferences(db: Db, db': Db, segs: map<SegId, Body>)
    requires OnDisk(db, segs) && db'.manifests == db.manifests && db'.parts == db.parts
    ensures OnDisk(db', segs)
  {
    forall slot, ref | RefAt(db', slot, ref) ensures RefAt(db, slot, ref) {}
  }

  lemma AddPendingKeeps(stem: StemOf, r: Root, ever: set<SegId>, ids: seq<SegId>, now: nat)
    requires Fine(r.db, ever, r.segs) && forall id :: id in ids ==> id !in ever
    ensures var db' := AddPending(r.db, ids, now).db;
            && Fine(db', ever + Elems(ids), r.segs) && SameValues(stem, r, r.(db := db'))
            && db'.buckets == r.db.buckets && (forall id :: id in ids ==> id in db'.pending)
  {
    var op := OpAddPending(ids, now);
    StepExclusive(r.db, ever, op);
    StepIntegrity(r.db, ever, op);
    var db' := AddPending(r.db, ids, now).db;
    assert Exec(r.db, op) == db';
    SameReferences(r.db, db', r.segs);
    IndexKeeps(stem, r, db', r.segs);
  }

  ghost predicate MintOk(mint: nat -> SegId, ever: set<SegId>, first: nat) {
    (forall i, j :: mint(i) == mint(j) ==> i == j) && (forall i: nat :: i >= first ==> mint(i) !in ever)
  }

  /** The index is sound and every id still to be minted is new. */
  ghost predicate IndexOk(mint: nat -> SegId, db: Db, segs: map<SegId, Body>, ever: set<SegId>, minted: nat) {
    Fine(db, ever, segs) && MintOk(mint, ever, minted)
  }

  ghost predicate NamesOk(plain: map<Bytes, Dir>, hidden: map<Bytes, Dir>) {
    forall b :: b in plain || b in hidden ==> NoNul(b)
  }

  /** Losing a byte file whose object the index serves, or that no sidecar describes. */
  lemma LoseBytes(stem: StemOf, r: Root, bucket: Bytes, st: Bytes)
    requires NamesOk(r.plain, r.hidden) && bucket in r.hidden
    requires st in r.hidden[bucket].sidecars ==> !IsUnreadable(stem, r.hidden[bucket].sidecars[st], st)
    requires Serves(stem, r.hidden[bucket], st) ==>
               IndexValue(r.db, r.segs, bucket, r.hidden[bucket].sidecars[st].meta.key) ==
                 Some(Served(r.hidden[bucket], st))
    ensures var dir := r.hidden[bucket];
            var r' := r.(hidden := r.hidden[bucket := dir.(bytes := dir.bytes - {st})]);
            && NamesOk(r'.plain, r'.hidden) && Kept(stem, r, r') && r'.hidden - {bucket} == r.hidden - {bucket}
            && (st in dir.bytes ==> |dir.bytes - {st}| + 1 == |dir.bytes|)
  {
    hide Weight, DirCost;
    var dir := r.hidden[bucket];
    DropBytesKeeps(stem, r, bucket, st);
    FewerBytes(dir, st);
    LighterDir(r.plain, r.hidden, bucket, dir.(bytes := dir.bytes - {st}));
    DirKeepsUnreadable(stem, r, bucket, dir.(bytes := dir.bytes - {st}));
    hide SameValues, NoneLost, Shrunk;
  }

  lemma LoseDir(stem: StemOf, r: Root, bucket: Bytes)
    requires NamesOk(r.plain, r.hidden) && bucket in r.hidden && r.hidden[bucket].sidecars == map[]
    ensures NamesOk(r.plain, r.hidden - {bucket}) && Kept(stem, r, r.(hidden := r.hidden - {bucket}))
  {
    hide Weight, DirCost, SetApart;
    DropDirKeeps(stem, r, bucket);
    DirGone(r.plain, r.hidden, bucket);
  }

  lemma PutAside(stem: StemOf, r: Root, bucket: Bytes)
    requires NamesOk(r.plain, r.hidden) && bucket in r.hidden && forall st :: !Serves(stem, r.hidden[bucket], st)
    ensures var r' := r.(hidden := r.hidden - {bucket}, aside := r.aside + [(bucket, r.hidden[bucket])]);
            NamesOk(r'.plain, r'.hidden) && Kept(stem, r, r')
  {
    hide Weight, DirCost;
    DropDirKeeps(stem, r, bucket);
    DirGone(r.plain, r.hidden, bucket);
    MovedAside(stem, r, bucket);
    hide NoneLost, Shrunk;
  }

  lemma MovedAside(stem: StemOf, r: Root, bucket: Bytes)
    requires bucket in r.hidden
    ensures NoneLost(stem, r, r.(hidden := r.hidden - {bucket}, aside := r.aside + [(bucket, r.hidden[bucket])]))
  {
    hide Has, IsUnreadable;
    var aside := r.aside + [(bucket, r.hidden[bucket])];
    forall b, st, sidecar, body | SetApart(r.aside, b, st, sidecar, body)
      ensures SetApart(aside, b, st, sidecar, body)
    {
      var i :| 0 <= i < |r.aside| && r.aside[i].0 == b && Has(r.aside[i].1, st, sidecar, body);
      assert aside[i] == r.aside[i];
    }
    forall st, sidecar, body | Has(r.hidden[bucket], st, sidecar, body)
      ensures SetApart(aside, bucket, st, sidecar, body)
    {
      assert aside[|r.aside|] == (bucket, r.hidden[bucket]);
    }
  }

  lemma HiddenAway(stem: StemOf, r: Root, bucket: Bytes)
    requires bucket in r.plain && bucket !in r.hidden
    ensures NoneLost(stem, r, r.(plain := r.plain - {bucket}, hidden := r.hidden[bucket := r.plain[bucket]]))
  {
    hide SetApart, Has, IsUnreadable;
  }

  class Migrator {
    const stem: StemOf
    const mint: nat -> SegId
    var plain: map<Bytes, Dir>
    var hidden: map<Bytes, Dir>
    var aside: seq<(Bytes, Dir)>
    var db: Db
    var segs: map<SegId, Body>
    var layout: nat
    var minted: nat
    var fuel: nat
    ghost var ever: set<SegId>

    ghost function Here(): Root
      reads this
    {
      Root(plain, hidden, aside, db, segs)
    }

    /** Steps left to perform, at most. */
    ghost function Left(): nat
      reads this`plain, this`hidden
    {
      Cost(plain, hidden)
    }

    /** One more step, unless this process has died. */
    method Tick() returns (alive: bool)
      modifies this`fuel
      ensures Spent(old(fuel), fuel, alive, 1) && (alive ==> fuel + 1 == old(fuel))
    {
      alive := fuel > 0;
      if alive { fuel := fuel - 1; }
    }

    /** Unlink the sidecar of an object whose bytes are gone. */
    method DropSidecar(bucket: Bytes, st: Bytes) returns (alive: bool)
      requires NamesOk(plain, hidden) && bucket in hidden && st !in hidden[bucket].bytes
      requires st in hidden[bucket].sidecars ==> !IsUnreadable(stem, hidden[bucket].sidecars[st], st)
      modifies this`hidden, this`fuel
      ensures NamesOk(plain, hidden) && Kept(stem, old(Here()), Here())
      ensures Spent(old(fuel), fuel, alive, 1) && (!alive ==> hidden == old(hidden))
      ensures bucket in hidden && hidden - {bucket} == old(hidden) - {bucket}
      ensures alive ==> hidden[bucket] == old(hidden)[bucket].(sidecars := old(hidden)[bucket].sidecars - {st})
    {
      alive := Tick();
      if !alive { return; }
      hide Weight, DirCost;
      DropSidecarKeeps(stem, Here(), bucket, st);
      var dir := hidden[bucket];
      FewerSidecars(dir, st);
      LighterDir(plain, hidden, bucket, dir.(sidecars := dir.sidecars - {st}));
      DirKeepsUnreadable(stem, Here(), bucket, dir.(sidecars := dir.sidecars - {st}));
      hidden := hidden[bucket := dir.(sidecars := dir.sidecars - {st})];
    }

    /** Read every sidecar: objects to move, sidecars without bytes removed, the rest counted. */
    method ReadDir(bucket: Bytes) returns (alive: bool, stems: seq<Bytes>, unreadable: nat)
      requires NamesOk(plain, hidden) && bucket in hidden
      modifies this`hidden, this`fuel
      ensures NamesOk(plain, hidden) && Kept(stem, old(Here()), Here())
      ensures bucket in hidden && hidden - {bucket} == old(hidden) - {bucket}
      ensures hidden[bucket].bytes == old(hidden)[bucket].bytes
      ensures |hidden[bucket].sidecars| <= |old(hidden)[bucket].sidecars|
      ensures Spent(old(fuel), fuel, alive, |old(hidden)[bucket].sidecars|)
      ensures alive ==> ReadAll(stem, hidden[bucket], stems, unreadable) && |stems| <= |hidden[bucket].sidecars|
    {
      hide Weight, DirCost, Serves, NamesOk;
      stems, unreadable, alive := [], 0, true;
      var names := Enumerate(hidden[bucket].sidecars.Keys);
      ReadStarts(stem, hidden[bucket], names);
      ListsAll(names, hidden[bucket].sidecars.Keys);
      ghost var start := Here();
      for j := 0 to |names|
        invariant NamesOk(plain, hidden) && Kept(stem, start, Here())
        invariant bucket in hidden && hidden - {bucket} == old(hidden) - {bucket}
        invariant hidden[bucket].bytes == old(hidden)[bucket].bytes
        invariant |hidden[bucket].sidecars| <= |old(hidden)[bucket].sidecars|
        invariant ReadSoFar(stem, hidden[bucket], names, j, stems, unreadable) && Spent(old(fuel), fuel, true, j)
      {
        var st, dir := names[j], hidden[bucket];
        if IsUnreadable(stem, dir.sidecars[st], st) {
          ReadSkips(stem, dir, names, j, stems, unreadable);
          unreadable := unreadable + 1;
        } else if st in dir.bytes {
          ReadFinds(stem, dir, names, j, stems, unreadable);
          stems := stems + [st];
        } else {
          ReadDrops(stem, dir, names, j, stems, unreadable);
          FewerSidecars(dir, st);
          ghost var before := Here();
          alive := DropSidecar(bucket, st);
          KeptTrans(stem, start, before, Here());
          if !alive { return; }
        }
      }
      ReadEnds(stem, hidden[bucket], names, stems, unreadable);
    }

    /** Mint an id for each object of a batch and record them pending, before any link exists. */
    method MintPending(n: nat, now: nat) returns (alive: bool, ids: seq<SegId>)
      requires IndexOk(mint, db, segs, ever, minted)
      modifies this`db, this`ever, this`minted, this`fuel
      ensures IndexOk(mint, db, segs, ever, minted) && Kept(stem, old(Here()), Here()) && db.buckets == old(db).buckets
      ensures Spent(old(fuel), fuel, alive, 1)
      ensures alive ==> |ids| == n && CanTake(db.pending, ids) && Unlinked(segs, ids, 0)
    {
      hide Fine;
      ids := Minted(mint, minted, n);
      alive := Tick();
      if !alive { return; }
      MintKeeps(stem, Here(), ever, mint, minted, n, now);
      db := AddPending(db, ids, now).db;
      ever := ever + Elems(ids);
      minted := minted + n;
    }

    /** Hard-link each object's bytes as its segment. */
    method LinkAll(bucket: Bytes, stems: seq<Bytes>, ids: seq<SegId>) returns (alive: bool)
      requires IndexOk(mint, db, segs, ever, minted) && bucket in hidden && |ids| == |stems| && CanTake(db.pending, ids)
      requires AllServe(stem, hidden[bucket], stems) && Unlinked(segs, ids, 0)
      modifies this`segs, this`fuel
      ensures IndexOk(mint, db, segs, ever, minted) && Kept(stem, old(Here()), Here())
      ensures Spent(old(fuel), fuel, alive, |ids|)
      ensures alive ==> Linked(hidden[bucket], segs, stems, ids, |ids|)
    {
      alive := true;
      ghost var start := Here();
      for i := 0 to |ids|
        invariant IndexOk(mint, db, segs, ever, minted) && Kept(stem, start, Here())
        invariant Linked(hidden[bucket], segs, stems, ids, i) && Unlinked(segs, ids, i)
        invariant Spent(old(fuel), fuel, true, i)
      {
        assert Serves(stem, hidden[bucket], stems[i]);
        assert ids[i] in ids;
        LinkedNext(hidden[bucket], segs, stems, ids, i);
        ghost var before := Here();
        alive := LinkOne(ids[i], hidden[bucket].bytes[stems[i]]);
        KeptTrans(stem, start, before, Here());
        if !alive { return; }
      }
    }

    method LinkOne(id: SegId, body: Body) returns (alive: bool)
      requires IndexOk(mint, db, segs, ever, minted) && id in db.pending && id !in segs
      modifies this`segs, this`fuel
      ensures IndexOk(mint, db, segs, ever, minted) && Kept(stem, old(Here()), Here())
      ensures Spent(old(fuel), fuel, alive, 1) && (!alive ==> segs == old(segs))
      ensures alive ==> segs == old(segs)[id := body]
    {
      alive := Tick();
      if !alive { return; }
      LinkKeeps(stem, Here(), id, body);
      assert id in ever;
      segs := segs[id := body];
    }

    /** Commit a batch's rows in one transaction. */
    method CommitBatch(bucket: Bytes, stems: seq<Bytes>, ids: seq<SegId>, now: nat) returns (alive: bool)
      requires IndexOk(mint, db, segs, ever, minted) && bucket in hidden && bucket in db.buckets
      requires CanTake(db.pending, ids)
      requires BatchOk(stem, hidden[bucket], segs, stems, ids)
      modifies this`db, this`fuel
      ensures IndexOk(mint, db, segs, ever, minted) && Kept(stem, old(Here()), Here()) && db.buckets == old(db).buckets
      ensures Spent(old(fuel), fuel, alive, 1)
      ensures alive ==> BatchIndexed(stem, hidden[bucket], db, segs, bucket, stems)
    {
      hide Fine;
      alive := Tick();
      if !alive { return; }
      CommitKeeps(stem, Here(), ever, bucket, stems, ids, now);
      db := CommitObjects(db, bucket, BatchRows(stem, hidden[bucket], stems, ids), now).db;
    }

    /** Unlink the bytes, then the sidecar, of each object whose row has committed. */
    method UnlinkAll(bucket: Bytes, stems: seq<Bytes>) returns (alive: bool)
      requires NamesOk(plain, hidden) && bucket in hidden && NoDup(stems)
      requires BatchIndexed(stem, hidden[bucket], db, segs, bucket, stems)
      modifies this`hidden, this`fuel
      ensures NamesOk(plain, hidden) && Kept(stem, old(Here()), Here())
      ensures bucket in hidden && hidden - {bucket} == old(hidden) - {bucket}
      ensures Spent(old(fuel), fuel, alive, 2 * |stems|)
      ensures alive ==> hidden[bucket] == Without(old(hidden)[bucket], stems)
    {
      alive := true;
      ghost var start, dir0 := Here(), hidden[bucket];
      WithoutNone(dir0);
      for i := 0 to |stems|
        invariant NamesOk(plain, hidden) && Kept(stem, start, Here())
        invariant bucket in hidden && hidden - {bucket} == old(hidden) - {bucket}
        invariant hidden[bucket] == Without(dir0, stems[..i]) && Spent(old(fuel), fuel, true, 2 * i)
      {
        ghost var before := Here();
        StillIndexed(stem, dir0, db, segs, bucket, stems, i);
        alive := DropBytes(bucket, stems[i]);
        KeptTrans(stem, start, before, Here());
        if !alive { return; }
        before := Here();
        alive := DropSidecar(bucket, stems[i]);
        KeptTrans(stem, start, before, Here());
        if !alive { return; }
        WithoutNext(dir0, stems, i);
      }
      assert stems[..|stems|] == stems;
    }

    method DropBytes(bucket: Bytes, st: Bytes) returns (alive: bool)
      requires NamesOk(plain, hidden) && bucket in hidden && Serves(stem, hidden[bucket], st)
      requires IndexValue(db, segs, bucket, hidden[bucket].sidecars[st].meta.key) == Some(Served(hidden[bucket], st))
      modifies this`hidden, this`fuel
      ensures NamesOk(plain, hidden) && Kept(stem, old(Here()), Here())
      ensures Spent(old(fuel), fuel, alive, 1) && (!alive ==> hidden == old(hidden))
      ensures bucket in hidden && hidden - {bucket} == old(hidden) - {bucket}
      ensures alive ==> hidden[bucket] == old(hidden)[bucket].(bytes := old(hidden)[bucket].bytes - {st})
    {
      alive := Tick();
      if !alive { return; }
      LoseBytes(stem, Here(), bucket, st);
      var dir := hidden[bucket];
      hidden := hidden[bucket := dir.(bytes := dir.bytes - {st})];
    }

    /** One batch: pending, link, commit, unlink. */
    method MoveBatch(bucket: Bytes, stems: seq<Bytes>, now: nat) returns (alive: bool)
      requires IndexOk(mint, db, segs, ever, minted) && NamesOk(plain, hidden) && bucket in hidden
      requires bucket in db.buckets
      requires NoDup(stems) && AllServe(stem, hidden[bucket], stems)
      modifies this`db, this`ever, this`minted, this`segs, this`hidden, this`fuel
      ensures IndexOk(mint, db, segs, ever, minted) && NamesOk(plain, hidden)
      ensures Kept(stem, old(Here()), Here()) && bucket in db.buckets
      ensures bucket in hidden && hidden - {bucket} == old(hidden) - {bucket}
      ensures Spent(old(fuel), fuel, alive, 2 + 3 * |stems|)
      ensures alive ==> hidden[bucket] == Without(old(hidden)[bucket], stems)
    {
      hide IndexOk, NamesOk, Kept;
      var ids;
      ghost var r0 := Here();
      alive, ids := MintPending(|stems|, now);
      if alive {
        ghost var r1 := Here();
        alive := LinkAll(bucket, stems, ids);
        KeptTrans(stem, r0, r1, Here());
      }
      if alive {
        ghost var r2 := Here();
        alive := CommitBatch(bucket, stems, ids, now);
        KeptTrans(stem, r0, r2, Here());
      }
      if alive {
        ghost var r3 := Here();
        alive := UnlinkAll(bucket, stems);
        KeptTrans(stem, r0, r3, Here());
      }
    }

    /** Every object of the directory, `BATCH` at a time. */
    method MoveAll(bucket: Bytes, stems: seq<Bytes>, now: nat) returns (alive: bool)
      requires IndexOk(mint, db, segs, ever, minted) && NamesOk(plain, hidden) && bucket in hidden
      requires bucket in db.buckets
      requires NoDup(stems) && AllServe(stem, hidden[bucket], stems)
      modifies this`db, this`ever, this`minted, this`segs, this`hidden, this`fuel
      ensures IndexOk(mint, db, segs, ever, minted) && NamesOk(plain, hidden)
      ensures Kept(stem, old(Here()), Here()) && bucket in db.buckets
      ensures bucket in hidden && hidden - {bucket} == old(hidden) - {bucket}
      ensures Spent(old(fuel), fuel, alive, 5 * |stems|)
      ensures alive ==> hidden[bucket] == Without(old(hidden)[bucket], stems)
    {
      hide IndexOk, NamesOk, Kept, Without;
      ghost var start, dir0 := Here(), hidden[bucket];
      WithoutNone(dir0);
      KeptSelf(stem, start);
      alive := true;
      var i := 0;
      while i < |stems|
        invariant 0 <= i <= |stems| && bucket in db.buckets
        invariant IndexOk(mint, db, segs, ever, minted) && NamesOk(plain, hidden) && Kept(stem, start, Here())
        invariant bucket in hidden && hidden - {bucket} == old(hidden) - {bucket}
        invariant hidden[bucket] == Without(dir0, stems[..i]) && Spent(old(fuel), fuel, true, 5 * i)
      {
        var j := Min(i + BATCH, |stems|);
        ghost var before := Here();
        BatchServes(stem, dir0, stems, i, j);
        alive := MoveBatch(bucket, stems[i..j], now);
        KeptTrans(stem, start, before, Here());
        if !alive { return; }
        i := j;
      }
      assert stems[..|stems|] == stems;
    }

    /** `remove_dir_all` on what is left: files go one by one, in any order, then the directory. */
    method RemoveDir(bucket: Bytes) returns (alive: bool)
      requires NamesOk(plain, hidden) && bucket in hidden && hidden[bucket].sidecars == map[]
      modifies this`hidden, this`fuel
      ensures NamesOk(plain, hidden) && Kept(stem, old(Here()), Here())
      ensures hidden - {bucket} == old(hidden) - {bucket}
      ensures Spent(old(fuel), fuel, alive, |old(hidden)[bucket].bytes| + 1)
      ensures alive ==> bucket !in hidden
    {
      hide NamesOk, Kept;
      ghost var start := Here();
      KeptSelf(stem, start);
      while hidden[bucket].bytes != map[]
        invariant NamesOk(plain, hidden) && Kept(stem, start, Here())
        invariant bucket in hidden && hidden[bucket].sidecars == map[]
        invariant hidden - {bucket} == old(hidden) - {bucket}
        invariant |hidden[bucket].bytes| <= |old(hidden)[bucket].bytes|
        invariant Spent(old(fuel), fuel, true, |old(hidden)[bucket].bytes| - |hidden[bucket].bytes|)
        decreases |hidden[bucket].bytes|
      {
        var st :| st in hidden[bucket].bytes;
        alive := Tick();
        if !alive { return; }
        ghost var before := Here();
        LoseBytes(stem, before, bucket, st);
        var dir := hidden[bucket];
        hidden := hidden[bucket := dir.(bytes := dir.bytes - {st})];
        KeptTrans(stem, start, before, Here());
      }
      alive := Tick();
      if !alive { return; }
      ghost var before := Here();
      LoseDir(stem, before, bucket);
      hidden := hidden - {bucket};
      KeptTrans(stem, start, before, Here());
    }

    /** Something could not be read: the whole directory is kept, out of the way. */
    method SetAside(bucket: Bytes) returns (alive: bool)
      requires NamesOk(plain, hidden) && bucket in hidden && forall st :: !Serves(stem, hidden[bucket], st)
      modifies this`hidden, this`aside, this`fuel
      ensures NamesOk(plain, hidden) && Kept(stem, old(Here()), Here())
      ensures hidden - {bucket} == old(hidden) - {bucket}
      ensures Spent(old(fuel), fuel, alive, 1)
      ensures alive ==> bucket !in hidden && aside == old(aside) + [(bucket, old(hidden)[bucket])]
    {
      alive := Tick();
      if !alive { return; }
      PutAside(stem, Here(), bucket);
      aside := aside + [(bucket, hidden[bucket])];
      hidden := hidden - {bucket};
    }

    method RowForBucket(bucket: Bytes, created: nat) returns (alive: bool)
      requires IndexOk(mint, db, segs, ever, minted) && NoNul(bucket)
      modifies this`db, this`fuel
      ensures IndexOk(mint, db, segs, ever, minted) && Kept(stem, old(Here()), Here())
      ensures Spent(old(fuel), fuel, alive, 1)
      ensures alive ==> bucket in db.buckets
    {
      alive := Tick();
      if !alive { return; }
      EnsureBucketKeeps(stem, Here(), ever, bucket, created);
      db := EnsureBucket(db, bucket, created).db;
    }

    /** A directory that serves nothing any more goes, unless something in it could not be read. */
    method EndDir(bucket: Bytes, unreadable: nat) returns (alive: bool)
      requires NamesOk(plain, hidden) && bucket in hidden && forall st :: !Serves(stem, hidden[bucket], st)
      requires unreadable == 0 ==> hidden[bucket].sidecars == map[]
      modifies this`hidden, this`aside, this`fuel
      ensures NamesOk(plain, hidden) && Kept(stem, old(Here()), Here())
      ensures hidden - {bucket} == old(hidden) - {bucket}
      ensures Spent(old(fuel), fuel, alive, |old(hidden)[bucket].bytes| + 1)
      ensures alive ==> bucket !in hidden
    {
      if unreadable == 0 {
        alive := RemoveDir(bucket);
      } else {
        alive := SetAside(bucket);
      }
    }

    /** A directory that has been read: its objects move, then it goes. */
    method MoveOut(bucket: Bytes, stems: seq<Bytes>, unreadable: nat, now: nat) returns (alive: bool)
      requires IndexOk(mint, db, segs, ever, minted) && NamesOk(plain, hidden) && bucket in hidden
      requires bucket in db.buckets
      requires ReadAll(stem, hidden[bucket], stems, unreadable)
      modifies this`db, this`ever, this`minted, this`segs, this`hidden, this`aside, this`fuel
      ensures IndexOk(mint, db, segs, ever, minted) && NamesOk(plain, hidden) && Kept(stem, old(Here()), Here())
      ensures hidden - {bucket} == old(hidden) - {bucket}
      ensures Spent(old(fuel), fuel, alive, 5 * |stems| + |old(hidden)[bucket].bytes| + 1)
      ensures alive ==> bucket !in hidden
    {
      hide IndexOk, NamesOk, Kept, Without, Serves, NoDup, AllServe, ReadAll;
      ghost var r0 := Here();
      NothingServed(stem, hidden[bucket], stems, unreadable);
      alive := MoveAll(bucket, stems, now);
      if !alive { return; }
      ghost var r1 := Here();
      alive := EndDir(bucket, unreadable);
      KeptTrans(stem, r0, r1, Here());
    }

    /** The bucket's row, then what its directory holds. */
    method Prepare(bucket: Bytes, now: nat) returns (alive: bool, stems: seq<Bytes>, unreadable: nat)
      requires IndexOk(mint, db, segs, ever, minted) && NamesOk(plain, hidden) && bucket in hidden
      modifies this`db, this`hidden, this`fuel
      ensures IndexOk(mint, db, segs, ever, minted) && NamesOk(plain, hidden) && Kept(stem, old(Here()), Here())
      ensures bucket in hidden && hidden - {bucket} == old(hidden) - {bucket}
      ensures hidden[bucket].bytes == old(hidden)[bucket].bytes
      ensures Spent(old(fuel), fuel, alive, 1 + |old(hidden)[bucket].sidecars|)
      ensures alive ==> bucket in db.buckets && ReadAll(stem, hidden[bucket], stems, unreadable)
      ensures alive ==> |stems| <= |old(hidden)[bucket].sidecars|
    {
      assert NoNul(bucket);
      hide IndexOk, NamesOk, Kept, ReadAll;
      ghost var r0 := Here();
      stems, unreadable := [], 0;
      alive := RowForBucket(bucket, now);
      if !alive { return; }
      ghost var r1 := Here();
      alive, stems, unreadable := ReadDir(bucket);
      KeptTrans(stem, r0, r1, Here());
    }

    /** Migrate one hidden bucket directory. */
    method MigrateBucket(bucket: Bytes, now: nat) returns (alive: bool)
      requires IndexOk(mint, db, segs, ever, minted) && NamesOk(plain, hidden) && bucket in hidden
      modifies this`db, this`ever, this`minted, this`segs, this`hidden, this`aside, this`fuel
      ensures IndexOk(mint, db, segs, ever, minted) && NamesOk(plain, hidden) && Kept(stem, old(Here()), Here())
      ensures hidden - {bucket} == old(hidden) - {bucket}
      ensures Spent(old(fuel), fuel, alive, DirCost(old(hidden)[bucket]))
      ensures alive ==> bucket !in hidden
    {
      hide IndexOk, NamesOk, Kept, ReadAll;
      ghost var r0 := Here();
      var stems, unreadable;
      alive, stems, unreadable := Prepare(bucket, now);
      if !alive { return; }
      ghost var r1 := Here();
      alive := MoveOut(bucket, stems, unreadable, now);
      KeptTrans(stem, r0, r1, Here());
    }

    /** Rename a plain directory out of an older binary's sight. */
    method Hide(bucket: Bytes) returns (alive: bool)
      requires NamesOk(plain, hidden) && bucket in plain && bucket !in hidden
      modifies this`plain, this`hidden, this`fuel
      ensures NamesOk(plain, hidden) && Kept(stem, old(Here()), Here())
      ensures Spent(old(fuel), fuel, alive, 1)
      ensures alive ==> plain == old(plain) - {bucket} && hidden == old(hidden)[bucket := old(plain)[bucket]]
      ensures !alive ==> plain == old(plain) && hidden == old(hidden)
    {
      alive := Tick();
      if !alive { return; }
      hide Weight, DirCost;
      HideKeeps(stem, Here(), bucket);
      HiddenAway(stem, Here(), bucket);
      DirHidden(plain, hidden, bucket);
      hidden := hidden[bucket := plain[bucket]];
      plain := plain - {bucket};
    }

    /** Nothing is left to migrate, and the store says so. */
    predicate Done()
      reads this`plain, this`hidden, this`layout
    {
      plain == map[] && hidden == map[] && layout == LAYOUT_V2
    }

    /** Finish every hidden directory. */
    method FinishHidden(now: nat) returns (alive: bool)
      requires IndexOk(mint, db, segs, ever, minted) && NamesOk(plain, hidden)
      modifies this`db, this`ever, this`minted, this`segs, this`hidden, this`aside, this`fuel
      ensures IndexOk(mint, db, segs, ever, minted) && NamesOk(plain, hidden) && Kept(stem, old(Here()), Here())
      ensures Paid(old(fuel), fuel, alive, old(Left()), Left())
      ensures alive ==> hidden == map[]
    {
      hide IndexOk, NamesOk, Weight, Cost;
      ghost var start := Here();
      alive := true;
      var todo := Enumerate(hidden.Keys);
      for i := 0 to |todo|
        invariant IndexOk(mint, db, segs, ever, minted) && NamesOk(plain, hidden) && Kept(stem, start, Here())
        invariant Ascends(todo) && forall b :: b in hidden <==> b in todo[i..]
        invariant Paid(old(fuel), fuel, true, old(Left()), Left())
      {
        assert todo[i] in todo[i..];
        ghost var before, held := Here(), fuel;
        alive := MigrateBucket(todo[i], now);
        BucketPaid(stem, before, Here(), todo[i], old(fuel), held, fuel, alive, old(Left()));
        KeptTrans(stem, start, before, Here());
        if !alive { return; }
        NextTodo(todo, i, before.hidden, hidden);
      }
      assert todo[|todo|..] == [];
      assert hidden == map[];
    }

    method MigrateOne(bucket: Bytes, now: nat) returns (alive: bool)
      requires IndexOk(mint, db, segs, ever, minted) && NamesOk(plain, hidden) && hidden == map[] && bucket in plain
      modifies this`db, this`ever, this`minted, this`segs, this`plain, this`hidden, this`aside, this`fuel
      ensures IndexOk(mint, db, segs, ever, minted) && NamesOk(plain, hidden) && Kept(stem, old(Here()), Here())
      ensures Paid(old(fuel), fuel, alive, old(Left()), Left())
      ensures alive ==> bucket !in plain && plain - {bucket} == old(plain) - {bucket} && hidden == map[]
    {
      hide IndexOk, NamesOk, Kept, Weight, Cost;
      ghost var r0 := Here();
      alive := Hide(bucket);
      HidePaid(r0, bucket, old(fuel), fuel, alive);
      if !alive { return; }
      ghost var r1, held := Here(), fuel;
      alive := MigrateBucket(bucket, now);
      BucketPaid(stem, r1, Here(), bucket, old(fuel), held, fuel, alive, old(Left()));
      KeptTrans(stem, r0, r1, Here());
      if !alive { return; }
      JustOne(r1.hidden, hidden, bucket);
    }

    /** Hide and migrate every plain directory. */
    method MigratePlain(now: nat) returns (alive: bool)
      requires IndexOk(mint, db, segs, ever, minted) && NamesOk(plain, hidden) && hidden == map[]
      modifies this`db, this`ever, this`minted, this`segs, this`plain, this`hidden, this`aside, this`fuel
      ensures IndexOk(mint, db, segs, ever, minted) && NamesOk(plain, hidden) && Kept(stem, old(Here()), Here())
      ensures Paid(old(fuel), fuel, alive, old(Left()), Left())
      ensures alive ==> plain == map[] && hidden == map[]
    {
      hide IndexOk, NamesOk, Weight, Cost;
      ghost var start := Here();
      alive := true;
      var todo := Enumerate(plain.Keys);
      for i := 0 to |todo|
        invariant IndexOk(mint, db, segs, ever, minted) && NamesOk(plain, hidden) && Kept(stem, start, Here())
        invariant hidden == map[]
        invariant Ascends(todo) && forall b :: b in plain <==> b in todo[i..]
        invariant Paid(old(fuel), fuel, true, old(Left()), Left())
      {
        assert todo[i] in todo[i..];
        ghost var before := Here();
        alive := MigrateOne(todo[i], now);
        KeptTrans(stem, start, before, Here());
        if !alive { return; }
        NextTodo(todo, i, before.plain, plain);
      }
      assert todo[|todo|..] == [];
      assert plain == map[];
    }

    /** `migrate`: what an interrupted run hid first, then the plain directories, then the stamp. A process
        with as much life as there are steps left finishes. */
    method Migrate(now: nat) returns (alive: bool)
      requires IndexOk(mint, db, segs, ever, minted) && NamesOk(plain, hidden)
      modifies this`db, this`ever, this`minted, this`segs, this`plain, this`hidden, this`aside, this`layout, this`fuel
      ensures IndexOk(mint, db, segs, ever, minted) && NamesOk(plain, hidden) && Kept(stem, old(Here()), Here())
      ensures old(fuel) >= old(Left()) ==> alive
      ensures alive ==> Done()
      ensures !alive ==> layout == old(layout)
    {
      hide IndexOk, NamesOk, Kept, Weight;
      ghost var r0 := Here();
      alive := FinishHidden(now);
      if alive {
        ghost var r1 := Here();
        alive := MigratePlain(now);
        KeptTrans(stem, r0, r1, Here());
      }
      if alive { alive := Tick(); }
      if alive { layout := LAYOUT_V2; }
    }

    /** Process after process opens the store and runs the migration; process `i` lives for `lives[i]`
        steps. Whatever cannot be read is never lost. Once one of them has lived as long as there were steps
        to begin with, or has been told it finished, the index alone serves every key's value, and what
        cannot be read is set aside. */
    method Restarts(lives: seq<nat>, now: nat) returns (finished: bool)
      requires IndexOk(mint, db, segs, ever, minted) && NamesOk(plain, hidden)
      modifies this
      ensures IndexOk(mint, db, segs, ever, minted) && NamesOk(plain, hidden) && Kept(stem, old(Here()), Here())
      ensures (exists i :: 0 <= i < |lives| && lives[i] >= old(Left())) || finished ==> Done()
      ensures Done() ==> forall bucket, key :: NoNul(bucket) ==>
                IndexValue(db, segs, bucket, key) == Effective(stem, old(Here()), bucket, key)
      ensures Done() ==> AllApart(stem, old(Here()), aside)
    {
      hide IndexOk, NamesOk, Weight, Cost;
      ghost var start := Here();
      finished := false;
      for i := 0 to |lives|
        invariant IndexOk(mint, db, segs, ever, minted) && NamesOk(plain, hidden) && Kept(stem, start, Here())
        invariant (exists m :: 0 <= m < i && lives[m] >= old(Left())) || finished ==> Done()
      {
        CostShrinks(start.plain, start.hidden, plain, hidden);
        fuel := lives[i];
        ghost var before := Here();
        finished := Migrate(now);
        KeptTrans(stem, start, before, Here());
        KeysShrink(before.plain, before.hidden, plain, hidden);
      }
      if Done() { OnlyTheIndex(stem, start, Here()); }
    }
  }

  lemma HidePaid(r: Root, bucket: Bytes, f0: nat, f: nat, alive: bool)
    requires bucket in r.plain && bucket !in r.hidden && Spent(f0, f, alive, 1)
    ensures var c := Cost(r.plain, r.hidden);
            Paid(f0, f, alive, c, if alive then Cost(r.plain - {bucket}, r.hidden[bucket := r.plain[bucket]]) else c)
  {
    hide Weight;
    DirHidden(r.plain, r.hidden, bucket);
    CostDrops(r.plain, r.hidden, r.plain - {bucket}, r.hidden[bucket := r.plain[bucket]], bucket, 1);
  }

  lemma BucketPaid(stem: StemOf, r: Root, r': Root, bucket: Bytes, f0: nat, f1: nat, f2: nat, alive: bool, cost: nat)
    requires bucket in r.hidden && r'.plain == r.plain && Kept(stem, r, r') && (alive ==> bucket !in r'.hidden)
    requires Paid(f0, f1, true, cost, Cost(r.plain, r.hidden)) && Spent(f1, f2, alive, DirCost(r.hidden[bucket]))
    ensures Paid(f0, f2, alive, cost, Cost(r'.plain, r'.hidden))
  {
    hide Cost, DirCost;
    WeightIsPart(r.plain, r.hidden, bucket);
    if alive { CostDrops(r.plain, r.hidden, r'.plain, r'.hidden, bucket, DirCost(r.hidden[bucket])); }
  }

  lemma WithoutIsLess(dir: Dir, stems: seq<Bytes>)
    ensures |Without(dir, stems).bytes| <= |dir.bytes|
  {
    SubsetSize(Without(dir, stems).bytes.Keys, dir.bytes.Keys);
  }

  lemma ListsAll(names: seq<Bytes>, s: set<Bytes>)
    requires Lists(names, s)
    ensures |names| == |s|
    decreases |names|
  {
    if names == [] {
      assert s == {};
    } else {
      var n := |names| - 1;
      NamesAreNew(names, n);
      forall x ensures x in names[..n] <==> x in s - {names[n]} {
        assert names == names[..n] + [names[n]];
      }
      ListsAll(names[..n], s - {names[n]});
    }
  }

  /** With no directory left, a key's value is what the index serves. */
  lemma OnlyTheIndex(stem: StemOf, start: Root, r: Root)
    requires SameValues(stem, start, r) && r.plain == map[] && r.hidden == map[]
    ensures forall bucket, key :: NoNul(bucket) ==>
              IndexValue(r.db, r.segs, bucket, key) == Effective(stem, start, bucket, key)
  {
    forall bucket, key | NoNul(bucket)
      ensures IndexValue(r.db, r.segs, bucket, key) == Effective(stem, start, bucket, key)
    {
      assert Effective(stem, r, bucket, key) == IndexValue(r.db, r.segs, bucket, key);
    }
  }

  lemma NothingServed(stem: StemOf, dir: Dir, stems: seq<Bytes>, unreadable: nat)
    requires ReadAll(stem, dir, stems, unreadable)
    ensures NoDup(stems) && AllServe(stem, dir, stems) && |stems| <= |dir.sidecars|
    ensures forall st :: !Serves(stem, Without(dir, stems), st)
    ensures unreadable == 0 ==> Without(dir, stems).sidecars == map[]
    ensures |Without(dir, stems).bytes| <= |dir.bytes|
  {
    WithoutIsLess(dir, stems);
    forall st ensures !Serves(stem, Without(dir, stems), st) {
      if Serves(stem, Without(dir, stems), st) { assert Serves(stem, dir, st); }
    }
    if unreadable == 0 {
      forall st | st in stems ensures st in dir.sidecars {
        var i :| 0 <= i < |stems| && stems[i] == st;
        assert Serves(stem, dir, stems[i]);
      }
      AllListed(dir.sidecars.Keys, stems);
    }
  }

  lemma {:induction false} AllListed(s: set<Bytes>, stems: seq<Bytes>)
    requires NoDup(stems) && |s| == |stems| && forall st :: st in stems ==> st in s
    ensures forall st :: st in s ==> st in stems
    decreases |stems|
  {
    if stems != [] {
      var n := |stems| - 1;
      assert stems[n] in stems && stems == stems[..n] + [stems[n]];
      AllListed(s - {stems[n]}, stems[..n]);
    }
  }

  lemma NextTodo(todo: seq<Bytes>, i: nat, before: map<Bytes, Dir>, after: map<Bytes, Dir>)
    requires i < |todo| && Ascends(todo) && (forall b :: b in before <==> b in todo[i..])
    requires after - {todo[i]} == before - {todo[i]} && todo[i] !in after
    ensures forall b :: b in after <==> b in todo[i + 1..]
  {
    Irreflexive(todo[i]);
    assert todo[i..] == [todo[i]] + todo[i + 1..];
    forall b ensures b in after <==> b in todo[i + 1..] {
      assert b != todo[i] ==> (b in after <==> b in after - {todo[i]});
      assert b != todo[i] ==> (b in before <==> b in before - {todo[i]});
    }
  }

  lemma JustOne(before: map<Bytes, Dir>, after: map<Bytes, Dir>, bucket: Bytes)
    requires before.Keys == {bucket} && after - {bucket} == before - {bucket} && bucket !in after
    ensures after == map[]
  {
    forall b ensures b !in after {
      assert b != bucket ==> (b in after <==> b in after - {bucket});
      assert b != bucket ==> (b in before <==> b in before - {bucket});
    }
  }

  lemma BatchServes(stem: StemOf, dir: Dir, stems: seq<Bytes>, i: nat, j: nat)
    requires i <= j <= |stems| && NoDup(stems) && AllServe(stem, dir, stems)
    ensures var w := Without(dir, stems[..i]);
            && NoDup(stems[i..j]) && AllServe(stem, w, stems[i..j])
            && Without(w, stems[i..j]) == Without(dir, stems[..j])
  {
    var w := Without(dir, stems[..i]);
    forall m | 0 <= m < j - i ensures Serves(stem, w, stems[i..j][m]) {
      assert Serves(stem, dir, stems[i + m]) && stems[i + m] !in stems[..i];
    }
    assert stems[..j] == stems[..i] + stems[i..j];
    assert Elems(stems[..j]) == Elems(stems[..i]) + Elems(stems[i..j]);
  }

  ghost predicate Linked(dir: Dir, segs: map<SegId, Body>, stems: seq<Bytes>, ids: seq<SegId>, n: nat) {
    n <= |ids| == |stems| &&
    forall i :: 0 <= i < n ==> stems[i] in dir.bytes && ids[i] in segs && segs[ids[i]] == dir.bytes[stems[i]]
  }

  ghost predicate Unlinked(segs: map<SegId, Body>, ids: seq<SegId>, n: nat) {
    forall i :: n <= i < |ids| ==> ids[i] !in segs
  }

  lemma LinkedNext(dir: Dir, segs: map<SegId, Body>, stems: seq<Bytes>, ids: seq<SegId>, i: nat)
    requires i < |ids| && NoDup(ids) && i < |stems| && Linked(dir, segs, stems, ids, i) && Unlinked(segs, ids, i)
    requires stems[i] in dir.bytes
    ensures var segs' := segs[ids[i] := dir.bytes[stems[i]]];
            Linked(dir, segs', stems, ids, i + 1) && Unlinked(segs', ids, i + 1)
  {}

  function Minted(mint: nat -> SegId, first: nat, n: nat): (ids: seq<SegId>)
    ensures |ids| == n && forall i :: 0 <= i < n ==> ids[i] == mint(first + i)
  {
    seq(n, i requires 0 <= i => mint(first + i))
  }

  lemma MintedAreNew(mint: nat -> SegId, ever: set<SegId>, first: nat, n: nat)
    requires MintOk(mint, ever, first)
    ensures var ids := Minted(mint, first, n);
            NoDup(ids) && (forall id :: id in ids ==> id !in ever) && MintOk(mint, ever + Elems(ids), first + n)
  {}

  lemma MintKeeps(stem: StemOf, r: Root, ever: set<SegId>, mint: nat -> SegId, first: nat, n: nat, now: nat)
    requires Fine(r.db, ever, r.segs) && MintOk(mint, ever, first)
    ensures var ids := Minted(mint, first, n); var db' := AddPending(r.db, ids, now).db;
            && Fine(db', ever + Elems(ids), r.segs) && SameValues(stem, r, r.(db := db')) && db'.buckets == r.db.buckets
            && MintOk(mint, ever + Elems(ids), first + n) && CanTake(db'.pending, ids) && Unlinked(r.segs, ids, 0)
  {
    MintedAreNew(mint, ever, first, n);
    AddPendingKeeps(stem, r, ever, Minted(mint, first, n), now);
  }

  /** A directory with some objects' two files gone. */
  ghost function Without(dir: Dir, stems: seq<Bytes>): Dir {
    Dir(dir.bytes - Elems(stems), dir.sidecars - Elems(stems))
  }

  lemma WithoutNone(dir: Dir)
    ensures Without(dir, []) == dir
  {
    assert dir.bytes - Elems([]) == dir.bytes && dir.sidecars - Elems([]) == dir.sidecars;
  }

  lemma WithoutNext(dir: Dir, stems: seq<Bytes>, i: nat)
    requires i < |stems|
    ensures var w := Without(dir, stems[..i]);
            Without(dir, stems[..i + 1]) == Dir(w.bytes - {stems[i]}, w.sidecars - {stems[i]})
  {
    assert stems[..i + 1] == stems[..i] + [stems[i]];
    assert Elems(stems[..i + 1]) == Elems(stems[..i]) + {stems[i]};
  }

  lemma StillIndexed(stem: StemOf, dir: Dir, db: Db, segs: map<SegId, Body>, bucket: Bytes, stems: seq<Bytes>, i: nat)
    requires i < |stems| && NoDup(stems) && BatchIndexed(stem, dir, db, segs, bucket, stems)
    ensures var w := Without(dir, stems[..i]);
            && Serves(stem, w, stems[i]) && w.sidecars[stems[i]] == dir.sidecars[stems[i]]
            && IndexValue(db, segs, bucket, w.sidecars[stems[i]].meta.key) == Some(Served(w, stems[i]))
  {
    assert stems[i] !in stems[..i];
    assert Serves(stem, dir, stems[i]);
  }

  /** Every object the directory serves is listed once, every other sidecar left is unreadable, and
      `unreadable` is their number. */
  ghost predicate ReadAll(stem: StemOf, dir: Dir, stems: seq<Bytes>, unreadable: nat) {
    && NoDup(stems) && AllServe(stem, dir, stems)
    && (forall st :: Serves(stem, dir, st) ==> st in stems)
    && (forall st :: st in dir.sidecars && st !in stems ==> IsUnreadable(stem, dir.sidecars[st], st))
    && |dir.sidecars| == |stems| + unreadable
  }

  ghost function LeftOf(dir: Dir, names: seq<Bytes>): set<Bytes> {
    set st | st in names && st in dir.sidecars
  }

  lemma ReadEnds(stem: StemOf, dir: Dir, names: seq<Bytes>, stems: seq<Bytes>, unreadable: nat)
    requires ReadSoFar(stem, dir, names, |names|, stems, unreadable)
    ensures ReadAll(stem, dir, stems, unreadable)
  {
    assert names[..|names|] == names;
    assert LeftOf(dir, names) == dir.sidecars.Keys;
  }

  /** The first `j` sidecars have been read: every object served among them is listed, the rest of those
      still there are unreadable and counted. */
  ghost predicate ReadSoFar(stem: StemOf, dir: Dir, names: seq<Bytes>, j: nat, stems: seq<Bytes>, unreadable: nat) {
    && j <= |names| && Ascends(names)
    && (forall st :: st in dir.sidecars ==> st in names)
    && (forall m :: j <= m < |names| ==> names[m] in dir.sidecars)
    && (forall st :: st in stems ==> st in names[..j])
    && NoDup(stems) && AllServe(stem, dir, stems)
    && (forall st :: st in names[..j] && Serves(stem, dir, st) ==> st in stems)
    && (forall st :: st in names[..j] && st in dir.sidecars && st !in stems ==>
         IsUnreadable(stem, dir.sidecars[st], st))
    && |LeftOf(dir, names[..j])| == |stems| + unreadable
  }

  lemma ReadStarts(stem: StemOf, dir: Dir, names: seq<Bytes>)
    requires names == Ascending(dir.sidecars.Keys)
    ensures ReadSoFar(stem, dir, names, 0, [], 0)
  {
    assert forall i :: 0 <= i < |names| ==> names[i] in names;
    assert LeftOf(dir, names[..0]) == {};
  }

  lemma ReadSkips(stem: StemOf, dir: Dir, names: seq<Bytes>, j: nat, stems: seq<Bytes>, unreadable: nat)
    requires j < |names| && ReadSoFar(stem, dir, names, j, stems, unreadable)
    requires names[j] in dir.sidecars && IsUnreadable(stem, dir.sidecars[names[j]], names[j])
    ensures ReadSoFar(stem, dir, names, j + 1, stems, unreadable + 1)
  {
    assert names[..j + 1] == names[..j] + [names[j]];
    NamesAreNew(names, j);
    OneMoreLeft(dir, names, j);
  }

  lemma OneMoreLeft(dir: Dir, names: seq<Bytes>, j: nat)
    requires j < |names| && names[j] in dir.sidecars && names[j] !in names[..j]
    ensures |LeftOf(dir, names[..j + 1])| == |LeftOf(dir, names[..j])| + 1
  {
    assert names[..j + 1] == names[..j] + [names[j]];
    assert LeftOf(dir, names[..j + 1]) == LeftOf(dir, names[..j]) + {names[j]};
  }

  lemma ReadFinds(stem: StemOf, dir: Dir, names: seq<Bytes>, j: nat, stems: seq<Bytes>, unreadable: nat)
    requires j < |names| && ReadSoFar(stem, dir, names, j, stems, unreadable) && Serves(stem, dir, names[j])
    ensures ReadSoFar(stem, dir, names, j + 1, stems + [names[j]], unreadable)
  {
    assert names[..j + 1] == names[..j] + [names[j]];
    NamesAreNew(names, j);
    assert names[j] !in stems;
    OneMoreLeft(dir, names, j);
  }

  lemma ReadDrops(stem: StemOf, dir: Dir, names: seq<Bytes>, j: nat, stems: seq<Bytes>, unreadable: nat)
    requires j < |names| && ReadSoFar(stem, dir, names, j, stems, unreadable) && names[j] !in dir.bytes
    ensures ReadSoFar(stem, dir.(sidecars := dir.sidecars - {names[j]}), names, j + 1, stems, unreadable)
  {
    var dir' := dir.(sidecars := dir.sidecars - {names[j]});
    assert names[..j + 1] == names[..j] + [names[j]];
    NamesAreNew(names, j);
    StillServe(stem, dir, dir', stems);
    forall st | Serves(stem, dir', st) ensures Serves(stem, dir, st) {}
    assert LeftOf(dir', names[..j + 1]) == LeftOf(dir, names[..j]);
  }

  lemma NamesAreNew(names: seq<Bytes>, j: nat)
    requires Ascends(names) && j < |names|
    ensures names[j] !in names[..j]
    ensures forall m :: j < m < |names| ==> names[m] != names[j]
  {
    Irreflexive(names[j]);
  }

  lemma StillServe(stem: StemOf, dir: Dir, dir': Dir, stems: seq<Bytes>)
    requires AllServe(stem, dir, stems)
    requires dir'.bytes == dir.bytes
    requires forall st :: st in dir.sidecars && st in dir.bytes ==>
               st in dir'.sidecars && dir'.sidecars[st] == dir.sidecars[st]
    ensures AllServe(stem, dir', stems)
  {
    forall i | 0 <= i < |stems| ensures Serves(stem, dir', stems[i]) {
      assert Serves(stem, dir, stems[i]);
    }
  }
}
