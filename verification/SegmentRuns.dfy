/** The index protocol over the files of the byte store, one call or transaction at a time, with the process
    killed or the power lost between any two. */
module DurableRuns {
  import opened Common
  import opened Bytes
  import opened Tables
  import opened Lifecycle
  import opened IndexRuns
  import opened Protocol
  import opened ProtocolRuns
  import F = SegmentFiles

  datatype World = World(store: Store, files: F.Disk)

  datatype Move = Turn(event: Event) | Call(act: F.Act)

  const DAWN := World(START, F.BLANK)

  /** A writer's bytes reach the index after its `commit` returned `Ok`, a discard comes after the writer is
      gone, an id is created once, and a reclaim task deletes what it cleared. Links, deletes and crashes
      are file calls here. */
  ghost predicate Allowed(fan: F.FanOf, w: World, m: Move) {
    match m
    case Turn(e) =>
      && Enabled(w.store, e) && !e.LinkBytes? && !e.DeleteBytes? && !e.Crash?
      && (e.PutRow? || e.PartRowOf? ==> e.id in w.files.acked && e.id !in w.files.writers)
      && (e.Discard? ==> e.id !in w.files.writers)
    case Call(a) =>
      && F.Enabled(fan, w.files, a)
      && (a.Create? ==> a.id in w.store.writers && w.store.writers[a.id].None? && a.id !in w.files.made)
      && (a.Remove? ==> a.id in w.store.cleared)
  }

  /** The store's part of a file call: what the call makes readable or not, and what dies with the process. */
  ghost function Effect(fan: F.FanOf, w: World, a: F.Act): Store
    requires F.Enabled(fan, w.files, a)
  {
    var seen := F.Visible(F.Next(fan, w.files, a));
    match a
    case Link(id) => w.store.(disk := seen, writers := w.store.writers[id := Some(w.files.writers[id].given)])
    case Remove(id) =>
      w.store.(disk := seen, cleared := w.store.cleared - {id}, gone := w.store.gone + {id})
    case Restart => Crashed(w.store).(disk := seen)
    case PowerLoss(_) => Crashed(w.store).(disk := seen)
    case _ => w.store.(disk := seen)
  }

  ghost function After(fan: F.FanOf, w: World, m: Move): World
    requires Allowed(fan, w, m)
  {
    match m
    case Turn(e) => World(Step(w.store, e), w.files)
    case Call(a) => World(Effect(fan, w, a), F.Next(fan, w.files, a))
  }

  // ---- what every move keeps ---------------------------------------------------------------

  /** A running file writer belongs to a running request, which has no bytes in place before the link. */
  ghost predicate Coupled(store: Store, files: F.Disk) {
    forall id :: id in files.writers ==>
      id in store.writers && (F.Open(files.writers[id]) ==> store.writers[id].None?)
  }

  /** What a request still waiting to commit has linked is still there. */
  ghost predicate LinksStay(pending: map<SegId, nat>, files: F.Disk) {
    forall id :: id in files.writers && !F.Open(files.writers[id]) && id in pending ==> id in files.names
  }

  /** Neither a row's segment nor one a row may yet name can be taken by a power loss. */
  ghost predicate Firmly(fan: F.FanOf, db: Db, files: F.Disk) {
    forall id :: Referenced(db, id) || (id in files.acked && id in db.pending) ==> F.Firm(fan, files, id)
  }

  ghost predicate History(store: Store, files: F.Disk) {
    && files.made <= store.ever && files.acked <= files.made
    && files.tmp.Keys <= files.made && files.writers.Keys <= files.made
  }

  ghost predicate Lasting(fan: F.FanOf, w: World) {
    && Safe(w.store) && F.Intact(w.files) && w.store.disk == F.Visible(w.files)
    && Coupled(w.store, w.files) && LinksStay(w.store.db.pending, w.files)
    && Firmly(fan, w.store.db, w.files) && History(w.store, w.files)
  }

  /** A `commit` returns `Ok` with its fan directory's own entry on stable storage. */
  predicate Settled(fan: F.FanOf, w: World, m: Move) {
    m.Call? && m.act.FlushFan? ==> fan(m.act.id) in w.files.safe
  }

  // ---- a turn of the index protocol ----

  lemma QuietTurn(fan: F.FanOf, w: World, e: Event)
    requires Lasting(fan, w) && Allowed(fan, w, Turn(e)) && OpOf(w.store, e).None?
    ensures Lasting(fan, After(fan, w, Turn(e)))
  {
    hide Safe, F.Intact, F.Visible, F.Firm;
    StepSafe(w.store, e);
  }

  /** A row names nothing new, unless the turn commits a writer's segment. */
  lemma NewReference(s: Store, e: Event, id: SegId)
    requires Safe(s) && Enabled(s, e) && OpOf(s, e).Some? && Referenced(Step(s, e).db, id)
    ensures Referenced(s.db, id) || ((e.PutRow? || e.PartRowOf?) && id == e.id && id in s.db.pending)
  {
    var op := OpOf(s, e).value;
    OpIsLegal(s, e);
    StepExclusive(s.db, s.ever, op);
    if e.PutRow? || e.PartRowOf? {
      CommitTakesItsOwn(s, e);
    } else {
      Carried(s.db, op);
      CarriedReference(s.db, Exec(s.db, op), id);
    }
  }

  lemma CarriedReference(db: Db, db': Db, id: SegId)
    requires Carries(db, db') && Referenced(db', id)
    ensures Referenced(db, id)
  {
    var slot :| HoldsAt(db', slot, id);
    var ref := if slot.InManifest? then db'.manifests[slot.k][slot.i] else RefOf(db'.parts[slot.k]);
    assert RefAt(db', slot, ref);
    var t :| RefAt(db, t, ref);
    assert HoldsAt(db, t, id);
  }

  lemma TurnFirmly(fan: F.FanOf, w: World, e: Event)
    requires Lasting(fan, w) && Allowed(fan, w, Turn(e)) && OpOf(w.store, e).Some?
    ensures Firmly(fan, Step(w.store, e).db, w.files) && LinksStay(Step(w.store, e).db.pending, w.files)
  {
    var s, op := w.store, OpOf(w.store, e).value;
    var db' := Step(s, e).db;
    OpIsLegal(s, e);
    StepExclusive(s.db, s.ever, op);
    hide F.Firm, F.Intact, F.Visible, Exclusive;
    forall id | Referenced(db', id) || (id in w.files.acked && id in db'.pending) ensures F.Firm(fan, w.files, id) {
      if Referenced(db', id) { NewReference(s, e, id); }
    }
  }

  lemma TurnWriters(s: Store, e: Event)
    requires Enabled(s, e) && OpOf(s, e).Some?
    ensures s.ever <= Step(s, e).ever
    ensures var own := if e.PutRow? || e.PartRowOf? || e.Discard? then {e.id} else {};
            forall id :: id in s.writers && id in s.ever && id !in own ==>
              id in Step(s, e).writers && Step(s, e).writers[id] == s.writers[id]
  {
    hide Exec, ToReclaim;
  }

  lemma BusyTurn(fan: F.FanOf, w: World, e: Event)
    requires Lasting(fan, w) && Allowed(fan, w, Turn(e)) && OpOf(w.store, e).Some?
    ensures Lasting(fan, After(fan, w, Turn(e)))
  {
    hide Safe, F.Intact, F.Visible, Firmly, LinksStay, Step, OpOf, Rest, Enabled;
    StepSafe(w.store, e);
    TurnFirmly(fan, w, e);
    TurnWriters(w.store, e);
    OpTouches(w.store, e);
  }

  // ---- a file call ----

  /** A commit's link is the protocol's `LinkBytes`, with the bytes the writer was given. */
  lemma LinkIsAStep(fan: F.FanOf, w: World, id: SegId)
    requires Lasting(fan, w) && Allowed(fan, w, Call(F.Link(id)))
    ensures var e := LinkBytes(id, w.files.writers[id].given);
            Enabled(w.store, e) && Effect(fan, w, F.Link(id)) == Step(w.store, e)
  {
    F.VisibleSteps(fan, w.files, F.Link(id));
    hide Safe, F.Intact, Firmly, LinksStay, F.Next;
  }

  /** A delete's unlink is the protocol's `DeleteBytes`. */
  lemma RemoveIsAStep(fan: F.FanOf, w: World, id: SegId)
    requires Lasting(fan, w) && Allowed(fan, w, Call(F.Remove(id)))
    ensures Enabled(w.store, DeleteBytes(id)) && Effect(fan, w, F.Remove(id)) == Step(w.store, DeleteBytes(id))
  {
    F.VisibleSteps(fan, w.files, F.Remove(id));
    hide Safe, F.Intact, Firmly, LinksStay, F.Next;
  }

  /** No other call shows in the protocol, but for the end of the process. */
  lemma OtherIsNoStep(fan: F.FanOf, w: World, a: F.Act)
    requires Lasting(fan, w) && Allowed(fan, w, Call(a)) && !a.PowerLoss? && !a.Link? && !a.Remove?
    ensures Effect(fan, w, a) == if a.Restart? then Step(w.store, Crash) else w.store
  {
    F.VisibleSteps(fan, w.files, a);
    hide Safe, F.Intact, F.Visible, Firmly, LinksStay, F.Next;
  }

  lemma CallSafe(fan: F.FanOf, w: World, a: F.Act)
    requires Lasting(fan, w) && Allowed(fan, w, Call(a)) && !a.PowerLoss?
    ensures Safe(Effect(fan, w, a)) && F.Intact(F.Next(fan, w.files, a))
  {
    F.StepIntact(fan, w.files, a);
    hide Lasting, Safe, F.Intact, Step, Effect, F.Next;
    match a
    case Link(id) =>
      LinkIsAStep(fan, w, id);
      StepSafe(w.store, LinkBytes(id, w.files.writers[id].given));
    case Remove(id) =>
      RemoveIsAStep(fan, w, id);
      StepSafe(w.store, DeleteBytes(id));
    case _ =>
      OtherIsNoStep(fan, w, a);
      StepSafe(w.store, Crash);
  }

  /** No call but a delete of `id` makes it less firm. */
  lemma FirmNext(fan: F.FanOf, d: F.Disk, a: F.Act, id: SegId)
    requires F.Intact(d) && F.Enabled(fan, d, a) && F.Firm(fan, d, id) && a != F.Remove(id) && !a.PowerLoss?
    ensures F.Firm(fan, F.Next(fan, d, a), id)
  {
    hide F.Standing, F.Holding, F.Distinct, F.Apart;
  }

  lemma CallFirmly(fan: F.FanOf, w: World, a: F.Act)
    requires Lasting(fan, w) && Allowed(fan, w, Call(a)) && Settled(fan, w, Call(a)) && !a.PowerLoss?
    ensures Firmly(fan, w.store.db, F.Next(fan, w.files, a))
  {
    var d, d', db := w.files, F.Next(fan, w.files, a), w.store.db;
    forall id | Referenced(db, id) || (id in d'.acked && id in db.pending) ensures F.Firm(fan, d', id) {
      if a.FlushFan? && id == a.id && !Referenced(db, id) && id !in d.acked {
        assert id in d.names;
      } else {
        if a == F.Remove(id) { ClearedIsDead(w.store, id); }
        FirmNext(fan, d, a, id);
      }
    }
  }

  lemma ClearedIsDead(s: Store, id: SegId)
    requires Safe(s) && id in s.cleared
    ensures id !in s.db.pending && !Referenced(s.db, id)
  {
    assert id in s.held + s.cleared + s.gone;
  }

  /** Where a running writer was before the call, and that only its own link closes it. */
  lemma WriterBefore(fan: F.FanOf, d: F.Disk, a: F.Act, id: SegId)
    requires F.Enabled(fan, d, a) && id in F.Next(fan, d, a).writers && !(a.Create? && id == a.id)
    ensures id in d.writers && !a.Restart?
    ensures var w, w' := d.writers[id], F.Next(fan, d, a).writers[id];
            if a == F.Link(id) then !F.Open(w') && id in F.Next(fan, d, a).names else F.Open(w') == F.Open(w)
  {}

  lemma CallCoupled(fan: F.FanOf, w: World, a: F.Act)
    requires Lasting(fan, w) && Allowed(fan, w, Call(a)) && !a.PowerLoss?
    ensures Coupled(Effect(fan, w, a), F.Next(fan, w.files, a))
  {
    hide Safe, F.Intact, F.Visible, Firmly, LinksStay, History, F.Next, F.Enabled;
    var d' := F.Next(fan, w.files, a);
    forall id | id in d'.writers
      ensures id in Effect(fan, w, a).writers && (F.Open(d'.writers[id]) ==> Effect(fan, w, a).writers[id].None?)
    {
      if a.Create? && id == a.id {
      } else {
        WriterBefore(fan, w.files, a, id);
      }
    }
  }

  lemma CallLinksStay(fan: F.FanOf, w: World, a: F.Act)
    requires Lasting(fan, w) && Allowed(fan, w, Call(a)) && !a.PowerLoss?
    ensures LinksStay(w.store.db.pending, F.Next(fan, w.files, a))
  {
    if a.Remove? { ClearedIsDead(w.store, a.id); }
    hide Safe, F.Intact, F.Visible, Firmly, History, Coupled, F.Enabled;
    var d' := F.Next(fan, w.files, a);
    forall id | id in d'.writers && !F.Open(d'.writers[id]) && id in w.store.db.pending ensures id in d'.names {
      if !(a.Create? && id == a.id) {
        WriterBefore(fan, w.files, a, id);
        assert a != F.Link(id) ==> id in w.files.names;
      }
    }
  }

  lemma FilesHistory(fan: F.FanOf, d: F.Disk, a: F.Act)
    requires F.Enabled(fan, d, a) && d.acked <= d.made && d.tmp.Keys <= d.made && d.writers.Keys <= d.made
    ensures var d' := F.Next(fan, d, a);
            && d'.made == (if a.Create? then d.made + {a.id} else d.made)
            && d'.acked <= d'.made && d'.tmp.Keys <= d'.made && d'.writers.Keys <= d'.made
  {
    hide F.Settle, F.Held, F.Lost;
    if a.FlushFan? || a.FlushDir? { SettleKeeps(fan, d, if a.FlushFan? then fan(a.id) else a.dir); }
    if a.PowerLoss? { LostKeeps(fan, d, a.loss); }
  }

  lemma SettleKeeps(fan: F.FanOf, d: F.Disk, dir: byte)
    ensures var d' := F.Settle(fan, d, dir);
            d'.made == d.made && d'.acked == d.acked && d'.tmp == d.tmp && d'.writers == d.writers
  {}

  lemma LostKeeps(fan: F.FanOf, d: F.Disk, loss: F.Loss)
    ensures var d' := F.Lost(fan, d, loss);
            d'.made == d.made && d'.acked == d.acked && d'.tmp == map[] && d'.writers == map[]
  {}

  lemma CallHistory(fan: F.FanOf, w: World, a: F.Act)
    requires Lasting(fan, w) && Allowed(fan, w, Call(a)) && !a.PowerLoss?
    ensures History(w.store, F.Next(fan, w.files, a))
  {
    assert a.Create? ==> a.id in w.store.ever;
    hide Safe, F.Intact, F.Visible, F.Next, F.Enabled, Firmly, LinksStay, Coupled;
    FilesHistory(fan, w.files, a);
  }

  lemma CallLasting(fan: F.FanOf, w: World, a: F.Act)
    requires Lasting(fan, w) && Allowed(fan, w, Call(a)) && Settled(fan, w, Call(a)) && !a.PowerLoss?
    ensures Lasting(fan, After(fan, w, Call(a)))
  {
    CallSafe(fan, w, a);
    CallFirmly(fan, w, a);
    CallCoupled(fan, w, a);
    CallLinksStay(fan, w, a);
    CallHistory(fan, w, a);
    hide Safe, F.Intact, F.Visible, Firmly, LinksStay, Coupled, History, F.Next, F.Enabled;
  }

  // ---- the power is lost ----

  /** Whatever else is lost, every row's segment comes back with all its bytes. */
  lemma PowerLossLasting(fan: F.FanOf, w: World, loss: F.Loss)
    requires Lasting(fan, w) && Allowed(fan, w, Call(F.PowerLoss(loss)))
    ensures Lasting(fan, After(fan, w, Call(F.PowerLoss(loss))))
  {
    var d' := F.Lost(fan, w.files, loss);
    F.LostIntact(fan, w.files, loss);
    LossFirmly(fan, w, loss);
    LossSafe(fan, w, loss);
    hide Safe, F.Intact, F.Visible, Firmly, OnDisk;
  }

  lemma LossFirmly(fan: F.FanOf, w: World, loss: F.Loss)
    requires Lasting(fan, w) && loss.fans !! w.files.safe
    ensures Firmly(fan, w.store.db, F.Lost(fan, w.files, loss))
  {
    LostKeeps(fan, w.files, loss);
    hide Safe, F.Intact, F.Visible, F.Lost, F.Firm, Coupled, LinksStay, History;
    var d' := F.Lost(fan, w.files, loss);
    forall id | Referenced(w.store.db, id) || (id in d'.acked && id in w.store.db.pending) ensures F.Firm(fan, d', id) {
      F.FirmStays(fan, w.files, loss, id);
    }
  }

  lemma LossSafe(fan: F.FanOf, w: World, loss: F.Loss)
    requires Lasting(fan, w) && loss.fans !! w.files.safe
    ensures Safe(Crashed(w.store).(disk := F.Visible(F.Lost(fan, w.files, loss))))
  {
    hide F.Intact, F.Lost, OnDisk, Sound, SizesAgree, Coupled, LinksStay, History;
    var seen := F.Visible(F.Lost(fan, w.files, loss));
    forall id | Referenced(w.store.db, id) ensures id in w.store.disk && id in seen && seen[id] == w.store.disk[id] {
      F.FirmStays(fan, w.files, loss, id);
    }
    LossOnDisk(w.store.db, w.store.disk, seen);
    CrashedSafe(w.store, seen);
  }

  lemma CrashedSafe(s: Store, disk: map<SegId, Body>)
    requires Safe(s) && OnDisk(s.db, disk)
    ensures Safe(Crashed(s).(disk := disk))
  {
    hide OnDisk, Sound, SizesAgree;
  }

  lemma LossOnDisk(db: Db, disk: map<SegId, Body>, disk': map<SegId, Body>)
    requires OnDisk(db, disk)
    requires forall id :: Referenced(db, id) ==> id in disk && id in disk' && disk'[id] == disk[id]
    ensures OnDisk(db, disk')
  {
    forall slot, ref | RefAt(db, slot, ref) ensures ref.id in disk' && |disk'[ref.id]| == ref.size {
      assert HoldsAt(db, slot, ref.id);
      assert Referenced(db, ref.id);
    }
  }

  // ---- every run ----------------------------------------------------------------------------

  lemma MoveLasting(fan: F.FanOf, w: World, m: Move)
    requires Lasting(fan, w) && Allowed(fan, w, m) && Settled(fan, w, m)
    ensures Lasting(fan, After(fan, w, m))
  {
    hide Lasting;
    if m.Turn? {
      if OpOf(w.store, m.event).None? { QuietTurn(fan, w, m.event); } else { BusyTurn(fan, w, m.event); }
    } else if m.act.PowerLoss? {
      PowerLossLasting(fan, w, m.act.loss);
    } else {
      CallLasting(fan, w, m.act);
    }
  }

  ghost predicate Goes(fan: F.FanOf, w: World, moves: seq<Move>)
    decreases |moves|
  {
    moves == [] || (Allowed(fan, w, moves[0]) && Goes(fan, After(fan, w, moves[0]), moves[1..]))
  }

  ghost function Dusk(fan: F.FanOf, w: World, moves: seq<Move>): World
    requires Goes(fan, w, moves)
    decreases |moves|
  {
    if moves == [] then w else Dusk(fan, After(fan, w, moves[0]), moves[1..])
  }

  ghost predicate AllSettled(fan: F.FanOf, w: World, moves: seq<Move>)
    requires Goes(fan, w, moves)
    decreases |moves|
  {
    moves == [] || (Settled(fan, w, moves[0]) && AllSettled(fan, After(fan, w, moves[0]), moves[1..]))
  }

  lemma {:induction false} EveryMove(fan: F.FanOf, w: World, moves: seq<Move>)
    requires Lasting(fan, w) && Goes(fan, w, moves) && AllSettled(fan, w, moves)
    ensures Lasting(fan, Dusk(fan, w, moves))
    decreases |moves|
  {
    hide Lasting, Allowed, After, Settled;
    if moves != [] {
      MoveLasting(fan, w, moves[0]);
      EveryMove(fan, After(fan, w, moves[0]), moves[1..]);
    }
  }

  lemma DawnLasts(fan: F.FanOf)
    ensures Lasting(fan, DAWN)
  {
    StartIsSafe();
    forall id ensures !Referenced(EMPTY, id) {
      forall slot ensures !HoldsAt(EMPTY, slot, id) {}
    }
  }

  /** However the calls and transactions of every party interleave, and wherever the process dies or the
      power is lost, every object is readable from its files, whole. */
  lemma ObjectsOutliveThePower(fan: F.FanOf, moves: seq<Move>, k: Bytes)
    requires Goes(fan, DAWN, moves) && AllSettled(fan, DAWN, moves)
    requires k in Dusk(fan, DAWN, moves).store.db.objects
    ensures var w := Dusk(fan, DAWN, moves);
            && k in w.store.db.manifests && Readable(F.Visible(w.files), w.store.db.manifests[k])
            && |Content(F.Visible(w.files), w.store.db.manifests[k])| == w.store.db.objects[k].size
  {
    DawnLasts(fan);
    EveryMove(fan, DAWN, moves);
    var w := Dusk(fan, DAWN, moves);
    ManifestReadable(w.store, k);
    ContentSize(w.store.disk, w.store.db.manifests[k]);
  }

  // ---- exactly when --------------------------------------------------------------------------

  /** Every power loss leaves what the index references on disk exactly when each such segment is firm. */
  lemma LastsExactly(fan: F.FanOf, db: Db, d: F.Disk)
    requires F.Intact(d) && OnDisk(db, F.Visible(d))
    ensures (forall loss: F.Loss :: loss.fans !! d.safe ==> OnDisk(db, F.Visible(F.Lost(fan, d, loss)))) <==>
            (forall id :: Referenced(db, id) ==> F.Firm(fan, d, id))
  {
    hide F.Intact, F.Lost, F.Firm, OnDisk;
    forall id | Referenced(db, id) ensures id in d.names { ReferencedIsThere(db, F.Visible(d), id); }
    if forall id :: Referenced(db, id) ==> F.Firm(fan, d, id) {
      forall loss: F.Loss | loss.fans !! d.safe ensures OnDisk(db, F.Visible(F.Lost(fan, d, loss))) {
        forall id | Referenced(db, id)
          ensures id in F.Visible(F.Lost(fan, d, loss)) && F.Visible(F.Lost(fan, d, loss))[id] == F.Visible(d)[id]
        {
          FirmVisible(fan, d, loss, id);
        }
        LossOnDisk(db, F.Visible(d), F.Visible(F.Lost(fan, d, loss)));
      }
    } else {
      var id :| Referenced(db, id) && !F.Firm(fan, d, id);
      F.SurvivesExactly(fan, d, id);
      var loss: F.Loss :| loss.fans !! d.safe && id !in F.Lost(fan, d, loss).names;
      if OnDisk(db, F.Visible(F.Lost(fan, d, loss))) {
        ReferencedIsThere(db, F.Visible(F.Lost(fan, d, loss)), id);
      }
    }
  }

  lemma FirmVisible(fan: F.FanOf, d: F.Disk, loss: F.Loss, id: SegId)
    requires F.Intact(d) && loss.fans !! d.safe && F.Firm(fan, d, id)
    ensures id in F.Visible(F.Lost(fan, d, loss)) && F.Visible(F.Lost(fan, d, loss))[id] == F.Visible(d)[id]
  {
    hide F.Intact, F.Lost;
    F.FirmStays(fan, d, loss, id);
  }

  lemma ReferencedIsThere(db: Db, disk: map<SegId, Body>, id: SegId)
    requires OnDisk(db, disk) && Referenced(db, id)
    ensures id in disk
  {
    var slot :| HoldsAt(db, slot, id);
    var ref := if slot.InManifest? then db.manifests[slot.k][slot.i] else RefOf(db.parts[slot.k]);
    assert RefAt(db, slot, ref);
  }

  /** A `commit` that finds its fan directory finds one that has been flushed. */
  ghost predicate FindsFlushed(fan: F.FanOf, w: World, moves: seq<Move>)
    requires Goes(fan, w, moves)
    decreases |moves|
  {
    moves != [] ==>
      && (moves[0].Call? && moves[0].act.FindFan? ==> fan(moves[0].act.id) in w.files.safe)
      && FindsFlushed(fan, After(fan, w, moves[0]), moves[1..])
  }

  lemma {:induction false} FindingFlushedSettles(fan: F.FanOf, w: World, moves: seq<Move>)
    requires Goes(fan, w, moves) && FindsFlushed(fan, w, moves)
    requires F.FansOk(fan, w.files) && w.files.safe <= w.files.fans
    ensures AllSettled(fan, w, moves)
    decreases |moves|
  {
    if moves != [] {
      if moves[0].Call? {
        F.FansStep(fan, w.files, moves[0].act);
        SafeAreThere(fan, w.files, moves[0].act);
      }
      hide Step, Effect, F.Next;
      FindingFlushedSettles(fan, After(fan, w, moves[0]), moves[1..]);
    }
  }

  lemma SafeAreThere(fan: F.FanOf, d: F.Disk, a: F.Act)
    requires F.Enabled(fan, d, a) && d.safe <= d.fans
    ensures F.Next(fan, d, a).safe <= F.Next(fan, d, a).fans
  {}
}
