/** Which files the index loses track of, when a power loss may bring a deleted one back. */
module DurableLeaks {
  import opened Common
  import opened Bytes
  import opened Tables
  import opened Lifecycle
  import opened IndexRuns
  import opened Protocol
  import opened ProtocolRuns
  import opened DurableRuns
  import F = SegmentFiles

  /** There is a file under `id`, or a power loss can make one. */
  predicate MayBeThere(files: F.Disk, id: SegId) {
    id in files.names || id in files.undone
  }

  /** Whatever file there is or can come to be, the index knows of it. */
  ghost predicate AllTracked(w: World) {
    forall id :: MayBeThere(w.files, id) ==> Tracked(w.store.db, id)
  }

  /** A link of an id the index has already forgotten, or a forget of one whose file may still be there. */
  ghost predicate Leaks(w: World, m: Move) {
    match m
    case Call(a) => a.Link? && !Tracked(w.store.db, a.id)
    case Turn(e) => e.ForgetGone? && exists id :: id in e.ids && id in w.store.db.garbage && MayBeThere(w.files, id)
  }

  lemma TurnTracks(w: World, e: Event)
    requires Exclusive(w.store.db, w.store.ever) && Enabled(w.store, e) && AllTracked(w) && !e.ForgetGone?
    ensures Exclusive(Step(w.store, e).db, Step(w.store, e).ever)
    ensures AllTracked(World(Step(w.store, e), w.files))
  {
    var s := w.store;
    if OpOf(s, e).Some? {
      OpIsLegal(s, e);
      StepExclusive(s.db, s.ever, OpOf(s, e).value);
    }
    hide Exclusive, Tracked, MayBeThere, Exec;
  }

  lemma ForgetTracks(w: World, ids: seq<SegId>)
    requires Exclusive(w.store.db, w.store.ever) && Enabled(w.store, ForgetGone(ids)) && AllTracked(w)
    ensures Exclusive(Step(w.store, ForgetGone(ids)).db, Step(w.store, ForgetGone(ids)).ever)
    ensures AllTracked(World(Step(w.store, ForgetGone(ids)), w.files)) <==> !Leaks(w, Turn(ForgetGone(ids)))
  {
    var s, t := w.store, Step(w.store, ForgetGone(ids));
    OpIsLegal(s, ForgetGone(ids));
    StepExclusive(s.db, s.ever, OpForget(ids));
    SameSlots(s.db, t.db);
    SameSlots(t.db, s.db);
    forall id ensures Tracked(t.db, id) <==> Tracked(s.db, id) && !(id in ids && id in s.db.garbage) {
      assert t.db.garbage == s.db.garbage - Elems(ids) && t.db.pending == s.db.pending;
    }
    hide Exclusive, Tracked, MayBeThere, Step;
  }

  lemma FilesStay(fan: F.FanOf, d: F.Disk, a: F.Act, id: SegId)
    requires F.Enabled(fan, d, a)
    ensures MayBeThere(F.Next(fan, d, a), id) ==> MayBeThere(d, id) || a == F.Link(id)
    ensures a == F.Link(id) ==> MayBeThere(F.Next(fan, d, a), id)
    ensures a.Link? && MayBeThere(d, id) ==> MayBeThere(F.Next(fan, d, a), id)
  {
    hide F.Held;
  }

  lemma CallTracks(fan: F.FanOf, w: World, a: F.Act)
    requires Exclusive(w.store.db, w.store.ever) && Allowed(fan, w, Call(a)) && AllTracked(w)
    ensures var w' := After(fan, w, Call(a)); w'.store.db == w.store.db && w'.store.ever == w.store.ever
    ensures AllTracked(After(fan, w, Call(a))) <==> !Leaks(w, Call(a))
  {
    hide Exclusive, Tracked, MayBeThere, F.Next, F.Enabled;
    forall id
      ensures MayBeThere(F.Next(fan, w.files, a), id) ==> MayBeThere(w.files, id) || a == F.Link(id)
      ensures a == F.Link(id) ==> MayBeThere(F.Next(fan, w.files, a), id)
    {
      FilesStay(fan, w.files, a, id);
    }
  }

  /** Exactly two moves lose track of a file: a link of an id already forgotten, and a forget of an id whose
      file is there, or was unlinked and not flushed away. */
  lemma MoveLeaksExactly(fan: F.FanOf, w: World, m: Move)
    requires Exclusive(w.store.db, w.store.ever) && Allowed(fan, w, m) && AllTracked(w)
    ensures var w' := After(fan, w, m); Exclusive(w'.store.db, w'.store.ever)
    ensures AllTracked(After(fan, w, m)) <==> !Leaks(w, m)
  {
    hide Exclusive, AllTracked;
    match m
    case Call(a) => CallTracks(fan, w, a);
    case Turn(e) => if e.ForgetGone? { ForgetTracks(w, e.ids); } else { TurnTracks(w, e); }
  }

  // ---- every run -----------------------------------------------------------------------------

  ghost predicate AlwaysTracked(fan: F.FanOf, w: World, moves: seq<Move>)
    requires Goes(fan, w, moves)
    decreases |moves|
  {
    AllTracked(w) && (moves != [] ==> AlwaysTracked(fan, After(fan, w, moves[0]), moves[1..]))
  }

  ghost predicate NeverLeaks(fan: F.FanOf, w: World, moves: seq<Move>)
    requires Goes(fan, w, moves)
    decreases |moves|
  {
    moves == [] || (!Leaks(w, moves[0]) && NeverLeaks(fan, After(fan, w, moves[0]), moves[1..]))
  }

  /** In every run, kills and power losses included, the index knows of every file there is or can come to be if
      and only if no move is one of the two. */
  lemma {:induction false} TrackedExactly(fan: F.FanOf, w: World, moves: seq<Move>)
    requires Exclusive(w.store.db, w.store.ever) && AllTracked(w) && Goes(fan, w, moves)
    ensures AlwaysTracked(fan, w, moves) <==> NeverLeaks(fan, w, moves)
    decreases |moves|
  {
    hide Exclusive, AllTracked, Leaks, Allowed, After;
    if moves != [] {
      MoveLeaksExactly(fan, w, moves[0]);
      if !Leaks(w, moves[0]) { TrackedExactly(fan, After(fan, w, moves[0]), moves[1..]); }
    }
  }

  // ---- a discipline that suffices --------------------------------------------------------------

  /** The sweeper claims no id whose writer still streams, and a forget comes after its delete's flush. */
  ghost predicate Careful(w: World, m: Move) {
    m.Turn? ==> Timely(w.store, m.event) &&
                (m.event.ForgetGone? ==> forall id :: id in m.event.ids ==> id !in w.files.undone)
  }

  ghost predicate AllCareful(fan: F.FanOf, w: World, moves: seq<Move>)
    requires Goes(fan, w, moves)
    decreases |moves|
  {
    moves == [] || (Careful(w, moves[0]) && AllCareful(fan, After(fan, w, moves[0]), moves[1..]))
  }

  lemma CarefulLeaksNot(fan: F.FanOf, w: World, m: Move)
    requires Lasting(fan, w) && Punctual(w.store) && Allowed(fan, w, m) && Careful(w, m)
    ensures !Leaks(w, m)
  {
    hide Safe, F.Intact, Firmly, LinksStay, History;
    if m.Call? && m.act.Link? {
      LinkIsAStep(fan, w, m.act.id);
    } else if m.Turn? && m.event.ForgetGone? {
      forall id | id in m.event.ids ensures !MayBeThere(w.files, id) {
        assert id in Elems(m.event.ids);
        assert id !in F.Visible(w.files);
      }
    }
  }

  lemma PunctualCall(fan: F.FanOf, w: World, a: F.Act)
    requires Lasting(fan, w) && Punctual(w.store) && Allowed(fan, w, Call(a))
    ensures Punctual(Effect(fan, w, a))
  {
    assert Safe(w.store);
    if a.PowerLoss? {
      hide Lasting, Safe, Allowed, F.Visible, F.Next;
    } else {
      hide Lasting, Safe, Step, Effect, Punctual, Allowed;
      match a
      case Link(id) =>
        LinkIsAStep(fan, w, id);
        PunctualStep(w.store, LinkBytes(id, w.files.writers[id].given));
      case Remove(id) =>
        RemoveIsAStep(fan, w, id);
        PunctualStep(w.store, DeleteBytes(id));
      case _ =>
        OtherIsNoStep(fan, w, a);
        PunctualStep(w.store, Crash);
    }
  }

  lemma PunctualMove(fan: F.FanOf, w: World, m: Move)
    requires Lasting(fan, w) && Punctual(w.store) && Allowed(fan, w, m) && Careful(w, m)
    ensures Punctual(After(fan, w, m).store)
  {
    assert Safe(w.store);
    hide Lasting, Safe, Step, Punctual, Effect;
    match m
    case Turn(e) => PunctualStep(w.store, e);
    case Call(a) => PunctualCall(fan, w, a);
  }

  /** No power loss brings back a file the index has forgotten, if writers are punctual and deletes are flushed
      before they are forgotten. */
  lemma {:induction false} NothingComesBack(fan: F.FanOf, w: World, moves: seq<Move>)
    requires Lasting(fan, w) && Punctual(w.store) && AllTracked(w)
    requires Goes(fan, w, moves) && AllSettled(fan, w, moves) && AllCareful(fan, w, moves)
    ensures AlwaysTracked(fan, w, moves)
    decreases |moves|
  {
    if moves != [] {
      var m := moves[0];
      assert Exclusive(w.store.db, w.store.ever);
      hide Lasting, Punctual, AllTracked, Leaks, Allowed, After, Settled, Careful, Exclusive;
      MoveLasting(fan, w, m);
      PunctualMove(fan, w, m);
      CarefulLeaksNot(fan, w, m);
      MoveLeaksExactly(fan, w, m);
      NothingComesBack(fan, After(fan, w, m), moves[1..]);
    }
  }

  // ---- a file comes back ---------------------------------------------------------------------

  ghost predicate Leads(fan: F.FanOf, w: World, w': World, moves: seq<Move>) {
    Goes(fan, w, moves) && Dusk(fan, w, moves) == w'
  }

  lemma {:induction false} LeadsOn(fan: F.FanOf, w: World, w': World, moves: seq<Move>, m: Move)
    requires Leads(fan, w, w', moves) && Allowed(fan, w', m)
    ensures Leads(fan, w, After(fan, w', m), moves + [m])
    decreases |moves|
  {
    hide Allowed, After;
    if moves == [] {
      assert moves + [m] == [m] && [m][1..] == [];
      assert Goes(fan, After(fan, w, m), [m][1..]) && Dusk(fan, After(fan, w, m), [m][1..]) == After(fan, w, m);
    } else {
      assert (moves + [m])[1..] == moves[1..] + [m];
      LeadsOn(fan, After(fan, w, moves[0]), w', moves[1..], m);
    }
  }

  /** A file call the index protocol does not see. */
  lemma Unseen(fan: F.FanOf, w: World, w1: World, moves: seq<Move>, a: F.Act) returns (w': World)
    requires Leads(fan, w, w1, moves) && F.Enabled(fan, w1.files, a)
    requires a.FlushFile? || a.MakeFan? || a.FlushRoot?
    ensures Leads(fan, w, w', moves + [Call(a)]) && w'.files == F.Next(fan, w1.files, a)
    ensures w'.store == w1.store.(disk := w'.store.disk)
  {
    LeadsOn(fan, w, w1, moves, Call(a));
    w' := After(fan, w1, Call(a));
    hide Leads, F.Next, F.Visible;
  }

  /** A writer of `id` has begun and flushed its empty file. */
  lemma Begun(fan: F.FanOf, id: SegId) returns (moves: seq<Move>, w: World)
    requires F.GoodId(id)
    ensures Leads(fan, DAWN, w, moves) && F.At(w.files, id, F.Flushed) && id !in w.files.names
    ensures w.store.db == Orphan(id) && w.store.readers == map[]
  {
    assert Elems([id]) == {id} && Stamp(map[], {id}, 0) == map[id := 0];
    assert Leads(fan, DAWN, DAWN, []);
    LeadsOn(fan, DAWN, DAWN, [], Turn(BeginWrite(id, 0)));
    w, moves := After(fan, DAWN, Turn(BeginWrite(id, 0))), [] + [Turn(BeginWrite(id, 0))];
    hide Leads;
    LeadsOn(fan, DAWN, w, moves, Call(F.Create(id, 0)));
    w, moves := After(fan, w, Call(F.Create(id, 0))), moves + [Call(F.Create(id, 0))];
    w := Unseen(fan, DAWN, w, moves, F.FlushFile(id));
    moves := moves + [Call(F.FlushFile(id))];
  }

  /** It makes its fan directory. */
  lemma Placed(fan: F.FanOf, id: SegId) returns (moves: seq<Move>, w: World)
    requires F.GoodId(id)
    ensures Leads(fan, DAWN, w, moves) && F.At(w.files, id, F.Fanned) && id !in w.files.names
    ensures w.store.db == Orphan(id) && w.store.readers == map[]
  {
    moves, w := Begun(fan, id);
    hide Leads;
    w := Unseen(fan, DAWN, w, moves, F.MakeFan(id));
    moves := moves + [Call(F.MakeFan(id))];
    w := Unseen(fan, DAWN, w, moves, F.FlushRoot(id));
    moves := moves + [Call(F.FlushRoot(id))];
  }

  /** It links its bytes, and the process is killed. */
  lemma LinkedAndKilled(fan: F.FanOf, id: SegId) returns (moves: seq<Move>, w: World)
    requires F.GoodId(id)
    ensures Leads(fan, DAWN, w, moves) && id in w.files.names && w.store.db == Orphan(id) && w.store.readers == map[]
  {
    moves, w := Placed(fan, id);
    hide Leads, Orphan, F.Visible;
    LeadsOn(fan, DAWN, w, moves, Call(F.Link(id)));
    w, moves := After(fan, w, Call(F.Link(id))), moves + [Call(F.Link(id))];
    moves, w := Killed(fan, w, moves);
  }

  const LATER := Transact(OpClaimDue(PENDING_ORPHAN_AGE, 1))

  function Orphan(id: SegId): Db {
    EMPTY.(pending := map[id := 0])
  }

  function Condemned(id: SegId): Db {
    EMPTY.(garbage := map[id := PENDING_ORPHAN_AGE])
  }

  /** The sweeper claims the orphan. */
  lemma ClaimsOrphan(s: Store, id: SegId)
    requires s.db == Orphan(id)
    ensures Enabled(s, LATER) && Step(s, LATER) == s.(db := Condemned(id), held := s.held + {id})
  {
    var pending: map<SegId, nat> := map[id := 0];
    assert Stale(pending, PENDING_ORPHAN_AGE) == {id};
    assert pending - {id} == map[];
    assert Stamp(map[], {id}, PENDING_ORPHAN_AGE) == map[id := PENDING_ORPHAN_AGE];
    OnlyDue(id);
  }

  lemma OnlyDue(id: SegId)
    ensures |Ascending({id})| == 1 && Elems(Ascending({id})[..1]) == {id}
  {
    var due := Ascending({id});
    assert |due| == 1 && due[0] in due;
  }

  /** It is still garbage at the next sweep, and claimed again. */
  lemma ClaimsAgain(s: Store, id: SegId)
    requires s.db == Condemned(id)
    ensures Enabled(s, LATER) && Step(s, LATER) == s.(held := s.held + {id})
  {
    var garbage: map<SegId, nat> := map[id := PENDING_ORPHAN_AGE];
    assert Stale(map[], PENDING_ORPHAN_AGE) == {};
    assert Stamp(garbage, {}, PENDING_ORPHAN_AGE) == garbage;
    assert garbage.Keys == {id};
    OnlyDue(id);
  }

  lemma ChecksPin(s: Store, id: SegId)
    requires id in s.held && s.readers == map[]
    ensures Enabled(s, CheckPin(id)) && Step(s, CheckPin(id)) == s.(cleared := s.cleared + {id})
  {}

  /** A turn of the protocol. */
  lemma Turned(fan: F.FanOf, w: World, moves: seq<Move>, e: Event, s: Store) returns (w': World)
    requires Leads(fan, DAWN, w, moves) && Enabled(w.store, e) && Step(w.store, e) == s && (e.Transact? || e.CheckPin?)
    ensures Leads(fan, DAWN, w', moves + [Turn(e)]) && w' == World(s, w.files)
  {
    hide Leads, Enabled, Step;
    LeadsOn(fan, DAWN, w, moves, Turn(e));
    w' := After(fan, w, Turn(e));
  }

  /** A sweep up to the unlink: claim, check for readers, delete. */
  lemma Sweeps(fan: F.FanOf, w: World, moves: seq<Move>, id: SegId) returns (moves': seq<Move>, w': World)
    requires Leads(fan, DAWN, w, moves) && (w.store.db == Orphan(id) || w.store.db == Condemned(id))
    requires w.store.readers == map[]
    ensures Leads(fan, DAWN, w', moves') && w'.files == F.Next(fan, w.files, F.Remove(id))
    ensures w'.store.db == Condemned(id) && w'.store.readers == map[] && id in w'.store.gone
  {
    hide Leads, Orphan, Condemned, Enabled, Step;
    var s1 := w.store.(db := Condemned(id), held := w.store.held + {id});
    if w.store.db == Orphan(id) { ClaimsOrphan(w.store, id); } else { ClaimsAgain(w.store, id); }
    w' := Turned(fan, w, moves, LATER, s1);
    ChecksPin(s1, id);
    var s2 := s1.(cleared := s1.cleared + {id});
    moves' := moves + [Turn(LATER)];
    w' := Turned(fan, w', moves', CheckPin(id), s2);
    moves' := moves' + [Turn(CheckPin(id))];
    moves', w' := Unlinks(fan, w', moves', id);
  }

  lemma Unlinks(fan: F.FanOf, w: World, moves: seq<Move>, id: SegId) returns (moves': seq<Move>, w': World)
    requires Leads(fan, DAWN, w, moves) && id in w.store.cleared
    ensures Leads(fan, DAWN, w', moves') && w'.files == F.Next(fan, w.files, F.Remove(id))
    ensures w'.store.db == w.store.db && w'.store.readers == w.store.readers && id in w'.store.gone
  {
    hide Leads, F.Next, F.Visible;
    LeadsOn(fan, DAWN, w, moves, Call(F.Remove(id)));
    w', moves' := After(fan, w, Call(F.Remove(id))), moves + [Call(F.Remove(id))];
  }

  lemma Killed(fan: F.FanOf, w: World, moves: seq<Move>) returns (moves': seq<Move>, w': World)
    requires Leads(fan, DAWN, w, moves)
    ensures Leads(fan, DAWN, w', moves') && w'.store.db == w.store.db && w'.store.readers == map[]
    ensures w'.files.names == w.files.names && w'.files.undone == w.files.undone
  {
    hide Leads, F.Visible;
    LeadsOn(fan, DAWN, w, moves, Call(F.Restart));
    w', moves' := After(fan, w, Call(F.Restart)), moves + [Call(F.Restart)];
  }

  /** From an empty store, for any id: an orphan's delete is killed between unlink and flush, the next sweep
      finds no file and forgets the id, and a power loss brings back a file the index does not know. */
  lemma ForgottenComesBack(fan: F.FanOf, id: SegId) returns (moves: seq<Move>, w: World)
    requires F.GoodId(id)
    ensures Leads(fan, DAWN, w, moves) && id in w.files.names && !Tracked(w.store.db, id)
  {
    hide Leads, Condemned, F.Next, Tracked;
    moves, w := LinkedAndKilled(fan, id);
    RemoveUnlinks(fan, w.files, id);
    moves, w := Sweeps(fan, w, moves, id);
    moves, w := Killed(fan, w, moves);
    RemoveUnlinks(fan, w.files, id);
    moves, w := Sweeps(fan, w, moves, id);
    moves, w := ForgetAndLose(fan, w, moves, id);
  }

  lemma RemoveUnlinks(fan: F.FanOf, d: F.Disk, id: SegId)
    ensures var d' := F.Next(fan, d, F.Remove(id)); id !in d'.names && (MayBeThere(d, id) ==> id in d'.undone)
  {}

  lemma ForgetAndLose(fan: F.FanOf, w: World, moves: seq<Move>, id: SegId) returns (moves': seq<Move>, w': World)
    requires Leads(fan, DAWN, w, moves) && w.store.db == Condemned(id) && id in w.store.gone
    requires id !in w.files.names && id in w.files.undone
    ensures Leads(fan, DAWN, w', moves') && id in w'.files.names && !Tracked(w'.store.db, id)
  {
    hide Leads;
    assert Elems([id]) == {id};
    LeadsOn(fan, DAWN, w, moves, Turn(ForgetGone([id])));
    w', moves' := After(fan, w, Turn(ForgetGone([id]))), moves + [Turn(ForgetGone([id]))];
    assert !Tracked(w'.store.db, id) by { forall slot ensures !HoldsAt(w'.store.db, slot, id) {} }
    var back := F.PowerLoss(F.Loss({}, {id}, {}, map[]));
    assert F.Left(fan, w'.files, back.loss, id) == Some(w'.files.undone[id]);
    LeadsOn(fan, DAWN, w', moves', Call(back));
    w', moves' := After(fan, w', Call(back)), moves' + [Call(back)];
  }
}
