/** The byte store as its files: what each call on the file system does, in any interleaving of writers and
    deletes, and what a power loss may leave of it. A file's bytes, a directory's entries and a directory
    itself outlive a power loss only once each has been flushed. */
module SegmentFiles {
  import opened Common
  import opened Bytes
  import opened Tables

  type Inode = nat

  /** The fan-out directory of an id: the first byte of a hash. */
  type FanOf = SegId -> byte

  /** Ids are lowercase hex the engine minted; anything else never reaches a path. */
  predicate GoodId(id: Bytes) {
    1 <= |id| <= 64 && forall i :: 0 <= i < |id| ==> 48 <= id[i] <= 57 || 97 <= id[i] <= 102
  }

  /** How far `commit` has come. `Broken` is a write that failed half way. */
  datatype Phase = Writing | Broken | Flushed | Made | Fanned | Linked | Tidied

  /** `given` is every byte the caller has handed over. */
  datatype Writer = Writer(file: Inode, given: Bytes, phase: Phase)

  /** A segment's directory entry, with the bytes its writer had been given when it linked them. */
  datatype Entry = Entry(file: Inode, body: Bytes)

  datatype Disk = Disk(
    data: map<Inode, Bytes>,
    /** Files whose bytes are on stable storage. */
    flushed: set<Inode>,
    names: map<SegId, Entry>,
    /** Linked, and the directory not flushed since. */
    unsure: set<SegId>,
    /** Unlinked, and the directory not flushed since. */
    undone: map<SegId, Entry>,
    fans: set<byte>,
    /** Fan directories whose own entry is on stable storage. */
    safe: set<byte>,
    tmp: map<SegId, Inode>,
    writers: map<SegId, Writer>,
    /** Ids that have been created, and ids whose `commit` has returned `Ok`. */
    made: set<SegId>,
    acked: set<SegId>)

  const BLANK := Disk(map[], {}, map[], {}, map[], {}, {}, map[], map[], {}, {})

  /** What a power loss does with whatever was not flushed: entries that made it, entries whose removal did
      not, fan directories that never existed, and arbitrary bytes in files. */
  datatype Loss = Loss(kept: set<SegId>, back: set<SegId>, fans: set<byte>, torn: map<Inode, Bytes>)

  datatype Act =
    | Create(id: SegId, inode: Inode)
    | Write(id: SegId, buf: Bytes)
    | WriteFails(id: SegId, buf: Bytes)
    | FlushFile(id: SegId)
    | FindFan(id: SegId)
    | MakeFan(id: SegId)
    | FlushRoot(id: SegId)
    | Link(id: SegId)
    | Tidy(id: SegId, gone: bool)
    | FlushFan(id: SegId)
    | Quit(id: SegId, gone: bool)
    | Remove(id: SegId)
    | FlushDir(dir: byte)
    | Restart
    | PowerLoss(loss: Loss)

  predicate At(d: Disk, id: SegId, phase: Phase) {
    id in d.writers && d.writers[id].phase == phase
  }

  /** A fan directory found missing may be there by the time it is made: another writer made it. */
  predicate Enabled(fan: FanOf, d: Disk, a: Act) {
    match a
    case Create(id, inode) => GoodId(id) && id !in d.writers && inode !in d.data
    case Write(id, _) => At(d, id, Writing)
    case WriteFails(id, _) => At(d, id, Writing)
    case FlushFile(id) => At(d, id, Writing)
    case FindFan(id) => At(d, id, Flushed) && fan(id) in d.fans
    case MakeFan(id) => At(d, id, Flushed)
    case FlushRoot(id) => At(d, id, Made)
    case Link(id) => At(d, id, Fanned) && id !in d.names
    case Tidy(id, _) => At(d, id, Linked)
    case FlushFan(id) => At(d, id, Tidied)
    case Quit(id, _) => id in d.writers
    case Remove(_) => true
    case FlushDir(_) => true
    case Restart => true
    case PowerLoss(loss) => loss.fans !! d.safe
  }

  function Moved(d: Disk, id: SegId, phase: Phase): map<SegId, Writer>
    requires id in d.writers
  {
    d.writers[id := d.writers[id].(phase := phase)]
  }

  function Held(d: Disk, file: Inode): Bytes {
    if file in d.data then d.data[file] else []
  }

  /** A directory is flushed: its entries are as they are. */
  function Settle(fan: FanOf, d: Disk, dir: byte): Disk {
    var unsure := set id | id in d.unsure && fan(id) != dir;
    var undone := map id | id in d.undone && fan(id) != dir :: d.undone[id];
    d.(unsure := unsure, undone := undone)
  }

  /** The entry under `id` after a power loss. */
  function Left(fan: FanOf, d: Disk, loss: Loss, id: SegId): Option<Entry> {
    if fan(id) in loss.fans then None
    else if id in d.names && (id !in d.unsure || id in loss.kept) then Some(d.names[id])
    else if id in d.undone && id in loss.back then Some(d.undone[id])
    else None
  }

  function Lost(fan: FanOf, d: Disk, loss: Loss): Disk {
    Disk(map i | i in d.data :: if i in d.flushed || i !in loss.torn then d.data[i] else loss.torn[i],
         d.data.Keys,
         map id | id in d.names.Keys + d.undone.Keys && Left(fan, d, loss, id).Some? :: Left(fan, d, loss, id).value,
         {}, map[], d.fans - loss.fans, d.fans - loss.fans, map[], map[], d.made, d.acked)
  }

  /** The call's effect. A write lands where the file ends, since every file has one writer. */
  function Next(fan: FanOf, d: Disk, a: Act): Disk
    requires Enabled(fan, d, a)
  {
    match a
    case Create(id, inode) =>
      var file := if id in d.tmp then d.tmp[id] else inode;
      d.(data := d.data[file := []], flushed := d.flushed - {file}, tmp := d.tmp[id := file], made := d.made + {id},
         writers := d.writers[id := Writer(file, [], Writing)])
    case Write(id, buf) =>
      var w := d.writers[id];
      d.(data := d.data[w.file := Held(d, w.file) + buf], flushed := d.flushed - {w.file},
         writers := d.writers[id := w.(given := w.given + buf)])
    case WriteFails(id, buf) =>
      var w := d.writers[id];
      d.(data := d.data[w.file := Held(d, w.file) + buf], flushed := d.flushed - {w.file},
         writers := Moved(d, id, Broken))
    case FlushFile(id) => d.(flushed := d.flushed + {d.writers[id].file}, writers := Moved(d, id, Flushed))
    case FindFan(id) => d.(writers := Moved(d, id, Fanned))
    case MakeFan(id) => d.(fans := d.fans + {fan(id)}, writers := Moved(d, id, Made))
    case FlushRoot(id) => d.(safe := d.fans, writers := Moved(d, id, Fanned))
    case Link(id) =>
      var w := d.writers[id];
      d.(names := d.names[id := Entry(w.file, w.given)], unsure := d.unsure + {id}, writers := Moved(d, id, Linked))
    case Tidy(id, gone) => d.(tmp := if gone then d.tmp - {id} else d.tmp, writers := Moved(d, id, Tidied))
    case FlushFan(id) => Settle(fan, d, fan(id)).(acked := d.acked + {id}, writers := d.writers - {id})
    case Quit(id, gone) =>
      d.(tmp := if gone && !d.writers[id].phase.Tidied? then d.tmp - {id} else d.tmp, writers := d.writers - {id})
    case Remove(id) =>
      if id !in d.names then d
      else d.(names := d.names - {id}, unsure := d.unsure - {id}, undone := d.undone[id := d.names[id]])
    case FlushDir(dir) => Settle(fan, d, dir)
    case Restart => d.(tmp := map[], writers := map[])
    case PowerLoss(loss) => Lost(fan, d, loss)
  }

  /** What a reader finds under each id. */
  function Visible(d: Disk): map<SegId, Bytes> {
    map id | id in d.names :: Held(d, d.names[id].file)
  }

  // ---- what every call keeps -----------------------------------------------------------

  /** Each entry's file holds exactly what its writer was given, and is on stable storage. */
  ghost predicate Standing(data: map<Inode, Bytes>, flushed: set<Inode>, entries: map<SegId, Entry>) {
    forall id :: id in entries ==>
      GoodId(id) && entries[id].file in flushed && entries[id].file in data &&
        data[entries[id].file] == entries[id].body
  }

  /** A writer that has not linked yet. */
  predicate Open(w: Writer) {
    !w.phase.Linked? && !w.phase.Tidied?
  }

  /** An open writer's file is its own: no other writer has it. */
  ghost predicate Distinct(writers: map<SegId, Writer>) {
    forall x, y :: x in writers && y in writers && writers[x].file == writers[y].file ==> x == y
  }

  /** And no entry names it. */
  ghost predicate Apart(writers: map<SegId, Writer>, entries: map<SegId, Entry>) {
    forall x, y :: x in writers && Open(writers[x]) && y in entries ==> entries[y].file != writers[x].file
  }

  /** An open writer's file holds what the writer was given, unless a write broke, and is on stable storage
      from its flush on. */
  ghost predicate Holding(data: map<Inode, Bytes>, flushed: set<Inode>, writers: map<SegId, Writer>) {
    forall id :: id in writers ==>
      var w := writers[id];
      && GoodId(id) && w.file in data
      && (Open(w) && !w.phase.Broken? ==> data[w.file] == w.given && (w.phase.Writing? || w.file in flushed))
  }

  ghost predicate Intact(d: Disk) {
    && Standing(d.data, d.flushed, d.names) && Standing(d.data, d.flushed, d.undone)
    && Distinct(d.writers) && Apart(d.writers, d.names) && Apart(d.writers, d.undone)
    && Holding(d.data, d.flushed, d.writers)
    && d.safe <= d.fans && d.unsure <= d.names.Keys
  }

  /** A create that finds the id's temporary name free. */
  predicate Clear(d: Disk, a: Act) {
    a.Create? ==> a.id !in d.tmp
  }

  // ---- one writer's file changes ----

  lemma StandingStays(data: map<Inode, Bytes>, flushed: set<Inode>, entries: map<SegId, Entry>, file: Inode,
                      bytes: Bytes)
    requires Standing(data, flushed, entries) && forall id :: id in entries ==> entries[id].file != file
    ensures Standing(data[file := bytes], flushed - {file}, entries)
  {}

  lemma HoldingStays(data: map<Inode, Bytes>, flushed: set<Inode>, writers: map<SegId, Writer>, id: SegId, w: Writer,
                     bytes: Bytes)
    requires Holding(data, flushed, writers) && GoodId(id)
    requires forall x :: x in writers && x != id ==> writers[x].file != w.file
    requires w.phase.Broken? || (w.phase.Writing? && w.given == bytes)
    ensures Holding(data[w.file := bytes], flushed - {w.file}, writers[id := w])
  {}

  lemma SameVisible(d: Disk, file: Inode, bytes: Bytes)
    requires forall id :: id in d.names ==> d.names[id].file != file
    ensures forall id :: id in d.names ==>
              Held(d.(data := d.data[file := bytes]), d.names[id].file) == Held(d, d.names[id].file)
  {}

  // ---- one writer moves on ----

  lemma DistinctStays(writers: map<SegId, Writer>, id: SegId, w: Writer)
    requires Distinct(writers) && forall x :: x in writers && x != id ==> writers[x].file != w.file
    ensures Distinct(writers[id := w])
  {}

  lemma OthersDiffer(writers: map<SegId, Writer>, id: SegId)
    requires Distinct(writers) && id in writers
    ensures forall x :: x in writers && x != id ==> writers[x].file != writers[id].file
  {}

  lemma ApartStays(writers: map<SegId, Writer>, entries: map<SegId, Entry>, id: SegId, w: Writer)
    requires Apart(writers, entries) && (Open(w) ==> forall y :: y in entries ==> entries[y].file != w.file)
    ensures Apart(writers[id := w], entries)
  {}

  lemma CreateIntact(fan: FanOf, d: Disk, id: SegId, inode: Inode)
    requires Intact(d) && Enabled(fan, d, Create(id, inode)) && id !in d.tmp
    ensures Intact(Next(fan, d, Create(id, inode))) && Visible(Next(fan, d, Create(id, inode))) == Visible(d)
  {
    var w := Writer(inode, [], Writing);
    StandingStays(d.data, d.flushed, d.names, inode, []);
    StandingStays(d.data, d.flushed, d.undone, inode, []);
    HoldingStays(d.data, d.flushed, d.writers, id, w, []);
    DistinctStays(d.writers, id, w);
    ApartStays(d.writers, d.names, id, w);
    ApartStays(d.writers, d.undone, id, w);
    SameVisible(d, inode, []);
    hide Standing, Holding, Distinct, Apart, Held;
  }

  lemma WriteIntact(fan: FanOf, d: Disk, a: Act)
    requires Intact(d) && Enabled(fan, d, a) && (a.Write? || a.WriteFails?)
    ensures Intact(Next(fan, d, a)) && Visible(Next(fan, d, a)) == Visible(d)
  {
    var d' := Next(fan, d, a);
    var w := d'.writers[a.id];
    var bytes := Held(d, w.file) + a.buf;
    ApartAt(d.writers, d.names, a.id);
    ApartAt(d.writers, d.undone, a.id);
    HoldingAt(d, a.id);
    hide Standing, Holding, Distinct, Apart, Held;
    OthersDiffer(d.writers, a.id);
    StandingStays(d.data, d.flushed, d.names, w.file, bytes);
    StandingStays(d.data, d.flushed, d.undone, w.file, bytes);
    HoldingStays(d.data, d.flushed, d.writers, a.id, w, bytes);
    DistinctStays(d.writers, a.id, w);
    ApartStays(d.writers, d.names, a.id, w);
    ApartStays(d.writers, d.undone, a.id, w);
    SameVisible(d, w.file, bytes);
  }

  lemma ApartAt(writers: map<SegId, Writer>, entries: map<SegId, Entry>, id: SegId)
    requires Apart(writers, entries) && id in writers && Open(writers[id])
    ensures forall y :: y in entries ==> entries[y].file != writers[id].file
  {}

  lemma HoldingAt(d: Disk, id: SegId)
    requires Holding(d.data, d.flushed, d.writers) && id in d.writers
    ensures GoodId(id) && d.writers[id].file in d.data
    ensures Open(d.writers[id]) && !At(d, id, Broken) ==>
              Held(d, d.writers[id].file) == d.data[d.writers[id].file] == d.writers[id].given &&
                (At(d, id, Writing) || d.writers[id].file in d.flushed)
  {}

  lemma HoldingMoves(data: map<Inode, Bytes>, flushed: set<Inode>, writers: map<SegId, Writer>, flushed': set<Inode>,
                     id: SegId, phase: Phase)
    requires Holding(data, flushed, writers) && id in writers && flushed <= flushed'
    requires var w := writers[id]; !Open(w.(phase := phase)) || (Open(w) && !w.phase.Broken? && w.file in flushed')
    ensures Holding(data, flushed', writers[id := writers[id].(phase := phase)])
  {}

  /** A commit's call that changes no entry: the file's flush, the fan directory, the temporary name. */
  lemma PhaseIntact(fan: FanOf, d: Disk, a: Act)
    requires Intact(d) && Enabled(fan, d, a)
    requires a.FlushFile? || a.FindFan? || a.MakeFan? || a.FlushRoot? || a.Tidy?
    ensures Intact(Next(fan, d, a))
  {
    var d' := Next(fan, d, a);
    var w := d'.writers[a.id];
    HoldingAt(d, a.id);
    if Open(w) {
      ApartAt(d.writers, d.names, a.id);
      ApartAt(d.writers, d.undone, a.id);
    }
    hide Holding, Distinct, Apart, Held;
    OthersDiffer(d.writers, a.id);
    HoldingMoves(d.data, d.flushed, d.writers, d'.flushed, a.id, w.phase);
    DistinctStays(d.writers, a.id, w);
    ApartStays(d.writers, d.names, a.id, w);
    ApartStays(d.writers, d.undone, a.id, w);
  }

  lemma StandingLink(data: map<Inode, Bytes>, flushed: set<Inode>, entries: map<SegId, Entry>, id: SegId, e: Entry)
    requires Standing(data, flushed, entries) && GoodId(id) && e.file in flushed && e.file in data
    requires data[e.file] == e.body
    ensures Standing(data, flushed, entries[id := e])
  {}

  lemma ApartLink(writers: map<SegId, Writer>, entries: map<SegId, Entry>, id: SegId)
    requires Apart(writers, entries) && Distinct(writers) && id in writers
    ensures Apart(writers[id := writers[id].(phase := Linked)],
                  entries[id := Entry(writers[id].file, writers[id].given)])
  {}

  lemma LinkIntact(fan: FanOf, d: Disk, id: SegId)
    requires Intact(d) && Enabled(fan, d, Link(id))
    ensures Intact(Next(fan, d, Link(id)))
  {
    var w, w' := d.writers[id], d.writers[id].(phase := Linked);
    HoldingAt(d, id);
    hide Standing, Holding, Distinct, Apart;
    OthersDiffer(d.writers, id);
    HoldingMoves(d.data, d.flushed, d.writers, d.flushed, id, Linked);
    DistinctStays(d.writers, id, w');
    ApartStays(d.writers, d.undone, id, w');
    ApartLink(d.writers, d.names, id);
    StandingLink(d.data, d.flushed, d.names, id, Entry(w.file, w.given));
  }

  /** Entries and writers leave. */
  lemma FewerIntact(d: Disk, d': Disk)
    requires Intact(d) && d'.data == d.data && d'.flushed == d.flushed && d'.safe == d.safe && d'.fans == d.fans
    requires forall id :: id in d'.names ==> id in d.names && d'.names[id] == d.names[id]
    requires forall id :: id in d'.undone ==> (id in d.undone && d'.undone[id] == d.undone[id]) ||
                                              (id in d.names && d'.undone[id] == d.names[id])
    requires forall id :: id in d'.writers ==> id in d.writers && d'.writers[id] == d.writers[id]
    requires d'.unsure <= d'.names.Keys
    ensures Intact(d')
  {}

  lemma LostIntact(fan: FanOf, d: Disk, loss: Loss)
    requires Intact(d) && loss.fans !! d.safe
    ensures Intact(Lost(fan, d, loss))
  {}

  lemma StepIntact(fan: FanOf, d: Disk, a: Act)
    requires Intact(d) && Enabled(fan, d, a) && Clear(d, a)
    ensures Intact(Next(fan, d, a))
  {
    hide Standing, Holding, Distinct, Apart;
    match a
    case Create(id, inode) => CreateIntact(fan, d, id, inode);
    case Write(_, _) => WriteIntact(fan, d, a);
    case WriteFails(_, _) => WriteIntact(fan, d, a);
    case Link(id) => LinkIntact(fan, d, id);
    case FlushFan(_) => FewerIntact(d, Next(fan, d, a));
    case Quit(_, _) => FewerIntact(d, Next(fan, d, a));
    case Remove(_) => FewerIntact(d, Next(fan, d, a));
    case FlushDir(_) => FewerIntact(d, Next(fan, d, a));
    case Restart => FewerIntact(d, Next(fan, d, a));
    case PowerLoss(loss) => LostIntact(fan, d, loss);
    case _ => PhaseIntact(fan, d, a);
  }

  // ---- what becomes visible, and when ------------------------------------------------------

  /** Short of a power loss, what is readable changes in two ways: a link adds one id, with every byte its
      writer was given, and an unlink takes one away. */
  lemma VisibleSteps(fan: FanOf, d: Disk, a: Act)
    requires Intact(d) && Enabled(fan, d, a) && Clear(d, a) && !a.PowerLoss?
    ensures Visible(Next(fan, d, a)) ==
            match a
            case Link(id) => Visible(d)[id := d.writers[id].given]
            case Remove(id) => Visible(d) - {id}
            case _ => Visible(d)
  {
    hide Intact, Visible, Settle, Held;
    var d' := Next(fan, d, a);
    match a
    case Create(id, inode) => CreateIntact(fan, d, id, inode);
    case Write(_, _) => WriteIntact(fan, d, a);
    case WriteFails(_, _) => WriteIntact(fan, d, a);
    case Link(id) => LinkVisible(fan, d, id);
    case Remove(id) => RemoveVisible(fan, d, id);
    case FlushFan(id) => SettleVisible(fan, d, fan(id)); SameFiles(Settle(fan, d, fan(id)), d');
    case FlushDir(dir) => SettleVisible(fan, d, dir);
    case _ => SameFiles(d, d');
  }

  lemma SameFiles(d: Disk, d': Disk)
    requires d'.names == d.names && d'.data == d.data
    ensures Visible(d') == Visible(d)
  {}

  lemma SettleVisible(fan: FanOf, d: Disk, dir: byte)
    ensures Visible(Settle(fan, d, dir)) == Visible(d)
  {
    SameFiles(d, Settle(fan, d, dir));
  }

  lemma RemoveVisible(fan: FanOf, d: Disk, id: SegId)
    ensures Visible(Next(fan, d, Remove(id))) == Visible(d) - {id}
  {}

  lemma LinkVisible(fan: FanOf, d: Disk, id: SegId)
    requires Intact(d) && Enabled(fan, d, Link(id))
    ensures Visible(Next(fan, d, Link(id))) == Visible(d)[id := d.writers[id].given]
  {
    HoldingAt(d, id);
    hide Standing, Holding, Distinct, Apart;
  }

  // ---- what a power loss cannot take ---------------------------------------------------------

  /** The entry is on stable storage, and so is the directory it is in. */
  predicate Firm(fan: FanOf, d: Disk, id: SegId) {
    id in d.names && id !in d.unsure && fan(id) in d.safe
  }

  /** A segment outlives every power loss exactly when it is firm, and then with all its bytes. */
  lemma SurvivesExactly(fan: FanOf, d: Disk, id: SegId)
    requires Intact(d) && id in d.names
    ensures (forall loss: Loss :: loss.fans !! d.safe ==> id in Lost(fan, d, loss).names) <==> Firm(fan, d, id)
    ensures forall loss: Loss :: loss.fans !! d.safe && Firm(fan, d, id) ==>
              Firm(fan, Lost(fan, d, loss), id) && Visible(Lost(fan, d, loss))[id] == Visible(d)[id]
  {
    hide Distinct, Apart, Holding;
    forall loss: Loss | loss.fans !! d.safe && Firm(fan, d, id)
      ensures Firm(fan, Lost(fan, d, loss), id) && Visible(Lost(fan, d, loss))[id] == Visible(d)[id]
    {
      FirmStays(fan, d, loss, id);
    }
    if !Firm(fan, d, id) {
      var worst := Loss({}, {}, if fan(id) in d.safe then {} else {fan(id)}, map[]);
      assert worst.fans !! d.safe && id !in Lost(fan, d, worst).names;
    }
  }

  lemma FirmStays(fan: FanOf, d: Disk, loss: Loss, id: SegId)
    requires Intact(d) && loss.fans !! d.safe && Firm(fan, d, id)
    ensures Firm(fan, Lost(fan, d, loss), id) && Visible(Lost(fan, d, loss))[id] == Visible(d)[id]
    ensures Lost(fan, d, loss).names[id] == d.names[id]
  {
    hide Distinct, Apart, Holding;
    assert Left(fan, d, loss, id) == Some(d.names[id]);
  }

  /** A segment whose `commit` returns outlives every power loss exactly when the entry of its fan
      directory is on stable storage by then. */
  lemma AckExactly(fan: FanOf, d: Disk, id: SegId)
    requires Intact(d) && Enabled(fan, d, FlushFan(id)) && id in d.names
    ensures var d' := Next(fan, d, FlushFan(id));
            (forall loss: Loss :: loss.fans !! d'.safe ==> id in Lost(fan, d', loss).names) <==> fan(id) in d.safe
  {
    StepIntact(fan, d, FlushFan(id));
    SurvivesExactly(fan, Next(fan, d, FlushFan(id)), id);
  }

  /** A writer past the fan directory has one whose entry is on stable storage. */
  ghost predicate FansOk(fan: FanOf, d: Disk) {
    forall id :: id in d.writers ==>
      match d.writers[id].phase
      case Made => fan(id) in d.fans
      case Fanned => fan(id) in d.safe
      case Linked => fan(id) in d.safe
      case Tidied => fan(id) in d.safe
      case _ => true
  }

  /** It is enough that a directory found has been flushed: one just made is flushed by its maker. */
  lemma FansStep(fan: FanOf, d: Disk, a: Act)
    requires FansOk(fan, d) && d.safe <= d.fans && Enabled(fan, d, a) && (a.FindFan? ==> fan(a.id) in d.safe)
    ensures FansOk(fan, Next(fan, d, a))
  {
    hide Held;
  }

  ghost predicate Runs(fan: FanOf, d: Disk, acts: seq<Act>)
    decreases |acts|
  {
    acts == [] || (Enabled(fan, d, acts[0]) && Clear(d, acts[0]) && Runs(fan, Next(fan, d, acts[0]), acts[1..]))
  }

  ghost function End(fan: FanOf, d: Disk, acts: seq<Act>): Disk
    requires Runs(fan, d, acts)
    decreases |acts|
  {
    if acts == [] then d else End(fan, Next(fan, d, acts[0]), acts[1..])
  }

  /** No run of file calls breaks the invariant. */
  lemma {:induction false} EveryCall(fan: FanOf, d: Disk, acts: seq<Act>)
    requires Intact(d) && Runs(fan, d, acts)
    ensures Intact(End(fan, d, acts))
    decreases |acts|
  {
    hide Intact;
    if acts != [] {
      StepIntact(fan, d, acts[0]);
      EveryCall(fan, Next(fan, d, acts[0]), acts[1..]);
    }
  }

  lemma {:induction false} Chained(fan: FanOf, d: Disk, acts: seq<Act>, a: Act)
    requires Runs(fan, d, acts) && Enabled(fan, End(fan, d, acts), a) && Clear(End(fan, d, acts), a)
    ensures Runs(fan, d, acts + [a]) && End(fan, d, acts + [a]) == Next(fan, End(fan, d, acts), a)
    decreases |acts|
  {
    if acts == [] {
      assert ([a])[1..] == [];
    } else {
      assert (acts + [a])[1..] == acts[1..] + [a];
      Chained(fan, Next(fan, d, acts[0]), acts[1..], a);
    }
  }

  /** `acts` is a run of file calls that leads from `d` to `d'`. */
  ghost predicate Did(fan: FanOf, d: Disk, d': Disk, acts: seq<Act>) {
    Runs(fan, d, acts) && End(fan, d, acts) == d' && Intact(d')
  }

  lemma DidNothing(fan: FanOf, d: Disk)
    requires Intact(d)
    ensures Did(fan, d, d, [])
  {}

  lemma DidMore(fan: FanOf, d: Disk, d': Disk, acts: seq<Act>, a: Act)
    requires Did(fan, d, d', acts) && Enabled(fan, d', a) && Clear(d', a)
    ensures Intact(d') && Did(fan, d, Next(fan, d', a), acts + [a])
  {
    hide Intact, Next, Enabled;
    Chained(fan, d, acts, a);
    StepIntact(fan, d', a);
  }

  lemma {:induction false} Extends(fan: FanOf, d: Disk, d': Disk, d'': Disk, acts: seq<Act>, more: seq<Act>)
    requires Did(fan, d, d', acts) && Did(fan, d', d'', more)
    ensures Did(fan, d, d'', acts + more)
    decreases |acts|
  {
    if acts == [] {
      assert acts + more == more;
    } else {
      assert (acts + more)[1..] == acts[1..] + more;
      Extends(fan, Next(fan, d, acts[0]), d', d'', acts[1..], more);
    }
  }

  /** While `one` has made their fan directory and not flushed the root, `two` finds it and commits. */
  function Race(one: SegId, two: SegId): seq<Act> {
    [MakeFan(one), FindFan(two), Link(two), Tidy(two, true), FlushFan(two)]
  }

  /** Whenever two writers are about to link into a fan directory that does not exist yet, this run of
      theirs ends with a `commit` that returned `Ok` for a segment a power loss takes. */
  lemma RaceLoses(fan: FanOf, d: Disk, one: SegId, two: SegId) returns (d': Disk, loss: Loss)
    requires Intact(d) && At(d, one, Flushed) && At(d, two, Flushed) && one != two && two !in d.names
    requires fan(one) == fan(two) && fan(one) !in d.fans
    ensures Did(fan, d, d', Race(one, two)) && two in d'.acked && two in d'.names
    ensures loss.fans !! d'.safe && two !in Lost(fan, d', loss).names
  {
    var d4 := RaceLinks(fan, d, one, two);
    hide Intact, Held, Settle, Lost, Did, Next, Race;
    var acts := [MakeFan(one)] + [FindFan(two)] + [Link(two)] + [Tidy(two, true)];
    DidMore(fan, d, d4, acts, FlushFan(two));
    RaceIs(one, two);
    AckExactly(fan, d4, two);
    AckedStands(fan, d4, two);
    d' := Next(fan, d4, FlushFan(two));
    loss :| loss.fans !! d'.safe && two !in Lost(fan, d', loss).names;
  }

  lemma RaceIs(one: SegId, two: SegId)
    ensures Race(one, two) == [MakeFan(one)] + [FindFan(two)] + [Link(two)] + [Tidy(two, true)] + [FlushFan(two)]
  {}

  lemma RaceFinds(fan: FanOf, d: Disk, one: SegId, two: SegId) returns (d': Disk)
    requires Intact(d) && At(d, one, Flushed) && At(d, two, Flushed) && one != two && two !in d.names
    requires fan(one) == fan(two) && fan(one) !in d.fans
    ensures Did(fan, d, d', [MakeFan(one)] + [FindFan(two)])
    ensures At(d', two, Fanned) && two !in d'.names && fan(two) !in d'.safe
  {
    assert fan(two) !in d.safe;
    hide Intact, Did;
    DidNothing(fan, d);
    DidMore(fan, d, d, [], MakeFan(one));
    assert [] + [MakeFan(one)] == [MakeFan(one)];
    d' := Next(fan, d, MakeFan(one));
    DidMore(fan, d, d', [MakeFan(one)], FindFan(two));
    d' := Next(fan, d', FindFan(two));
  }

  lemma RaceLinks(fan: FanOf, d: Disk, one: SegId, two: SegId) returns (d': Disk)
    requires Intact(d) && At(d, one, Flushed) && At(d, two, Flushed) && one != two && two !in d.names
    requires fan(one) == fan(two) && fan(one) !in d.fans
    ensures Did(fan, d, d', [MakeFan(one)] + [FindFan(two)] + [Link(two)] + [Tidy(two, true)])
    ensures At(d', two, Tidied) && two in d'.names && fan(two) !in d'.safe
  {
    d' := RaceFinds(fan, d, one, two);
    hide Intact, Did, Next, Enabled, Clear;
    DidLink(fan, d, d', [MakeFan(one)] + [FindFan(two)], two);
    d' := Next(fan, d', Link(two));
    DidTidy(fan, d, d', [MakeFan(one)] + [FindFan(two)] + [Link(two)], two);
    d' := Next(fan, d', Tidy(two, true));
  }

  lemma DidLink(fan: FanOf, d: Disk, d': Disk, acts: seq<Act>, id: SegId)
    requires Did(fan, d, d', acts) && At(d', id, Fanned) && id !in d'.names
    ensures Enabled(fan, d', Link(id)) && Did(fan, d, Next(fan, d', Link(id)), acts + [Link(id)])
    ensures var e := Next(fan, d', Link(id)); At(e, id, Linked) && id in e.names && e.safe == d'.safe
  {
    hide Intact, Did;
    DidMore(fan, d, d', acts, Link(id));
  }

  lemma DidTidy(fan: FanOf, d: Disk, d': Disk, acts: seq<Act>, id: SegId)
    requires Did(fan, d, d', acts) && At(d', id, Linked)
    ensures Enabled(fan, d', Tidy(id, true)) && Did(fan, d, Next(fan, d', Tidy(id, true)), acts + [Tidy(id, true)])
    ensures var e := Next(fan, d', Tidy(id, true)); At(e, id, Tidied) && e.names == d'.names && e.safe == d'.safe
  {
    hide Intact, Did;
    DidMore(fan, d, d', acts, Tidy(id, true));
  }

  lemma AckedStands(fan: FanOf, d: Disk, id: SegId)
    requires At(d, id, Tidied) && id in d.names
    ensures var d' := Next(fan, d, FlushFan(id));
            id in d'.acked && id in d'.names && id !in d'.unsure && d'.safe == d.safe
  {}

  // ---- from an empty store ----

  /** A writer appears and flushes its empty file. */
  lemma Started(fan: FanOf, d: Disk, d1: Disk, acts: seq<Act>, id: SegId, inode: Inode) returns (d': Disk)
    requires Did(fan, d, d1, acts) && GoodId(id) && id !in d1.writers && id !in d1.tmp && inode !in d1.data
    ensures Did(fan, d, d', acts + [Create(id, inode)] + [FlushFile(id)]) && At(d', id, Flushed)
    ensures d'.names == d1.names && d'.fans == d1.fans && d'.safe == d1.safe
    ensures d'.tmp == d1.tmp[id := inode] && d'.data == d1.data[inode := []]
    ensures d'.writers.Keys == d1.writers.Keys + {id}
    ensures forall x :: x in d1.writers && x != id ==> At(d', x, d1.writers[x].phase)
  {
    hide Did, Intact;
    d' := Next(fan, d1, Create(id, inode));
    DidMore(fan, d, d1, acts, Create(id, inode));
    DidMore(fan, d, d', acts + [Create(id, inode)], FlushFile(id));
    d' := Next(fan, d', FlushFile(id));
  }

  lemma BlankIsIntact()
    ensures Intact(BLANK)
  {}

  /** The race, from an empty store, for any two ids that share a fan directory. */
  lemma RaceFromBlank(fan: FanOf, one: SegId, two: SegId) returns (acts: seq<Act>, d': Disk, loss: Loss)
    requires GoodId(one) && GoodId(two) && one != two && fan(one) == fan(two)
    ensures Did(fan, BLANK, d', acts) && two in d'.acked && two in d'.names
    ensures loss.fans !! d'.safe && two !in Lost(fan, d', loss).names
  {
    BlankIsIntact();
    DidNothing(fan, BLANK);
    hide Did, Intact, Lost;
    var d1 := Started(fan, BLANK, BLANK, [], one, 0);
    acts := [] + [Create(one, 0)] + [FlushFile(one)];
    var d2 := Started(fan, BLANK, d1, acts, two, 1);
    acts := acts + [Create(two, 1)] + [FlushFile(two)];
    DidIntact(fan, BLANK, d2, acts);
    d', loss := RaceLoses(fan, d2, one, two);
    Extends(fan, BLANK, d2, d', acts, Race(one, two));
    acts := acts + Race(one, two);
  }

  lemma DidIntact(fan: FanOf, d: Disk, d': Disk, acts: seq<Act>)
    requires Did(fan, d, d', acts)
    ensures Intact(d')
  {}

  /** `delete`: the unlink and then a flush of the directory, or nothing when there is no such file. */
  function Deleted(fan: FanOf, d: Disk, id: SegId): Disk {
    if id in d.names then Settle(fan, Next(fan, d, Remove(id)), fan(id)) else d
  }

  /** A delete that returned is undone by some power loss exactly when it found no file because an
      earlier delete, whose flush never happened, had unlinked it. */
  lemma ReturnsExactly(fan: FanOf, d: Disk, id: SegId)
    ensures (exists loss: Loss :: loss.fans !! d.safe && id in Lost(fan, Deleted(fan, d, id), loss).names) <==>
            id !in d.names && id in d.undone
  {
    var d' := Deleted(fan, d, id);
    if id !in d.names && id in d.undone {
      var worst := Loss({}, {id}, {}, map[]);
      assert Left(fan, d', worst, id).Some?;
      assert worst.fans !! d.safe && id in Lost(fan, d', worst).names;
    } else {
      assert id !in d'.names && id !in d'.undone;
    }
  }

  /** The calls of a lone writer of an empty segment, and then of a delete up to its unlink. */
  function WriteThenUnlink(id: SegId): seq<Act> {
    [] + [Create(id, 0)] + [FlushFile(id)] + [MakeFan(id)] + [FlushRoot(id)] + [Link(id)] + [Tidy(id, true)] +
    [FlushFan(id)] + [Remove(id)]
  }

  lemma LinkedFromBlank(fan: FanOf, id: SegId) returns (acts: seq<Act>, d': Disk)
    requires GoodId(id)
    ensures acts + [FlushFan(id)] + [Remove(id)] == WriteThenUnlink(id)
    ensures Did(fan, BLANK, d', acts) && At(d', id, Tidied) && id in d'.names
  {
    BlankIsIntact();
    DidNothing(fan, BLANK);
    hide Did, Intact;
    d' := Started(fan, BLANK, BLANK, [], id, 0);
    acts := [] + [Create(id, 0)] + [FlushFile(id)];
    d', acts := DidFan(fan, BLANK, d', acts, id);
    DidLink(fan, BLANK, d', acts, id);
    d', acts := Next(fan, d', Link(id)), acts + [Link(id)];
    DidTidy(fan, BLANK, d', acts, id);
    d', acts := Next(fan, d', Tidy(id, true)), acts + [Tidy(id, true)];
  }

  lemma DidFan(fan: FanOf, d: Disk, d1: Disk, acts: seq<Act>, id: SegId) returns (d': Disk, acts': seq<Act>)
    requires Did(fan, d, d1, acts) && At(d1, id, Flushed)
    ensures acts' == acts + [MakeFan(id)] + [FlushRoot(id)] && Did(fan, d, d', acts')
    ensures At(d', id, Fanned) && d'.names == d1.names
  {
    hide Did, Intact;
    DidMore(fan, d, d1, acts, MakeFan(id));
    d' := Next(fan, d1, MakeFan(id));
    DidMore(fan, d, d', acts + [MakeFan(id)], FlushRoot(id));
    d', acts' := Next(fan, d', FlushRoot(id)), acts + [MakeFan(id)] + [FlushRoot(id)];
  }

  /** From an empty store: a first delete dies between its unlink and its flush, a second one finds no file and
      returns, and a power loss brings the segment back. */
  lemma DeleteUndone(fan: FanOf, id: SegId) returns (d: Disk, loss: Loss)
    requires GoodId(id)
    ensures Did(fan, BLANK, d, WriteThenUnlink(id)) && Deleted(fan, d, id) == d
    ensures loss.fans !! d.safe && id in Lost(fan, Deleted(fan, d, id), loss).names
  {
    var acts, d1 := LinkedFromBlank(fan, id);
    hide Did, Intact, Lost, Settle;
    DidMore(fan, BLANK, d1, acts, FlushFan(id));
    AckedStands(fan, d1, id);
    var d2 := Next(fan, d1, FlushFan(id));
    DidMore(fan, BLANK, d2, acts + [FlushFan(id)], Remove(id));
    d := Next(fan, d2, Remove(id));
    ReturnsExactly(fan, d, id);
    loss :| loss.fans !! d.safe && id in Lost(fan, Deleted(fan, d, id), loss).names;
  }
}
