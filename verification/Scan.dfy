/** The scan behind ListObjectsV2, proved to return the listing `Listing` describes. */
module Scan {
  import opened Common
  import opened Bytes
  import opened Search
  import opened Listing
  import opened Keys
  import opened Tables

  /** How far a scan has come: keys before `at` are settled, entries of later keys all still to come. */
  ghost predicate Collected(q: Query, keys: set<Bytes>, at: Bytes, es: seq<Bytes>) {
    && Ascends(es)
    && (forall e :: e in es ==> e in q.Entries(keys))
    && (forall k :: k in keys && q.prefix <= k && Lt(k, at) ==> !q.Above(q.Entry(k)) || q.Entry(k) in es)
    && (forall k, e :: k in keys && q.prefix <= k && Le(at, k) && e in es ==> Lt(e, q.Entry(k)))
  }

  /** How many rows it took: one for each entry, and the first row read if that one was skipped. */
  ghost predicate Counted(q: Query, keys: set<Bytes>, at: Bytes, n: nat, visited: nat, skipped: bool) {
    && Le(q.From(), at)
    && (forall k :: k in keys && Le(q.From(), k) && Lt(k, at) ==> q.prefix <= k)
    && (visited == 0 ==> at == q.From() && !skipped)
    && (visited > 0 ==> forall k :: k in keys && q.prefix <= k && Le(at, k) ==> q.Above(q.Entry(k)))
    && visited == n + (if skipped then 1 else 0)
    && (skipped ==> SkipsFirst(q, keys))
    && (visited > 0 && !skipped ==> !SkipsFirst(q, keys))
  }

  ghost predicate Scanned(q: Query, keys: set<Bytes>, at: Bytes, es: seq<Bytes>, visited: nat, skipped: bool) {
    Collected(q, keys, at, es) && Counted(q, keys, at, |es|, visited, skipped)
  }

  /** The row at the start of the scan is at or below `startAfter`: `startAfter` is a listed key, or
      lies in a folder that still has keys after it. */
  ghost predicate SkipsFirst(q: Query, keys: set<Bytes>) {
    exists k :: k in keys && q.prefix <= k && Le(q.From(), k) && !q.Above(q.Entry(k))
  }

  /** A row of the bucket lies past the prefix. */
  ghost predicate HasPast(q: Query, keys: set<Bytes>) {
    exists k :: k in keys && Le(q.From(), k) && !(q.prefix <= k)
  }

  ghost predicate IsNext(keys: set<Bytes>, at: Bytes, key: Bytes) {
    key in keys && Le(at, key) && forall k :: k in keys && Le(at, k) ==> Le(key, k)
  }

  ghost predicate NoHighByte(keys: set<Bytes>) {
    forall k :: k in keys ==> 255 !in k
  }

  lemma ScanStarts(q: Query, keys: set<Bytes>)
    ensures Scanned(q, keys, q.From(), [], 0, false)
  {
    forall k | k in keys && q.prefix <= k && Lt(k, q.From()) ensures !q.Above(q.Entry(k)) {
      BeforeFrom(q, k);
    }
    forall k | Le(q.From(), k) && Lt(k, q.From()) ensures false {
      Asymmetric(k, q.From());
    }
  }

  /** `next` resumes the scan after `key`: what lies between has the same entry, what follows a later one. */
  ghost predicate Resumes(q: Query, keys: set<Bytes>, key: Bytes, next: Bytes)
    requires q.prefix <= key
  {
    && Lt(key, next)
    && (forall k :: k in keys && Le(key, k) && Lt(k, next) ==> q.prefix <= k && q.Entry(k) == q.Entry(key))
    && (forall k :: k in keys && q.prefix <= k && Le(next, k) ==> Lt(q.Entry(key), q.Entry(k)))
    && (forall k :: k in keys && q.prefix <= k && Le(next, k) ==> q.Above(q.Entry(k)))
  }

  /** Reading a row: its entry joins the listing unless it is at or below `startAfter`. */
  lemma CollectSteps(q: Query, keys: set<Bytes>, at: Bytes, es: seq<Bytes>, key: Bytes, next: Bytes)
    requires Collected(q, keys, at, es) && IsNext(keys, at, key) && q.prefix <= key && Resumes(q, keys, key, next)
    ensures var e := q.Entry(key); Collected(q, keys, next, if q.Above(e) then es + [e] else es)
  {
    var e := q.Entry(key);
    var es' := if q.Above(e) then es + [e] else es;
    LeTransitive(at, key, next);
    assert forall x :: x in es ==> Lt(x, e);
    assert Ascends(es');
    assert q.Above(e) ==> e in q.Entries(keys);
    forall k | k in keys && q.prefix <= k && Lt(k, next) ensures !q.Above(q.Entry(k)) || q.Entry(k) in es' {
      Total(k, at);
      if !Lt(k, at) { assert Le(key, k); }
    }
    forall k, x | k in keys && q.prefix <= k && Le(next, k) && x in es' ensures Lt(x, q.Entry(k)) {
      LeTransitive(at, next, k);
    }
  }

  lemma CountSteps(q: Query, keys: set<Bytes>, at: Bytes, n: nat, visited: nat, skipped: bool, key: Bytes, next: Bytes)
    requires Counted(q, keys, at, n, visited, skipped) && IsNext(keys, at, key) && q.prefix <= key
    requires Resumes(q, keys, key, next)
    ensures var above := q.Above(q.Entry(key));
            Counted(q, keys, next, if above then n + 1 else n, visited + 1, skipped || !above)
  {
    LeTransitive(q.From(), at, key);
    LeTransitive(q.From(), key, next);
    forall k | k in keys && Le(q.From(), k) && Lt(k, next) ensures q.prefix <= k {
      Total(k, at);
    }
    if !q.Above(q.Entry(key)) {
      assert SkipsFirst(q, keys);
    } else if visited == 0 {
      forall k | k in keys && q.prefix <= k && Le(q.From(), k) ensures q.Above(q.Entry(k)) {
        Total(k, next);
      }
    }
  }

  lemma ObjectSteps(q: Query, keys: set<Bytes>, at: Bytes, es: seq<Bytes>, visited: nat, skipped: bool, key: Bytes)
    requires Scanned(q, keys, at, es, visited, skipped) && IsNext(keys, at, key) && NoHighByte(keys)
    requires q.prefix <= key && q.Folder(key).None?
    ensures Scanned(q, keys, key + [0], if q.Above(key) then es + [key] else es, visited + 1, skipped || !q.Above(key))
  {
    var next := key + [0];
    Successor(key);
    LeTransitive(q.From(), at, key);
    Asymmetric(key, next);
    forall k | k in keys && Le(next, k) ensures Lt(key, k) {
      LeTransitive(key, next, k);
    }
    forall k | k in keys && q.prefix <= k && Le(next, k) ensures Lt(key, q.Entry(k)) && q.Above(q.Entry(k)) {
      AfterObject(q, key, k);
      OnlyFirstSkipped(q, key, k);
    }
    forall k | Lt(k, next) && Le(key, k) ensures k == key {
      Between(key, k, [0]);
      SuccessorIsNext(key, k);
    }
    CollectSteps(q, keys, at, es, key, next);
    CountSteps(q, keys, at, |es|, visited, skipped, key, next);
  }

  lemma Successor(key: Bytes)
    ensures Lt(key, key + [0])
  {
    assert key + [] == key;
    LtUnderPrefix(key, [], [0]);
  }

  lemma SuccessorIsNext(key: Bytes, k: Bytes)
    requires key <= k && Lt(k, key + [0])
    ensures k == key
  {
    var x := k[|key|..];
    assert k == key + x;
    LtUnderPrefix(key, x, [0]);
  }

  lemma FolderSteps(q: Query, keys: set<Bytes>, at: Bytes, es: seq<Bytes>, visited: nat, skipped: bool, key: Bytes)
    requires Scanned(q, keys, at, es, visited, skipped) && IsNext(keys, at, key) && NoHighByte(keys)
    requires q.prefix <= key && q.Folder(key).Some?
    ensures var f := q.Entry(key);
            Scanned(q, keys, f + [255], if q.Above(f) then es + [f] else es, visited + 1, skipped || !q.Above(f))
  {
    var f := q.Entry(key);
    var next := f + [255];
    SeekIsExact(q, key, key);
    LeTransitive(q.From(), at, key);
    forall k | k in keys && Le(key, k) && Lt(k, next) ensures q.prefix <= k && q.Entry(k) == f {
      SeekIsExact(q, key, k);
      SameFolder(q, key, k);
    }
    forall k | k in keys && q.prefix <= k && Le(next, k) ensures Lt(f, q.Entry(k)) && q.Above(q.Entry(k)) {
      AfterFolder(q, key, k);
      LeTransitive(key, next, k);
      OnlyFirstSkipped(q, key, k);
    }
    CollectSteps(q, keys, at, es, key, next);
    CountSteps(q, keys, at, |es|, visited, skipped, key, next);
  }

  /** No row is left within the prefix: the entries collected are the whole listing. */
  lemma ScanEnds(q: Query, keys: set<Bytes>, at: Bytes, es: seq<Bytes>, visited: nat, skipped: bool)
    requires Scanned(q, keys, at, es, visited, skipped)
    requires forall k :: k in keys && Le(at, k) ==> !(q.prefix <= k)
    ensures es == q.Full(keys)
    ensures skipped <==> SkipsFirst(q, keys)
  {
    forall e | e in q.Entries(keys) ensures e in es {
      var k :| k in keys && q.prefix <= k && q.Above(q.Entry(k)) && e == q.Entry(k);
      Total(k, at);
    }
    AscendingUnique(es, q.Full(keys));
  }

  /** Stopped early: what was collected is the start of the listing. */
  lemma ScanStops(q: Query, keys: set<Bytes>, at: Bytes, es: seq<Bytes>, visited: nat, skipped: bool)
    requires Scanned(q, keys, at, es, visited, skipped)
    ensures |es| <= |q.Full(keys)| && es == q.Full(keys)[..|es|]
  {
    var full := q.Full(keys);
    forall e, x | e in es && x in full && x !in es ensures Lt(e, x) {
      var k :| k in keys && q.prefix <= k && q.Above(q.Entry(k)) && x == q.Entry(k);
      Total(k, at);
    }
    StartOfAscending(es, full);
  }

  lemma {:induction false} StartOfAscending(a: seq<Bytes>, b: seq<Bytes>)
    requires Ascends(a) && Ascends(b)
    requires forall x :: x in a ==> x in b
    requires forall x, y :: x in a && y in b && y !in a ==> Lt(x, y)
    ensures a <= b
  {
    if a != [] {
      assert a[0] in b;
      assert b[0] in b;
      if a[0] != b[0] {
        Asymmetric(b[0], a[0]);
        assert false;
      }
      forall x | x in a[1..] ensures x in b[1..] { Irreflexive(x); assert x in a; }
      forall x, y | x in a[1..] && y in b[1..] && y !in a[1..] ensures Lt(x, y) {
        Irreflexive(y);
        assert x in a && y in b && y != a[0];
      }
      StartOfAscending(a[1..], b[1..]);
      assert a == [a[0]] + a[1..] && b == [b[0]] + b[1..];
    }
  }

  // ---- the scan --------------------------------------------------------------

  /** The keys of one bucket, as the part after `bucket \0`. */
  ghost function KeysUnder(objects: map<Bytes, ObjectMeta>, base: Bytes): set<Bytes> {
    set full | full in objects && base <= full :: full[|base|..]
  }

  function RowsFrom(objects: map<Bytes, ObjectMeta>, lo: Bytes, hi: Bytes): set<Bytes> {
    set full | full in objects && Le(lo, full) && Lt(full, hi)
  }

  /** A table range starting inside the bucket holds the bucket's keys from there on. */
  lemma RowsAreKeys(objects: map<Bytes, ObjectMeta>, bucket: Bytes, at: Bytes, full: Bytes)
    ensures var base := bucket + [0];
            full in RowsFrom(objects, base + at, bucket + [1]) <==>
              full in objects && base <= full && Le(at, full[|base|..])
  {
    var base := bucket + [0];
    UnitRange(bucket, 0, full);
    assert base <= base + at;
    PrefixIsLe(base, base + at);
    if full in RowsFrom(objects, base + at, bucket + [1]) { LeTransitive(base, base + at, full); }
    if base <= full {
      assert full == base + full[|base|..];
      LeUnderPrefix(base, at, full[|base|..]);
    }
  }

  type Item = (Bytes, Option<ObjectMeta>)

  function Names(items: seq<Item>): (es: seq<Bytes>)
    ensures |es| == |items| && forall i :: 0 <= i < |es| ==> es[i] == items[i].0
  {
    seq(|items|, i requires 0 <= i < |items| => items[i].0)
  }

  /** A folded folder carries no metadata, an object its own. */
  predicate ItemOk(q: Query, objects: map<Bytes, ObjectMeta>, base: Bytes, item: Item) {
    && q.prefix <= item.0
    && (if q.Folder(item.0).Some? then item.1.None?
         else base + item.0 in objects && item.1 == Some(objects[base + item.0]))
  }

  /** The rows left in the inner loop are the keys not yet passed. */
  ghost predicate RowsLeft(objects: map<Bytes, ObjectMeta>, base: Bytes, at: Bytes, rows: seq<Bytes>) {
    && Ascends(rows)
    && (forall full :: full in rows <==> full in objects && base <= full && Le(at, full[|base|..]))
  }

  lemma FirstRowIsNext(objects: map<Bytes, ObjectMeta>, base: Bytes, at: Bytes, rows: seq<Bytes>)
    requires RowsLeft(objects, base, at, rows) && rows != [] && NoHighByte(KeysUnder(objects, base))
    ensures rows[0] in objects && base <= rows[0] && 255 !in rows[0][|base|..]
    ensures IsNext(KeysUnder(objects, base), at, rows[0][|base|..])
  {
    assert rows[0] in rows;
    var key := rows[0][|base|..];
    forall k | k in KeysUnder(objects, base) && Le(at, k) ensures Le(key, k) {
      var full :| full in objects && base <= full && k == full[|base|..];
      assert full in rows;
      assert rows[0] == base + key && full == base + k;
      LeUnderPrefix(base, key, k);
    }
  }

  lemma RowsLeftAfter(objects: map<Bytes, ObjectMeta>, base: Bytes, at: Bytes, rows: seq<Bytes>)
    requires RowsLeft(objects, base, at, rows) && rows != []
    ensures base <= rows[0] && RowsLeft(objects, base, rows[0][|base|..] + [0], rows[1..])
  {
    assert rows[0] in rows;
    var key := rows[0][|base|..];
    Successor(key);
    forall full | full in objects && base <= full
      ensures full in rows[1..] <==> Le(key + [0], full[|base|..])
    {
      var k := full[|base|..];
      assert full == base + k && rows[0] == base + key;
      LtUnderPrefix(base, key, k);
      Irreflexive(rows[0]);
      if Le(key + [0], k) {
        LeTransitive(key, key + [0], k);
        LeTransitive(at, key, k);
        Asymmetric(key, key + [0]);
        assert full in rows;
      }
      if full in rows[1..] {
        Total(key + [0], k);
        if Lt(k, key + [0]) { Between(key, k, [0]); SuccessorIsNext(key, k); }
      }
    }
    assert forall full :: full in rows[1..] ==> full in rows;
  }

  /** The rows a listing reads: one per entry collected, one at the start if that is skipped, and
      the row past the prefix if the scan gets that far. */
  ghost function RowsRead(q: Query, keys: set<Bytes>, maxKeys: nat): nat {
    var n := |q.Full(keys)|;
    (if SkipsFirst(q, keys) then 1 else 0) + Min(n, maxKeys + 1) + (if n <= maxKeys && HasPast(q, keys) then 1 else 0)
  }

  ghost predicate ItemsOk(q: Query, objects: map<Bytes, ObjectMeta>, base: Bytes, items: seq<Item>) {
    forall i :: 0 <= i < |items| ==> ItemOk(q, objects, base, items[i])
  }

  /** The scan may stop: these are the entries and the row count it promises. */
  ghost predicate Done(q: Query, keys: set<Bytes>, maxKeys: nat, es: seq<Bytes>, visited: nat) {
    es == q.Full(keys)[..Min(|q.Full(keys)|, maxKeys + 1)] && visited == RowsRead(q, keys, maxKeys)
  }

  lemma OverLimit(q: Query, keys: set<Bytes>, at: Bytes, maxKeys: nat, es: seq<Bytes>, visited: nat, skipped: bool)
    requires Scanned(q, keys, at, es, visited, skipped) && |es| == maxKeys + 1
    ensures Done(q, keys, maxKeys, es, visited)
  {
    ScanStops(q, keys, at, es, visited, skipped);
  }

  lemma PastEnds(q: Query, keys: set<Bytes>, at: Bytes, maxKeys: nat, es: seq<Bytes>, visited: nat, skipped: bool,
                 key: Bytes)
    requires Scanned(q, keys, at, es, visited, skipped) && IsNext(keys, at, key) && !(q.prefix <= key)
    requires |es| <= maxKeys
    ensures Done(q, keys, maxKeys, es, visited + 1)
  {
    LeTransitive(q.From(), at, key);
    FromCoversPrefix(q);
    LeTransitive(q.prefix, q.From(), key);
    forall k | k in keys && Le(at, k) ensures !(q.prefix <= k) {
      PastPrefix(q, key, k);
    }
    ScanEnds(q, keys, at, es, visited, skipped);
    assert HasPast(q, keys);
  }

  lemma FromCoversPrefix(q: Query)
    ensures Le(q.prefix, q.From())
  {}

  lemma RowsEnd(q: Query, objects: map<Bytes, ObjectMeta>, base: Bytes, at: Bytes, maxKeys: nat, es: seq<Bytes>,
                visited: nat, skipped: bool)
    requires Scanned(q, KeysUnder(objects, base), at, es, visited, skipped) && RowsLeft(objects, base, at, [])
    requires |es| <= maxKeys
    ensures Done(q, KeysUnder(objects, base), maxKeys, es, visited)
  {
    var keys := KeysUnder(objects, base);
    forall k | k in keys ensures Lt(k, at) {
      var full :| full in objects && base <= full && k == full[|base|..];
      assert full !in [];
      Total(k, at);
    }
    ScanEnds(q, keys, at, es, visited, skipped);
  }

  lemma NoHighByteUnder(objects: map<Bytes, ObjectMeta>, base: Bytes)
    requires NoHighByte(objects.Keys)
    ensures NoHighByte(KeysUnder(objects, base))
  {
    forall k | k in KeysUnder(objects, base) ensures 255 !in k {
      var full :| full in objects && base <= full && k == full[|base|..];
      assert full == base + k;
    }
  }

  /** The item a row contributes, if its entry is above `startAfter`. */
  function ItemAt(q: Query, objects: map<Bytes, ObjectMeta>, base: Bytes, full: Bytes): (item: Item)
    requires full in objects && base <= full && q.prefix <= full[|base|..]
    ensures ItemOk(q, objects, base, item) && item.0 == q.Entry(full[|base|..])
  {
    var key := full[|base|..];
    assert full == base + key;
    if q.Folder(key).Some? then
      FolderOfFolder(q, key);
      (q.Entry(key), None)
    else (key, Some(objects[full]))
  }

  /** The inner loop: read rows until a folder asks for a seek, the limit is passed or rows run out. */
  method ReadRows(objects: map<Bytes, ObjectMeta>, base: Bytes, q: Query, maxKeys: nat, rows: seq<Bytes>,
                  items0: seq<Item>, visited0: nat, ghost at0: Bytes, ghost skipped0: bool)
    returns (items: seq<Item>, visited: nat, resume: Option<Bytes>, scanning: bool, ghost at: Bytes,
             ghost skipped: bool)
    requires NoHighByte(KeysUnder(objects, base))
    requires Scanned(q, KeysUnder(objects, base), at0, Names(items0), visited0, skipped0)
    requires RowsLeft(objects, base, at0, rows) && |items0| <= maxKeys && ItemsOk(q, objects, base, items0)
    ensures ItemsOk(q, objects, base, items)
    ensures !scanning ==> Done(q, KeysUnder(objects, base), maxKeys, Names(items), visited)
    ensures scanning ==> |items| <= maxKeys && Scanned(q, KeysUnder(objects, base), at, Names(items), visited, skipped)
    ensures scanning && resume.None? ==> RowsLeft(objects, base, at, [])
    ensures scanning && resume.Some? ==> resume.value == base + at && exists row :: row in rows && Lt(row, resume.value)
  {
    hide Scanned, RowsLeft, Done, NoHighByte, IsNext, ItemOk, KeysUnder, Lt, Query.Above, Query.Folder, Query.Entry;
    ghost var keys := KeysUnder(objects, base);
    items, visited, resume, scanning, at, skipped := items0, visited0, None, true, at0, skipped0;
    var i := 0;
    while i < |rows| && resume.None? && scanning
      invariant 0 <= i <= |rows|
      invariant ItemsOk(q, objects, base, items)
      invariant !scanning ==> Done(q, keys, maxKeys, Names(items), visited)
      invariant scanning ==> |items| <= maxKeys && Scanned(q, keys, at, Names(items), visited, skipped)
      invariant scanning && resume.None? ==> RowsLeft(objects, base, at, rows[i..])
      invariant scanning && resume.Some? ==>
                  resume.value == base + at && exists row :: row in rows && Lt(row, resume.value)
    {
      FirstRowIsNext(objects, base, at, rows[i..]);
      var full := rows[i];
      assert full in rows && full in rows[i..];
      var key := full[|base|..];
      visited := visited + 1;
      if !(q.prefix <= key) {
        PastEnds(q, keys, at, maxKeys, Names(items), visited - 1, skipped, key);
        scanning := false;
      } else {
        var item := ItemAt(q, objects, base, full);
        ghost var es := Names(items);
        if q.Folder(key).Some? {
          FolderSteps(q, keys, at, es, visited - 1, skipped, key);
          SeekPassesRow(q, base, full);
          at := item.0 + [255];
          resume := Some(base + item.0 + [255]);
        } else {
          ObjectSteps(q, keys, at, es, visited - 1, skipped, key);
          RowsLeftAfter(objects, base, at, rows[i..]);
          assert rows[i..][1..] == rows[i + 1..];
          at := key + [0];
        }
        skipped := skipped || !q.Above(item.0);
        if q.Above(item.0) {
          items := items + [item];
          assert Names(items) == es + [item.0];
        }
        if |items| > maxKeys {
          OverLimit(q, keys, at, maxKeys, Names(items), visited, skipped);
          scanning := false;
        }
      }
      i := i + 1;
    }
    assert rows[|rows|..] == [];
  }

  lemma SeekPassesRow(q: Query, base: Bytes, full: Bytes)
    requires base <= full && q.prefix <= full[|base|..] && q.Folder(full[|base|..]).Some? && 255 !in full[|base|..]
    ensures var f := q.Entry(full[|base|..]); Lt(full, base + f + [255]) && base + f + [255] == base + (f + [255])
  {
    var key := full[|base|..];
    assert full == base + key;
    SeekIsExact(q, key, key);
    LtUnderPrefix(base, key, q.Entry(key) + [255]);
    assert base + (q.Entry(key) + [255]) == base + q.Entry(key) + [255];
  }

  /** The rows a listing reads and the entries it collects, at most one past the page. */
  method ScanRows(objects: map<Bytes, ObjectMeta>, bucket: Bytes, q: Query, maxKeys: nat)
    returns (items: seq<Item>, visited: nat)
    requires NoHighByte(objects.Keys)
    ensures Done(q, KeysUnder(objects, bucket + [0]), maxKeys, Names(items), visited)
    ensures ItemsOk(q, objects, bucket + [0], items)
  {
    var base, hi := bucket + [0], bucket + [1];
    ghost var keys := KeysUnder(objects, base);
    NoHighByteUnder(objects, base);
    items, visited := [], 0;
    var lo := base + q.From();
    ghost var at, skipped := q.From(), false;
    ScanStarts(q, keys);
    var scanning := true;
    while scanning
      invariant ItemsOk(q, objects, base, items)
      invariant scanning ==>
                  lo == base + at && |items| <= maxKeys && Scanned(q, keys, at, Names(items), visited, skipped)
      invariant !scanning ==> Done(q, keys, maxKeys, Names(items), visited)
      decreases RowsFrom(objects, lo, hi), scanning
    {
      var resume;
      var rows := Enumerate(RowsFrom(objects, lo, hi));
      RangeIsRowsLeft(objects, bucket, at, rows);
      items, visited, resume, scanning, at, skipped :=
        ReadRows(objects, base, q, maxKeys, rows, items, visited, at, skipped);
      if scanning {
        match resume
        case Some(next) =>
          ghost var row :| row in rows && Lt(row, next);
          RowsShrink(objects, lo, next, hi, row);
          lo := next;
        case None =>
          RowsEnd(q, objects, base, at, maxKeys, Names(items), visited, skipped);
          scanning := false;
      }
    }
  }

  lemma RangeIsRowsLeft(objects: map<Bytes, ObjectMeta>, bucket: Bytes, at: Bytes, rows: seq<Bytes>)
    requires rows == Ascending(RowsFrom(objects, bucket + [0] + at, bucket + [1]))
    ensures RowsLeft(objects, bucket + [0], at, rows)
  {
    var base := bucket + [0];
    forall full ensures full in rows <==> full in objects && base <= full && Le(at, full[|base|..]) {
      RowsAreKeys(objects, bucket, at, full);
    }
  }

  lemma RowsShrink(objects: map<Bytes, ObjectMeta>, lo: Bytes, next: Bytes, hi: Bytes, row: Bytes)
    requires row in RowsFrom(objects, lo, hi) && Lt(row, next)
    ensures RowsFrom(objects, next, hi) < RowsFrom(objects, lo, hi)
  {
    LeTransitive(lo, row, next);
    forall full | full in RowsFrom(objects, next, hi) ensures full in RowsFrom(objects, lo, hi) {
      LeTransitive(lo, next, full);
    }
    Asymmetric(row, next);
  }
}
