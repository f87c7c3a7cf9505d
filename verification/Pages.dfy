/** Listing pages: what one call returns, and what following the continuation tokens adds up to. */
module Pages {
  import opened Common
  import opened Bytes
  import opened Search
  import opened Listing
  import opened Keys
  import opened Tables
  import opened Scan
  import opened Folding

  datatype ListV2Page = ListV2Page(
    objects: seq<ObjectMeta>, commonPrefixes: seq<Bytes>, isTruncated: bool, nextContinuationToken: Option<Bytes>)

  /** The entries a page shows: the first `maxKeys` of the listing. */
  ghost function Shown(q: Query, keys: set<Bytes>, maxKeys: nat): seq<Bytes> {
    q.Full(keys)[..Min(|q.Full(keys)|, maxKeys)]
  }

  ghost predicate AllPrefixed(q: Query, es: seq<Bytes>) {
    forall i :: 0 <= i < |es| ==> q.prefix <= es[i]
  }

  function FoldersIn(q: Query, es: seq<Bytes>): seq<Bytes>
    requires forall i :: 0 <= i < |es| ==> q.prefix <= es[i]
  {
    if es == [] then [] else
      var n := |es| - 1;
      FoldersIn(q, es[..n]) + (if q.Folder(es[n]).Some? then [es[n]] else [])
  }

  function ObjectsIn(q: Query, objects: map<Bytes, ObjectMeta>, base: Bytes, es: seq<Bytes>): seq<ObjectMeta>
    requires forall i :: 0 <= i < |es| ==> q.prefix <= es[i] && (q.Folder(es[i]).None? ==> base + es[i] in objects)
  {
    if es == [] then [] else
      var n := |es| - 1;
      ObjectsIn(q, objects, base, es[..n]) + (if q.Folder(es[n]).None? then [objects[base + es[n]]] else [])
  }

  lemma ShownIsListed(q: Query, objects: map<Bytes, ObjectMeta>, base: Bytes, maxKeys: nat)
    ensures var es := Shown(q, KeysUnder(objects, base), maxKeys);
            forall i :: 0 <= i < |es| ==> q.prefix <= es[i] && (q.Folder(es[i]).None? ==> base + es[i] in objects)
  {
    var keys := KeysUnder(objects, base);
    var es := Shown(q, keys, maxKeys);
    forall i | 0 <= i < |es| ensures q.prefix <= es[i] && (q.Folder(es[i]).None? ==> base + es[i] in objects) {
      assert es[i] in q.Full(keys);
      var k :| k in keys && q.prefix <= k && q.Above(q.Entry(k)) && es[i] == q.Entry(k);
      if q.Folder(k).Some? {
        FolderOfFolder(q, k);
      } else {
        var full :| full in objects && base <= full && k == full[|base|..];
        assert full == base + k;
      }
    }
  }

  /** The first `maxKeys` entries above `startAfter`, split into objects and folders; truncated
      exactly when there are more, with the last entry shown as the token. */
  ghost predicate IsPage(q: Query, objects: map<Bytes, ObjectMeta>, base: Bytes, maxKeys: nat, page: ListV2Page) {
    var keys := KeysUnder(objects, base);
    var shown := Shown(q, keys, maxKeys);
    ShownIsListed(q, objects, base, maxKeys);
    page.objects == ObjectsIn(q, objects, base, shown) &&
    page.commonPrefixes == FoldersIn(q, shown) &&
    (page.isTruncated <==> |q.Full(keys)| > maxKeys) &&
    page.nextContinuationToken == (if page.isTruncated && shown != [] then Some(shown[|shown| - 1]) else None)
  }

  ghost predicate IsEntry(q: Query, objects: map<Bytes, ObjectMeta>, base: Bytes, e: Bytes) {
    IsFolder(q, objects, base, e) || IsObject(q, objects, base, e)
  }

  /** The least `n` entries, or all of them if there are fewer. */
  ghost predicate FirstEntries(q: Query, objects: map<Bytes, ObjectMeta>, base: Bytes, n: nat, shown: seq<Bytes>) {
    && Ascends(shown) && |shown| <= n && (forall e :: e in shown ==> IsEntry(q, objects, base, e))
    && (forall e :: IsEntry(q, objects, base, e) && e !in shown ==> |shown| == n && forall x :: x in shown ==> Lt(x, e))
  }

  ghost predicate AreMetas(objects: map<Bytes, ObjectMeta>, base: Bytes, keys: seq<Bytes>, found: seq<ObjectMeta>) {
    && |found| == |keys|
    && forall i :: 0 <= i < |keys| ==> base + keys[i] in objects && found[i] == objects[base + keys[i]]
  }

  /** The keys shown as objects, in order, and `found` their metadata. */
  ghost predicate ObjectsShown(q: Query, objects: map<Bytes, ObjectMeta>, base: Bytes, shown: seq<Bytes>,
                               plain: seq<Bytes>, found: seq<ObjectMeta>) {
    && Ascends(plain) && (forall k :: k in plain <==> k in shown && IsObject(q, objects, base, k))
    && AreMetas(objects, base, plain, found)
  }

  ghost predicate FoldersShown(q: Query, objects: map<Bytes, ObjectMeta>, base: Bytes, shown: seq<Bytes>,
                               folders: seq<Bytes>) {
    Ascends(folders) && forall f :: f in folders <==> f in shown && IsFolder(q, objects, base, f)
  }

  /** The page shows the least `maxKeys` entries above `startAfter`: the folders among them, in order, and the
      objects among them, in order. It is truncated exactly when there are more, and then names the last
      entry shown. */
  ghost predicate ShowsExactly(q: Query, objects: map<Bytes, ObjectMeta>, base: Bytes, maxKeys: nat, page: ListV2Page) {
    exists shown, plain ::
      && FirstEntries(q, objects, base, maxKeys, shown)
      && ObjectsShown(q, objects, base, shown, plain, page.objects)
      && FoldersShown(q, objects, base, shown, page.commonPrefixes)
      && (page.isTruncated <==> exists e :: IsEntry(q, objects, base, e) && e !in shown)
      && page.nextContinuationToken == (if page.isTruncated && shown != [] then Some(shown[|shown| - 1]) else None)
  }

  function PlainIn(q: Query, es: seq<Bytes>): seq<Bytes>
    requires forall i :: 0 <= i < |es| ==> q.prefix <= es[i]
  {
    if es == [] then [] else
      var n := |es| - 1;
      PlainIn(q, es[..n]) + (if q.Folder(es[n]).None? then [es[n]] else [])
  }

  lemma {:induction false} FoldersAreExact(q: Query, es: seq<Bytes>)
    requires AllPrefixed(q, es) && Ascends(es)
    ensures Ascends(FoldersIn(q, es)) && forall e :: e in FoldersIn(q, es) <==> e in es && q.Folder(e).Some?
    decreases |es|
  {
    if es != [] {
      var n := |es| - 1;
      LastIsGreatest(es);
      hide Ascends, Query.Folder;
      FoldersAreExact(q, es[..n]);
      AscendsMore(FoldersIn(q, es[..n]), es[n]);
    }
  }

  lemma {:induction false} PlainAreExact(q: Query, es: seq<Bytes>)
    requires AllPrefixed(q, es) && Ascends(es)
    ensures Ascends(PlainIn(q, es)) && forall e :: e in PlainIn(q, es) <==> e in es && q.Folder(e).None?
    decreases |es|
  {
    if es != [] {
      var n := |es| - 1;
      LastIsGreatest(es);
      hide Ascends, Query.Folder;
      PlainAreExact(q, es[..n]);
      AscendsMore(PlainIn(q, es[..n]), es[n]);
    }
  }

  lemma LastIsGreatest(es: seq<Bytes>)
    requires es != [] && Ascends(es)
    ensures var n := |es| - 1;
            && Ascends(es[..n]) && (forall e :: e in es[..n] ==> Lt(e, es[n]))
            && forall e :: e in es <==> e in es[..n] || e == es[n]
  {
    var n := |es| - 1;
    assert es == es[..n] + [es[n]];
    forall e | e in es[..n] ensures Lt(e, es[n]) {
      var i :| 0 <= i < n && es[..n][i] == e;
      assert es[i] == e;
    }
  }

  lemma AscendsMore(s: seq<Bytes>, e: Bytes)
    requires Ascends(s) && forall x :: x in s ==> Lt(x, e)
    ensures Ascends(s + [e])
  {
    forall i | 0 <= i < |s| ensures Lt(s[i], e) { assert s[i] in s; }
  }

  lemma {:induction false} ObjectsAreMetas(q: Query, objects: map<Bytes, ObjectMeta>, base: Bytes, es: seq<Bytes>)
    requires Showable(q, objects, base, es)
    ensures var plain, found := PlainIn(q, es), ObjectsIn(q, objects, base, es);
            AreMetas(objects, base, plain, found)
    decreases |es|
  {
    hide Query.Folder;
    if es != [] { ObjectsAreMetas(q, objects, base, es[..|es| - 1]); }
  }

  /** The first `n` entries of the listing, and how they are split. */
  lemma EntriesShown(q: Query, objects: map<Bytes, ObjectMeta>, base: Bytes, n: nat)
    requires n <= |q.Full(KeysUnder(objects, base))|
    ensures var shown := q.Full(KeysUnder(objects, base))[..n];
            && Showable(q, objects, base, shown)
            && FirstEntries(q, objects, base, n, shown)
            && ObjectsShown(q, objects, base, shown, PlainIn(q, shown), ObjectsIn(q, objects, base, shown))
            && FoldersShown(q, objects, base, shown, FoldersIn(q, shown))
            && (n < |q.Full(KeysUnder(objects, base))| <==> exists e :: IsEntry(q, objects, base, e) && e !in shown)
  {
    var full := q.Full(KeysUnder(objects, base));
    var shown := full[..n];
    assert Shown(q, KeysUnder(objects, base), n) == shown;
    ShownIsListed(q, objects, base, n);
    forall e ensures e in full <==> IsEntry(q, objects, base, e) { EntryExactly(q, objects, base, e); }
    forall e | e in shown
      ensures e in full && q.prefix <= e && (q.Folder(e).Some? <==> IsFolder(q, objects, base, e)) &&
              (q.Folder(e).None? <==> IsObject(q, objects, base, e))
    {
      assert e in full;
      EntryFolds(q, objects, base, e);
    }
    hide Query.Full, Query.Folder, IsEntry, IsFolder, IsObject;
    PrefixIsFirst(full, n);
    FoldersAreExact(q, shown);
    PlainAreExact(q, shown);
    ObjectsAreMetas(q, objects, base, shown);
  }

  lemma PrefixIsFirst(full: seq<Bytes>, n: nat)
    requires Ascends(full) && n <= |full|
    ensures Ascends(full[..n]) && (forall e :: e in full[..n] ==> e in full)
    ensures forall e, x :: e in full && e !in full[..n] && x in full[..n] ==> Lt(x, e)
    ensures n < |full| <==> exists e :: e in full && e !in full[..n]
  {
    forall e, x | e in full && e !in full[..n] && x in full[..n] ensures Lt(x, e) {
      var i :| 0 <= i < |full| && full[i] == e;
      var j :| 0 <= j < n && full[..n][j] == x;
      assert forall m :: 0 <= m < n ==> full[..n][m] in full[..n] && full[..n][m] == full[m];
    }
    if n < |full| {
      assert full[n] in full;
      forall m | 0 <= m < n ensures full[..n][m] != full[n] {
        assert Lt(full[m], full[n]);
        Irreflexive(full[n]);
      }
    }
  }

  /** Every folder and every object there is to show, in order. */
  ghost predicate ListsAll(q: Query, objects: map<Bytes, ObjectMeta>, base: Bytes, found: seq<ObjectMeta>,
                           folders: seq<Bytes>) {
    exists shown, plain ::
      && (forall e :: e in shown <==> IsEntry(q, objects, base, e))
      && ObjectsShown(q, objects, base, shown, plain, found) && FoldersShown(q, objects, base, shown, folders)
  }

  lemma ReadToTheEnd(q: Query, objects: map<Bytes, ObjectMeta>, base: Bytes, found: seq<ObjectMeta>,
                     folders: seq<Bytes>)
    requires ReadTo(q, objects, base, |q.Full(KeysUnder(objects, base))|, found, folders)
    ensures ListsAll(q, objects, base, found, folders)
  {
    var full := q.Full(KeysUnder(objects, base));
    EntriesShown(q, objects, base, |full|);
    assert full[..|full|] == full;
    hide Query.Full, KeysUnder, ObjectsShown, FoldersShown, IsEntry, PlainIn, ObjectsIn, FoldersIn;
    assert ObjectsShown(q, objects, base, full, PlainIn(q, full), found);
  }

  lemma PageIsExact(q: Query, objects: map<Bytes, ObjectMeta>, base: Bytes, maxKeys: nat, page: ListV2Page)
    requires IsPage(q, objects, base, maxKeys, page)
    ensures ShowsExactly(q, objects, base, maxKeys, page)
  {
    var full := q.Full(KeysUnder(objects, base));
    var n := Min(|full|, maxKeys);
    var shown := full[..n];
    EntriesShown(q, objects, base, n);
    hide Query.Full, KeysUnder, ObjectsShown, FoldersShown, IsEntry, PlainIn, ObjectsIn, FoldersIn;
    assert FirstEntries(q, objects, base, maxKeys, shown);
    assert ObjectsShown(q, objects, base, shown, PlainIn(q, shown), page.objects);
  }

  method List(objects: map<Bytes, ObjectMeta>, bucket: Bytes, q: Query, maxKeys: nat)
    returns (page: ListV2Page, visited: nat)
    requires NoHighByte(objects.Keys)
    ensures IsPage(q, objects, bucket + [0], maxKeys, page)
    ensures ShowsExactly(q, objects, bucket + [0], maxKeys, page)
    ensures visited == RowsRead(q, KeysUnder(objects, bucket + [0]), maxKeys)
  {
    ghost var base := bucket + [0];
    ghost var keys := KeysUnder(objects, base);
    var items;
    items, visited := ScanRows(objects, bucket, q, maxKeys);
    var isTruncated := |items| > maxKeys;
    var kept := items[..Min(|items|, maxKeys)];
    assert Names(kept) == Shown(q, keys, maxKeys);
    var token := if isTruncated && kept != [] then Some(kept[|kept| - 1].0) else None;
    var found, folders := SplitItems(objects, base, q, kept);
    ShownIsListed(q, objects, base, maxKeys);
    page := ListV2Page(found, folders, isTruncated, token);
    PageIsExact(q, objects, base, maxKeys, page);
  }

  method SplitItems(objects: map<Bytes, ObjectMeta>, ghost base: Bytes, q: Query,
                    items: seq<Item>) returns (found: seq<ObjectMeta>, folders: seq<Bytes>)
    requires ItemsOk(q, objects, base, items)
    ensures found == ObjectsIn(q, objects, base, Names(items)) && folders == FoldersIn(q, Names(items))
  {
    found, folders := [], [];
    for i := 0 to |items|
      invariant found == ObjectsIn(q, objects, base, Names(items[..i]))
      invariant folders == FoldersIn(q, Names(items[..i]))
    {
      SplitNext(objects, base, q, items, i);
      match items[i].1 {
        case Some(meta) => found := found + [meta];
        case None => folders := folders + [items[i].0];
      }
    }
    assert items[..|items|] == items;
  }

  lemma SplitNext(objects: map<Bytes, ObjectMeta>, base: Bytes, q: Query, items: seq<Item>, i: nat)
    requires ItemsOk(q, objects, base, items) && i < |items|
    ensures var es, next := Names(items[..i]), Names(items[..i + 1]);
            && FoldersIn(q, next) == FoldersIn(q, es) + (if items[i].1.None? then [items[i].0] else [])
            && ObjectsIn(q, objects, base, next) ==
                 ObjectsIn(q, objects, base, es) + (if items[i].1.Some? then [items[i].1.value] else [])
  {
    assert ItemOk(q, objects, base, items[i]);
    assert Names(items[..i + 1])[..i] == Names(items[..i]);
  }

  // ---- following the tokens -------------------------------------------------

  function Next(q: Query, token: Bytes): Query {
    q.(startAfter := Some(token))
  }

  /** Asking again from the last entry shown lists exactly the entries not yet shown. */
  lemma NextPage(q: Query, keys: set<Bytes>, n: nat)
    requires 0 < n < |q.Full(keys)|
    ensures Next(q, q.Full(keys)[n - 1]).Full(keys) == q.Full(keys)[n..]
  {
    var full := q.Full(keys);
    var token := full[n - 1];
    var q' := Next(q, token);
    forall k | q.prefix <= k ensures q'.Entry(k) == q.Entry(k) {}
    forall e | e in q'.Entries(keys) ensures e in full[n..] {
      var k :| k in keys && q.prefix <= k && q'.Above(q'.Entry(k)) && e == q'.Entry(k);
      assert token in full;
      var l :| l in keys && q.prefix <= l && q.Above(q.Entry(l)) && token == q.Entry(l);
      if q.startAfter.Some? { Transitive(q.startAfter.value, token, e); }
      assert e in q.Entries(keys) && e in full;
      var i :| 0 <= i < |full| && full[i] == e;
      if i < n - 1 { Asymmetric(full[i], full[n - 1]); }
      if i == n - 1 { Irreflexive(e); }
      assert e == full[n..][i - n];
    }
    forall e | e in full[n..] ensures e in q'.Entries(keys) {
      var i :| n <= i < |full| && full[i] == e;
      assert e in full;
      var k :| k in keys && q.prefix <= k && q.Above(q.Entry(k)) && e == q.Entry(k);
      assert q'.Above(e);
    }
    AscendingUnique(q'.Full(keys), full[n..]);
  }

  /** The concatenation of the pages a client reads by following the tokens. */
  ghost function Followed(q: Query, keys: set<Bytes>, n: nat): seq<Bytes>
    requires n >= 1
    decreases |q.Full(keys)|
  {
    var shown := Shown(q, keys, n);
    if |q.Full(keys)| <= n then shown else
      NextPage(q, keys, n);
      shown + Followed(Next(q, shown[n - 1]), keys, n)
  }

  /** For any page size the pages end, and together are the complete listing in order, each entry once. */
  lemma {:induction false} PagesAreComplete(q: Query, keys: set<Bytes>, n: nat)
    requires n >= 1
    ensures Followed(q, keys, n) == q.Full(keys)
    decreases |q.Full(keys)|
  {
    hide Query.Full;
    var full, shown := q.Full(keys), Shown(q, keys, n);
    if |full| > n {
      var next := Next(q, shown[n - 1]);
      NextPage(q, keys, n);
      PagesAreComplete(next, keys, n);
      assert Followed(q, keys, n) == shown + Followed(next, keys, n);
      assert shown + full[n..] == full;
    }
  }

  lemma {:induction false} FoldersJoin(q: Query, a: seq<Bytes>, b: seq<Bytes>)
    requires AllPrefixed(q, a) && AllPrefixed(q, b)
    ensures FoldersIn(q, a + b) == FoldersIn(q, a) + FoldersIn(q, b)
    decreases |b|
  {
    if b == [] {
      assert a + b == a;
    } else {
      var n := |b| - 1;
      assert (a + b)[..|a + b| - 1] == a + b[..n];
      FoldersJoin(q, a, b[..n]);
    }
  }

  /** Entries that can be shown: each under the prefix, and a folder or an object of the bucket. */
  ghost predicate Showable(q: Query, objects: map<Bytes, ObjectMeta>, base: Bytes, es: seq<Bytes>) {
    forall i :: 0 <= i < |es| ==> q.prefix <= es[i] && (q.Folder(es[i]).None? ==> base + es[i] in objects)
  }

  lemma {:induction false} ObjectsJoin(q: Query, objects: map<Bytes, ObjectMeta>, base: Bytes, a: seq<Bytes>,
                                       b: seq<Bytes>)
    requires Showable(q, objects, base, a) && Showable(q, objects, base, b)
    ensures ObjectsIn(q, objects, base, a + b) == ObjectsIn(q, objects, base, a) + ObjectsIn(q, objects, base, b)
    decreases |b|
  {
    if b == [] {
      assert a + b == a;
    } else {
      var n := |b| - 1;
      assert (a + b)[..|a + b| - 1] == a + b[..n];
      ObjectsJoin(q, objects, base, a, b[..n]);
    }
  }

  lemma SameFolders(q: Query, q': Query)
    requires q'.prefix == q.prefix && q'.delimiter == q.delimiter
    ensures forall k :: q.prefix <= k ==> q'.Folder(k) == q.Folder(k)
  {}

  /** Where a listing starts has no say in how its entries are shown. */
  lemma {:induction false} SameSplit(q: Query, q': Query, objects: map<Bytes, ObjectMeta>, base: Bytes, es: seq<Bytes>)
    requires q'.prefix == q.prefix && q'.delimiter == q.delimiter && Showable(q, objects, base, es)
    ensures Showable(q', objects, base, es)
    ensures FoldersIn(q', es) == FoldersIn(q, es) && ObjectsIn(q', objects, base, es) == ObjectsIn(q, objects, base, es)
    decreases |es|
  {
    hide Query.Folder;
    assert forall k :: q.prefix <= k ==> q'.Folder(k) == q.Folder(k) by { SameFolders(q, q'); }
    if es != [] { SameSplit(q, q', objects, base, es[..|es| - 1]); }
  }

  /** What a client holds after reading the first `n` entries. */
  ghost predicate ReadTo(q: Query, objects: map<Bytes, ObjectMeta>, base: Bytes, n: nat, found: seq<ObjectMeta>,
                         folders: seq<Bytes>) {
    var full := q.Full(KeysUnder(objects, base));
    && n <= |full| && Showable(q, objects, base, full)
    && found == ObjectsIn(q, objects, base, full[..n]) && folders == FoldersIn(q, full[..n])
  }

  /** A query that asks for what comes after the first `n` entries. */
  ghost predicate AsksFrom(q: Query, query: Query, keys: set<Bytes>, n: nat) {
    && query.prefix == q.prefix && query.delimiter == q.delimiter
    && n <= |q.Full(keys)| && query.Full(keys) == q.Full(keys)[n..]
  }

  /** A client reading page after page, each from the last one's token, gets the complete listing. */
  method ReadPages(objects: map<Bytes, ObjectMeta>, bucket: Bytes, q: Query, maxKeys: nat)
    returns (found: seq<ObjectMeta>, folders: seq<Bytes>)
    requires NoHighByte(objects.Keys) && maxKeys >= 1
    ensures ReadTo(q, objects, bucket + [0], |q.Full(KeysUnder(objects, bucket + [0]))|, found, folders)
    ensures ListsAll(q, objects, bucket + [0], found, folders)
  {
    hide ReadTo, AsksFrom, Query.Full, IsPage, ShowsExactly, ListsAll, KeysUnder, NoHighByte;
    ghost var base := bucket + [0];
    ghost var keys := KeysUnder(objects, base);
    ghost var n: nat := 0;
    found, folders := [], [];
    ReadNothing(q, objects, base);
    var query, more := q, true;
    while more
      invariant ReadTo(q, objects, base, n, found, folders)
      invariant more ==> AsksFrom(q, query, keys, n) && n <= |q.Full(keys)|
      invariant !more ==> n == |q.Full(keys)|
      decreases more, |q.Full(keys)| - n
    {
      var page, _ := List(objects, bucket, query, maxKeys);
      n := PageJoins(q, query, objects, base, n, maxKeys, found, folders, page);
      found, folders := found + page.objects, folders + page.commonPrefixes;
      match page.nextContinuationToken {
        case Some(token) => query := Next(query, token);
        case None => more := false;
      }
    }
    ReadToTheEnd(q, objects, base, found, folders);
  }

  lemma ReadNothing(q: Query, objects: map<Bytes, ObjectMeta>, base: Bytes)
    ensures ReadTo(q, objects, base, 0, [], []) && AsksFrom(q, q, KeysUnder(objects, base), 0)
  {
    var full := q.Full(KeysUnder(objects, base));
    ShownIsListed(q, objects, base, |full|);
    assert Shown(q, KeysUnder(objects, base), |full|) == full;
  }

  lemma ShownNext(q: Query, query: Query, keys: set<Bytes>, n: nat, maxKeys: nat)
    requires AsksFrom(q, query, keys, n)
    ensures var full := q.Full(keys); var m := n + Min(|full| - n, maxKeys);
            var shown := Shown(query, keys, maxKeys);
            shown == full[n..m] && full[..m] == full[..n] + shown
  {
    hide Query.Full;
  }

  lemma ShownJoins(q: Query, query: Query, objects: map<Bytes, ObjectMeta>, base: Bytes, full: seq<Bytes>, n: nat,
                   m: nat)
    requires query.prefix == q.prefix && query.delimiter == q.delimiter
    requires Showable(q, objects, base, full) && n <= m <= |full|
    ensures var shown := full[n..m];
            && Showable(query, objects, base, shown)
            && ObjectsIn(q, objects, base, full[..m]) == ObjectsIn(q, objects, base, full[..n]) +
                 ObjectsIn(query, objects, base, shown)
            && FoldersIn(q, full[..m]) == FoldersIn(q, full[..n]) + FoldersIn(query, shown)
  {
    hide Query.Folder;
    var shown := full[n..m];
    SameSplit(q, query, objects, base, shown);
    assert full[..m] == full[..n] + shown;
    FoldersJoin(q, full[..n], shown);
    ObjectsJoin(q, objects, base, full[..n], shown);
  }

  /** A token asks for exactly what the page did not show. */
  lemma TokenAsks(q: Query, query: Query, keys: set<Bytes>, n: nat, maxKeys: nat)
    requires AsksFrom(q, query, keys, n) && 1 <= maxKeys < |query.Full(keys)|
    ensures AsksFrom(q, Next(query, query.Full(keys)[maxKeys - 1]), keys, n + maxKeys)
  {
    hide Query.Full;
    NextPage(query, keys, maxKeys);
    assert q.Full(keys)[n..][maxKeys..] == q.Full(keys)[n + maxKeys..];
  }

  lemma PageJoins(q: Query, query: Query, objects: map<Bytes, ObjectMeta>, base: Bytes, n: nat, maxKeys: nat,
                  found: seq<ObjectMeta>, folders: seq<Bytes>, page: ListV2Page) returns (m: nat)
    requires AsksFrom(q, query, KeysUnder(objects, base), n) && ReadTo(q, objects, base, n, found, folders)
    requires IsPage(query, objects, base, maxKeys, page) && maxKeys >= 1
    ensures ReadTo(q, objects, base, m, found + page.objects, folders + page.commonPrefixes)
    ensures var keys := KeysUnder(objects, base); var token := page.nextContinuationToken;
            && (token.Some? ==> n < m < |q.Full(keys)| && AsksFrom(q, Next(query, token.value), keys, m))
            && (token.None? ==> m == |q.Full(keys)|)
  {
    hide Query.Full, Query.Folder, KeysUnder, Showable, ObjectsIn, FoldersIn;
    var keys := KeysUnder(objects, base);
    m := n + Min(|q.Full(keys)| - n, maxKeys);
    ShownNext(q, query, keys, n, maxKeys);
    ShownJoins(q, query, objects, base, q.Full(keys), n, m);
    if page.nextContinuationToken.Some? {
      TokenAsks(q, query, keys, n, maxKeys);
    }
  }

  // ---- how many rows a page reads -------------------------------------------

  /** At most two rows beyond the page; at most one, as the source says, unless the first row is
      skipped and the scan still reads a row past the page or past the prefix. */
  lemma RowBound(q: Query, keys: set<Bytes>, maxKeys: nat)
    ensures RowsRead(q, keys, maxKeys) <= maxKeys + 2
    ensures RowsRead(q, keys, maxKeys) <= maxKeys + 1 <==>
              !(SkipsFirst(q, keys) && (|q.Full(keys)| > maxKeys || (|q.Full(keys)| == maxKeys && HasPast(q, keys))))
  {}

  /** A page of one after key `a` of `a`, `b`, `c` reads all three. */
  lemma TwoRowsBeyond()
    ensures RowsRead(Query([], None, Some([97])), {[97], [98], [99]}, 1) == 3
  {
    var q, keys := Query([], None, Some([97])), {[97], [98], [99]};
    assert Lt([], [97]) && q.From() == [97];
    assert q.Entry([97]) == [97] && q.Entry([98]) == [98] && q.Entry([99]) == [99];
    Irreflexive([97]);
    assert Lt([97], [98]) && Lt([97], [99]);
    assert q.Entries(keys) == {[98], [99]};
    assert |q.Full(keys)| == 2;
    assert SkipsFirst(q, keys);
  }
}
