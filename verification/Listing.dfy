/** ListObjectsV2: keys folded at a delimiter, scanned in key order with a seek past each folder. */
module Listing {
  import opened Common
  import opened Bytes
  import opened Search

  /** What a listing asks for. An empty delimiter is no delimiter. */
  datatype Query = Query(prefix: Bytes, delimiter: Option<Bytes>, startAfter: Option<Bytes>) {
    predicate Folds() {
      delimiter.Some? && delimiter.value != []
    }

    /** The folder `key` falls into, if the delimiter occurs after the prefix. */
    function Folder(key: Bytes): (f: Option<Bytes>)
      requires prefix <= key
      ensures f.Some? ==> prefix <= f.value <= key
    {
      if !Folds() then None else
        match Find(key[|prefix|..], delimiter.value)
        case None => None
        case Some(i) => Some(key[..|prefix| + i + |delimiter.value|])
    }

    /** The listing entry a key contributes: its folder, else itself. */
    function Entry(key: Bytes): (e: Bytes)
      requires prefix <= key
      ensures prefix <= e <= key
    {
      match Folder(key) case Some(f) => f case None => key
    }

    predicate Above(e: Bytes) {
      startAfter.Some? ==> Lt(startAfter.value, e)
    }

    /** Where the scan starts. */
    function From(): Bytes {
      if startAfter.Some? && Lt(prefix, startAfter.value) then startAfter.value else prefix
    }

    /** The complete listing: every entry above `startAfter`, once, in order. */
    ghost function Entries(keys: set<Bytes>): set<Bytes> {
      set k | k in keys && prefix <= k && Above(Entry(k)) :: Entry(k)
    }

    ghost function Full(keys: set<Bytes>): seq<Bytes> {
      Ascending(Entries(keys))
    }
  }

  // ---- folding ------------------------------------------------------------

  /** Every key under a folder folds into that same folder. */
  lemma SameFolder(q: Query, key: Bytes, other: Bytes)
    requires q.prefix <= key && q.Folder(key).Some? && q.Folder(key).value <= other
    ensures q.prefix <= other && q.Folder(other) == q.Folder(key)
  {
    var f, d := q.Folder(key).value, q.delimiter.value;
    var s, t := key[|q.prefix|..], other[|q.prefix|..];
    var i := Find(s, d).value;
    var n := i + |d|;
    assert s[..n] == f[|q.prefix|..] == t[..n];
    forall j | j <= i ensures OccursAt(t, d, j) <==> OccursAt(s, d, j) {
      OccursInPrefix(s, t, d, n, j);
    }
    assert OccursAt(t, d, i);
    assert Find(t, d) == Some(i);
    assert other[..|q.prefix| + n] == f;
  }

  lemma FolderOfFolder(q: Query, key: Bytes)
    requires q.prefix <= key && q.Folder(key).Some?
    ensures q.Folder(q.Entry(key)) == q.Folder(key)
  {
    SameFolder(q, key, q.Entry(key));
  }

  lemma UnfoldedIsNoFolder(q: Query, key: Bytes, other: Bytes)
    requires q.prefix <= key && q.Folder(key).None?
    requires q.prefix <= other && q.Folder(other).Some?
    ensures !(q.Entry(other) <= key)
  {
    if q.Entry(other) <= key { SameFolder(q, other, key); }
  }

  /** Entries come in key order. */
  lemma EntryMonotone(q: Query, a: Bytes, b: Bytes)
    requires q.prefix <= a && q.prefix <= b && Le(a, b)
    ensures Le(q.Entry(a), q.Entry(b))
  {
    var f, g := q.Entry(a), q.Entry(b);
    Total(f, g);
    PrefixIsLe(f, a);
    if Lt(g, f) {
      var x := b[|g|..];
      assert b == g + x;
      LeTransitive(g, f, a);
      LeTransitive(g, a, b);
      Between(g, a, x);
      if q.Folder(b).Some? {
        SameFolder(q, b, a);
      } else {
        LeTransitive(f, a, b);
        Asymmetric(g, f);
      }
    }
  }

  /** Past an unfolded key, every entry is greater than it. */
  lemma AfterObject(q: Query, a: Bytes, b: Bytes)
    requires q.prefix <= a && q.prefix <= b && Lt(a, b) && q.Folder(a).None?
    ensures Lt(a, q.Entry(b))
  {
    EntryMonotone(q, a, b);
    if q.Entry(b) == a {
      if q.Folder(b).Some? { UnfoldedIsNoFolder(q, a, b); } else { Irreflexive(a); }
    }
  }

  /** `folder ++ 0xFF` is past every key of the folder, and no other key lies before it. */
  lemma SeekIsExact(q: Query, a: Bytes, b: Bytes)
    requires q.prefix <= a && q.Folder(a).Some? && 255 !in b && Le(a, b)
    ensures Lt(b, q.Entry(a) + [255]) <==> q.Entry(a) <= b
  {
    var f := q.Entry(a);
    PrefixIsLe(f, a);
    LeTransitive(f, a, b);
    if Lt(b, f + [255]) {
      Between(f, b, [255]);
    }
    if f <= b {
      var x := b[|f|..];
      assert b == f + x;
      LtUnderPrefix(f, x, [255]);
      assert x == [] || x[0] in b;
    }
  }

  /** Past the seek, every entry is greater than the folder. */
  lemma AfterFolder(q: Query, a: Bytes, b: Bytes)
    requires q.prefix <= a && q.prefix <= b && q.Folder(a).Some? && Le(q.Entry(a) + [255], b) && 255 !in b
    ensures Lt(q.Entry(a), q.Entry(b)) && !(q.Entry(a) <= b)
  {
    var f := q.Entry(a);
    if f <= b {
      var x := b[|f|..];
      assert b == f + x;
      LtUnderPrefix(f, x, [255]);
      assert x == [] || x[0] in b;
      Asymmetric(b, f + [255]);
    }
    assert f <= f + [255];
    PrefixIsLe(f, f + [255]);
    LeTransitive(f, f + [255], b);
    FolderOfFolder(q, a);
    EntryMonotone(q, f, b);
  }

  /** Once one row has been read, no later entry is at or below `startAfter`. */
  lemma OnlyFirstSkipped(q: Query, a: Bytes, b: Bytes)
    requires q.prefix <= a && q.prefix <= b && Lt(a, b) && Le(q.From(), a)
    requires 255 !in b
    requires q.Folder(a).Some? ==> Le(q.Entry(a) + [255], b)
    ensures q.Above(q.Entry(b))
  {
    EntryMonotone(q, a, b);
    if !q.Above(q.Entry(b)) {
      var sa, g := q.startAfter.value, q.Entry(b);
      Total(sa, g);
      PrefixIsLe(q.prefix, g);
      FromCoversStart(q, sa, g);
      LeTransitive(sa, q.From(), a);
      LeTransitive(sa, a, b);
      var x := b[|g|..];
      assert b == g + x;
      Between(g, sa, x);
      if q.Folder(b).None? {
        LeTransitive(b, sa, a);
        Asymmetric(a, b);
      } else {
        LeTransitive(g, sa, a);
        Between(g, a, x);
        SameFolder(q, b, a);
        AfterFolder(q, a, b);
      }
    }
  }

  lemma FromCoversStart(q: Query, sa: Bytes, g: Bytes)
    requires q.startAfter == Some(sa) && q.prefix <= g && Le(g, sa)
    ensures Le(sa, q.From())
  {
    PrefixIsLe(q.prefix, g);
    LeTransitive(q.prefix, g, sa);
  }

  /** Keys before the start of the scan contribute nothing to the listing. */
  lemma BeforeFrom(q: Query, k: Bytes)
    requires q.prefix <= k && Lt(k, q.From())
    ensures !q.Above(q.Entry(k))
  {
    PrefixIsLe(q.prefix, k);
    if q.From() == q.prefix {
      Asymmetric(k, q.prefix);
    } else {
      PrefixIsLe(q.Entry(k), k);
      LeTransitive(q.Entry(k), k, q.startAfter.value);
      if q.Above(q.Entry(k)) { Asymmetric(q.startAfter.value, q.Entry(k)); }
    }
  }

  /** A key past the prefix ends the scan: everything after it is past the prefix too. */
  lemma PastPrefix(q: Query, a: Bytes, b: Bytes)
    requires Le(q.prefix, a) && !(q.prefix <= a) && Le(a, b)
    ensures !(q.prefix <= b)
  {
    if q.prefix <= b {
      var x := b[|q.prefix|..];
      assert b == q.prefix + x;
      Between(q.prefix, a, x);
    }
  }
}
