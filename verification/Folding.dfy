/** What a listing is to show, said with occurrences of the delimiter alone. */
module Folding {
  import opened Common
  import opened Bytes
  import opened Search
  import opened Listing
  import opened Tables
  import opened Scan

  /** The first occurrence of the delimiter in `key` after the prefix is at `i`. */
  ghost predicate FoldsAt(q: Query, key: Bytes, i: nat) {
    && q.delimiter.Some? && q.delimiter.value != [] && q.prefix <= key
    && OccursAt(key[|q.prefix|..], q.delimiter.value, i)
    && forall j :: 0 <= j < i ==> !OccursAt(key[|q.prefix|..], q.delimiter.value, j)
  }

  /** `key` is shown as the folder `f`: itself up to and with that occurrence. */
  ghost predicate FoldsTo(q: Query, key: Bytes, f: Bytes) {
    exists i: nat :: FoldsAt(q, key, i) && f == key[..|q.prefix| + i + |q.delimiter.value|]
  }

  /** `key` is shown as itself: there is no delimiter, an empty one, or it occurs nowhere after the prefix. */
  ghost predicate Unfolded(q: Query, key: Bytes) {
    && q.prefix <= key
    && (q.delimiter.None? || q.delimiter.value == [] ||
        forall i: nat :: !OccursAt(key[|q.prefix|..], q.delimiter.value, i))
  }

  lemma FolderIs(q: Query, key: Bytes, i: nat)
    requires FoldsAt(q, key, i)
    ensures q.Folder(key) == Some(key[..|q.prefix| + i + |q.delimiter.value|])
  {
    var s, d := key[|q.prefix|..], q.delimiter.value;
    assert OccursAt(s, d, i);
    assert Find(s, d) == Some(i);
  }

  lemma FolderExactly(q: Query, key: Bytes)
    requires q.prefix <= key
    ensures q.Folder(key).None? <==> Unfolded(q, key)
    ensures forall f :: FoldsTo(q, key, f) <==> q.Folder(key) == Some(f)
  {
    if q.Folder(key).Some? {
      var i := Find(key[|q.prefix|..], q.delimiter.value).value;
      assert OccursAt(key[|q.prefix|..], q.delimiter.value, i);
      assert FoldsAt(q, key, i);
    }
    forall f | FoldsTo(q, key, f) ensures q.Folder(key) == Some(f) {
      var i: nat :| FoldsAt(q, key, i) && f == key[..|q.prefix| + i + |q.delimiter.value|];
      FolderIs(q, key, i);
    }
  }

  ghost predicate After(q: Query, e: Bytes) {
    q.startAfter.Some? ==> Lt(q.startAfter.value, e)
  }

  /** `f` is to be shown as a folder: some key of the bucket folds to it. */
  ghost predicate IsFolder(q: Query, objects: map<Bytes, ObjectMeta>, base: Bytes, f: Bytes) {
    After(q, f) && exists key :: base + key in objects && FoldsTo(q, key, f)
  }

  /** `key` is to be shown as an object. */
  ghost predicate IsObject(q: Query, objects: map<Bytes, ObjectMeta>, base: Bytes, key: Bytes) {
    After(q, key) && base + key in objects && Unfolded(q, key)
  }

  lemma KeyIsUnder(objects: map<Bytes, ObjectMeta>, base: Bytes, key: Bytes)
    ensures key in KeysUnder(objects, base) <==> base + key in objects
  {
    if key in KeysUnder(objects, base) {
      var full :| full in objects && base <= full && key == full[|base|..];
      assert full == base + key;
    }
    if base + key in objects { assert (base + key)[|base|..] == key; }
  }

  /** The entries of the listing are the folders and the objects. */
  lemma EntryExactly(q: Query, objects: map<Bytes, ObjectMeta>, base: Bytes, e: Bytes)
    ensures e in q.Entries(KeysUnder(objects, base)) <==> IsFolder(q, objects, base, e) || IsObject(q, objects, base, e)
  {
    var keys := KeysUnder(objects, base);
    if e in q.Entries(keys) {
      var k :| k in keys && q.prefix <= k && q.Above(q.Entry(k)) && e == q.Entry(k);
      KeyIsUnder(objects, base, k);
      FolderExactly(q, k);
    }
    if IsFolder(q, objects, base, e) {
      var k :| base + k in objects && FoldsTo(q, k, e);
      KeyIsUnder(objects, base, k);
      FolderExactly(q, k);
    }
    if IsObject(q, objects, base, e) {
      KeyIsUnder(objects, base, e);
      FolderExactly(q, e);
    }
  }

  /** An entry folds to itself if it is a folder, and not at all if it is an object. */
  lemma EntryFolds(q: Query, objects: map<Bytes, ObjectMeta>, base: Bytes, e: Bytes)
    requires e in q.Entries(KeysUnder(objects, base))
    ensures q.prefix <= e
    ensures q.Folder(e).Some? <==> IsFolder(q, objects, base, e)
    ensures q.Folder(e).None? <==> IsObject(q, objects, base, e)
  {
    var keys := KeysUnder(objects, base);
    EntryExactly(q, objects, base, e);
    var k :| k in keys && q.prefix <= k && q.Above(q.Entry(k)) && e == q.Entry(k);
    FolderExactly(q, e);
    if IsFolder(q, objects, base, e) {
      var l :| base + l in objects && FoldsTo(q, l, e);
      FolderExactly(q, l);
      FolderOfFolder(q, l);
    }
  }
}
