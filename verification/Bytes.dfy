/** Byte strings in the order a B-tree table keeps its keys. */
module Bytes {

  type byte = x: int | 0 <= x < 256
  type Bytes = seq<byte>

  /** Strict lexicographic order, a proper prefix first. */
  predicate Lt(a: Bytes, b: Bytes) {
    b != [] && (a == [] || a[0] < b[0] || (a[0] == b[0] && Lt(a[1..], b[1..])))
  }

  predicate Le(a: Bytes, b: Bytes) {
    a == b || Lt(a, b)
  }

  lemma {:induction false} Irreflexive(a: Bytes)
    ensures !Lt(a, a)
  {
    if a != [] { Irreflexive(a[1..]); }
  }

  lemma {:induction false} Transitive(a: Bytes, b: Bytes, c: Bytes)
    requires Lt(a, b) && Lt(b, c)
    ensures Lt(a, c)
  {
    if a != [] && a[0] == b[0] == c[0] { Transitive(a[1..], b[1..], c[1..]); }
  }

  lemma {:induction false} Total(a: Bytes, b: Bytes)
    ensures Lt(a, b) || a == b || Lt(b, a)
  {
    if a != [] && b != [] && a[0] == b[0] {
      Total(a[1..], b[1..]);
      assert a == [a[0]] + a[1..] && b == [b[0]] + b[1..];
    }
  }

  lemma Asymmetric(a: Bytes, b: Bytes)
    requires Lt(a, b)
    ensures !Le(b, a)
  {
    Irreflexive(a);
    if Lt(b, a) { Transitive(a, b, a); }
  }

  lemma LeTransitive(a: Bytes, b: Bytes, c: Bytes)
    requires Le(a, b) && Le(b, c)
    ensures Le(a, c)
    ensures a != c && (a != b || b != c) ==> Lt(a, c)
  {
    if Lt(a, b) && Lt(b, c) { Transitive(a, b, c); }
  }

  /** A common prefix does not matter to the order. */
  lemma {:induction false} LtUnderPrefix(p: Bytes, a: Bytes, b: Bytes)
    ensures Lt(p + a, p + b) == Lt(a, b)
  {
    if p == [] {
      assert p + a == a && p + b == b;
    } else {
      LtUnderPrefix(p[1..], a, b);
      assert (p + a)[1..] == p[1..] + a && (p + b)[1..] == p[1..] + b;
    }
  }

  lemma LeUnderPrefix(p: Bytes, a: Bytes, b: Bytes)
    ensures Le(p + a, p + b) == Le(a, b)
  {
    LtUnderPrefix(p, a, b);
    if p + a == p + b {
      assert a == (p + a)[|p|..] == (p + b)[|p|..] == b;
    }
  }

  lemma PrefixIsLe(p: Bytes, s: Bytes)
    requires p <= s
    ensures Le(p, s)
  {
    var r := s[|p|..];
    assert s == p + r && p == p + [];
    LeUnderPrefix(p, [], r);
  }

  /** Whatever lies between a string and one of its extensions extends it too. */
  lemma {:induction false} Between(p: Bytes, s: Bytes, x: Bytes)
    requires Le(p, s) && Le(s, p + x)
    ensures p <= s
  {
    if p != [] {
      if s == p + x { return; }
      assert (p + x)[1..] == p[1..] + x;
      Between(p[1..], s[1..], x);
    }
  }

  /** `[p ++ lo, p ++ hi)` for one byte apart: exactly the strings that start with `p ++ lo`. */
  lemma {:induction false} UnitRange(p: Bytes, c: byte, s: Bytes)
    requires c < 255
    ensures Le(p + [c], s) && Lt(s, p + [c + 1]) <==> p + [c] <= s
  {
    if p == [] {
      assert p + [c] == [c] && p + [c + 1] == [c + 1];
      if s != [] && s[0] == c { assert [c] <= s; PrefixIsLe([c], s); }
    } else {
      assert (p + [c])[1..] == p[1..] + [c] && (p + [c + 1])[1..] == p[1..] + [c + 1];
      if s != [] {
        UnitRange(p[1..], c, s[1..]);
        if p + [c] <= s { assert p[1..] + [c] <= s[1..]; }
        assert s == [s[0]] + s[1..] && p + [c] == [p[0]] + (p[1..] + [c]);
      }
    }
  }

  predicate Ascends(s: seq<Bytes>) {
    forall i, j :: 0 <= i < j < |s| ==> Lt(s[i], s[j])
  }

  ghost predicate IsLeast(m: Bytes, s: set<Bytes>) {
    m in s && forall y :: y in s ==> Le(m, y)
  }

  method Least(s: set<Bytes>) returns (m: Bytes)
    requires s != {}
    ensures IsLeast(m, s)
  {
    m :| m in s;
    var todo := s - {m};
    while todo != {}
      invariant todo <= s && m in s
      invariant forall y :: y in s - todo ==> Le(m, y)
      decreases todo
    {
      var x :| x in todo;
      todo := todo - {x};
      Total(x, m);
      if Lt(x, m) {
        forall y | y in s - todo ensures Le(x, y) {
          if y != x { LeTransitive(x, m, y); }
        }
        m := x;
      }
    }
  }

  ghost predicate Lists(r: seq<Bytes>, s: set<Bytes>) {
    Ascends(r) && (forall x :: x in r <==> x in s) && |r| == |s|
  }

  /** Iterating a table: its keys in ascending order. */
  method Enumerate(s: set<Bytes>) returns (r: seq<Bytes>)
    ensures Lists(r, s)
    ensures r == Ascending(s)
  {
    r := [];
    var todo := s;
    while todo != {}
      invariant todo <= s && Lists(r, s - todo)
      invariant forall x, y :: x in r && y in todo ==> Lt(x, y)
      decreases todo
    {
      var m := Least(todo);
      assert s - (todo - {m}) == (s - todo) + {m};
      forall y | y in todo - {m} ensures Lt(m, y) { }
      r, todo := r + [m], todo - {m};
    }
    assert s - todo == s;
    AscendingUnique(r, Ascending(s));
  }

  lemma {:induction false} ListingExists(s: set<Bytes>)
    ensures exists r :: Lists(r, s)
  {
    if s == {} {
      assert Lists([], s);
    } else {
      LeastExists(s);
      var m :| IsLeast(m, s);
      ListingExists(s - {m});
      var r :| Lists(r, s - {m});
      assert s == (s - {m}) + {m};
      assert forall i :: 0 <= i < |r| ==> r[i] in s - {m};
      assert Lists([m] + r, s);
    }
  }

  lemma {:induction false} LeastExists(s: set<Bytes>)
    requires s != {}
    ensures exists m :: IsLeast(m, s)
    decreases s
  {
    var x :| x in s;
    var rest := s - {x};
    assert s == rest + {x};
    if rest == {} {
      assert IsLeast(x, s);
    } else {
      LeastExists(rest);
      var n :| IsLeast(n, rest);
      Total(n, x);
      var m := if Lt(n, x) then n else x;
      forall y | y in s ensures Le(m, y) {
        if y != x { LeTransitive(m, n, y); }
      }
      assert IsLeast(m, s);
    }
  }

  /** The elements of `s` in ascending order. */
  ghost function Ascending(s: set<Bytes>): (r: seq<Bytes>)
    ensures Lists(r, s)
  {
    ListingExists(s);
    var r :| Lists(r, s);
    r
  }

  /** Ascending sequences with the same elements are the same sequence. */
  lemma {:induction false} AscendingUnique(a: seq<Bytes>, b: seq<Bytes>)
    requires Ascends(a) && Ascends(b)
    requires forall x :: x in a <==> x in b
    ensures a == b
  {
    assert b == [] || b[0] in b;
    if a != [] {
      assert a[0] in b;
      assert b[0] in a;
      if a[0] != b[0] {
        Asymmetric(a[0], b[0]);
        assert false;
      }
      forall x | x in a[1..] ensures x in b[1..] { Irreflexive(x); assert x in b; }
      forall x | x in b[1..] ensures x in a[1..] { Irreflexive(x); assert x in a; }
      AscendingUnique(a[1..], b[1..]);
      assert a == [a[0]] + a[1..] && b == [b[0]] + b[1..];
    }
  }
}
