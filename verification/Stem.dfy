/** The layout-1 file names: one stem per key, short enough for a file name with its suffix. */
module Stem {
  import opened Common
  import opened Bytes

  const META_SUFFIX_LEN: nat := 5
  const HEX_NAME_MAX_KEY: nat := (255 - META_SUFFIX_LEN) / 2
  const B64_NAME_MAX_KEY: nat := 186
  const HASH_NAME_HEAD: nat := 153

  // ---- hex -------------------------------------------------------------------------

  function HexDigit(n: nat): byte
    requires n < 16
  {
    if n < 10 then 48 + n else 87 + n
  }

  function Hex(s: Bytes): (r: Bytes)
    ensures |r| == 2 * |s|
  {
    if s == [] then [] else [HexDigit(s[0] / 16), HexDigit(s[0] % 16)] + Hex(s[1..])
  }

  lemma {:induction false} HexInjective(a: Bytes, b: Bytes)
    requires Hex(a) == Hex(b)
    ensures a == b
    decreases |a|
  {
    assert |Hex(a)| == |Hex(b)|;
    if a != [] {
      assert Hex(a)[0] == HexDigit(a[0] / 16) && Hex(a)[1] == HexDigit(a[0] % 16);
      assert Hex(b)[0] == HexDigit(b[0] / 16) && Hex(b)[1] == HexDigit(b[0] % 16);
      assert Hex(a)[2..] == Hex(a[1..]) && Hex(b)[2..] == Hex(b[1..]);
      HexInjective(a[1..], b[1..]);
      assert a == [a[0]] + a[1..] && b == [b[0]] + b[1..];
    }
  }

  lemma {:induction false} HexHasNoDash(s: Bytes)
    ensures 45 !in Hex(s)
  {
    if s != [] { HexHasNoDash(s[1..]); }
  }

  // ---- base 64 ---------------------------------------------------------------------

  /** The alphabet is `-`, the digits, the capitals, `_` and the small letters: in byte order. */
  function Char64(n: nat): byte
    requires n < 64
  {
    if n == 0 then 45 else if n <= 10 then 47 + n else if n <= 36 then 54 + n else if n == 37 then 95 else 59 + n
  }

  function Sextet(c: byte): (n: nat)
    ensures n < 64
  {
    if 48 <= c <= 57 then c - 47 else if 65 <= c <= 90 then c - 54 else if c == 95 then 37
      else if 97 <= c <= 122 then c - 59 else 0
  }

  predicate InRange(c: int, first: char, last: char) {
    first as int <= c <= last as int
  }

  /** The alphabets: a character is one of the sixteen, or of the sixty-four, if and only if it is a digit or a
      small letter up to `f`, or a letter, a digit, `-` or `_`; and they are numbered in byte order. */
  lemma AlphabetsAre(c: byte, m: nat, n: nat)
    ensures m < n < 16 ==> HexDigit(m) < HexDigit(n)
    ensures m < n < 64 ==> Char64(m) < Char64(n)
    ensures InRange(c, '0', '9') || InRange(c, 'a', 'f') <==> exists k: nat :: k < 16 && HexDigit(k) == c
    ensures InRange(c, '0', '9') || InRange(c, 'A', 'Z') || InRange(c, 'a', 'z') || c == '-' as int || c == '_' as int
            <==> exists k: nat :: k < 64 && Char64(k) == c
  {
    if InRange(c, '0', '9') {
      assert HexDigit(c - 48) == c;
    } else if InRange(c, 'a', 'f') {
      assert HexDigit(c - 87) == c;
    }
    if Char64(Sextet(c)) != c {
      assert !InRange(c, '0', '9') && !InRange(c, 'A', 'Z') && !InRange(c, 'a', 'z');
      assert c != '-' as int && c != '_' as int;
    }
  }

  lemma Char64RoundTrip(n: nat)
    requires n < 64
    ensures Sextet(Char64(n)) == n
  {}

  /** A chunk of up to three bytes as a 24-bit number, left-aligned. */
  function Number(chunk: Bytes): (n: nat)
    requires 1 <= |chunk| <= 3
    ensures n < 0x100_0000
  {
    var a: int := chunk[0];
    var b: int := if |chunk| >= 2 then chunk[1] else 0;
    var c: int := if |chunk| >= 3 then chunk[2] else 0;
    a * 0x1_0000 + b * 0x100 + c
  }

  /** The `i`-th group of six bits. */
  function Group(n: nat, i: nat): (g: nat)
    requires i < 4
    ensures g < 64
  {
    (if i == 0 then n / 0x4_0000 else if i == 1 then n / 0x1000 else if i == 2 then n / 0x40 else n) % 64
  }

  function Chunk64(chunk: Bytes): (r: Bytes)
    requires 1 <= |chunk| <= 3
    ensures |r| == |chunk| + 1 && forall i :: 0 <= i < |r| ==> r[i] == Char64(Group(Number(chunk), i))
  {
    seq(|chunk| + 1, i requires 0 <= i <= |chunk| => Char64(Group(Number(chunk), i)))
  }

  function B64(s: Bytes): Bytes {
    if s == [] then [] else
      var n := if |s| < 3 then |s| else 3;
      Chunk64(s[..n]) + B64(s[n..])
  }

  /** `chunks(3)`, each chunk folded into a number and taken apart six bits at a time. */
  method Encode64(bytes: Bytes) returns (s: Bytes)
    ensures s == B64(bytes)
  {
    hide Chunk64, B64;
    s := [];
    var at := 0;
    assert bytes[0..] == bytes && s + B64(bytes) == B64(bytes);
    while at < |bytes|
      invariant 0 <= at <= |bytes| && s + B64(bytes[at..]) == B64(bytes)
    {
      var n := if |bytes| - at < 3 then |bytes| - at else 3;
      NextChunk(bytes, at, n);
      var out := EncodeChunk(bytes[at..at + n]);
      Associates(s, out, B64(bytes[at + n..]));
      s := s + out;
      at := at + n;
    }
    NothingLeft(bytes);
  }

  lemma NextChunk(bytes: Bytes, at: nat, n: nat)
    requires at < |bytes| && n == (if |bytes| - at < 3 then |bytes| - at else 3)
    ensures B64(bytes[at..]) == Chunk64(bytes[at..at + n]) + B64(bytes[at + n..])
  {
    hide Chunk64;
    assert bytes[at..][..n] == bytes[at..at + n] && bytes[at..][n..] == bytes[at + n..];
  }

  lemma NothingLeft(bytes: Bytes)
    ensures B64(bytes[|bytes|..]) == []
  {}

  method EncodeChunk(chunk: Bytes) returns (out: Bytes)
    requires 1 <= |chunk| <= 3
    ensures out == Chunk64(chunk)
  {
    var n: nat := 0;
    for k := 0 to |chunk|
      invariant n < (if k == 0 then 1 else if k == 1 then 0x100 else if k == 2 then 0x1_0000 else 0x100_0000)
      invariant Shifted(n, 3 - k) == if k == 0 then 0 else Number(chunk[..k])
    {
      assert chunk[..k + 1][..k] == chunk[..k];
      n := n * 0x100 + chunk[k];
    }
    assert chunk[..|chunk|] == chunk;
    n := Shifted(n, 3 - |chunk|);
    out := [];
    for i := 0 to |chunk| + 1
      invariant |out| == i && forall k :: 0 <= k < i ==> out[k] == Char64(Group(n, k))
    {
      out := out + [Char64(Group(n, i))];
    }
  }

  /** `n << (8 * bytes)`. */
  function Shifted(n: nat, bytes: nat): nat
    requires bytes <= 3
  {
    if bytes == 0 then n else if bytes == 1 then n * 0x100 else if bytes == 2 then n * 0x1_0000 else n * 0x100_0000
  }

  function FromGroups(a: nat, b: nat, c: nat, d: nat): nat {
    a * 0x4_0000 + b * 0x1000 + c * 0x40 + d
  }

  lemma GroupsRoundTrip(n: nat)
    requires n < 0x100_0000
    ensures FromGroups(Group(n, 0), Group(n, 1), Group(n, 2), Group(n, 3)) == n
  {
    var x, y := n / 0x40, n / 0x1000;
    assert n == x * 0x40 + n % 64;
    assert x / 0x40 == y && x == y * 0x40 + x % 64;
    assert y / 0x40 == n / 0x4_0000 && y == n / 0x4_0000 * 0x40 + y % 64;
  }

  /** Groups past the last one written are zero. */
  lemma UnwrittenGroups(chunk: Bytes)
    requires 1 <= |chunk| <= 3
    ensures forall i :: |chunk| < i < 4 ==> Group(Number(chunk), i) == 0
  {
    var n := Number(chunk);
    if |chunk| == 1 {
      var a: int := chunk[0];
      assert n == 0x1_0000 * a;
      assert n / 0x40 == 0x400 * a;
    } else if |chunk| == 2 {
      var a: int, b: int := chunk[0], chunk[1];
      assert n == 0x100 * (0x100 * a + b);
    }
  }

  lemma ChunkInjective(a: Bytes, b: Bytes)
    requires 1 <= |a| == |b| <= 3 && Chunk64(a) == Chunk64(b)
    ensures a == b
  {
    var m, n := Number(a), Number(b);
    forall i | 0 <= i < 4 ensures Group(m, i) == Group(n, i) {
      UnwrittenGroups(a);
      UnwrittenGroups(b);
      if i <= |a| {
        Char64RoundTrip(Group(m, i));
        Char64RoundTrip(Group(n, i));
        assert Chunk64(a)[i] == Chunk64(b)[i];
      }
    }
    GroupsRoundTrip(m);
    GroupsRoundTrip(n);
    NumberInjective(a, b);
  }

  lemma NumberInjective(a: Bytes, b: Bytes)
    requires 1 <= |a| == |b| <= 3 && Number(a) == Number(b)
    ensures a == b
  {
    var a0: int, b0: int := a[0], b[0];
    var a1: int, b1: int := if |a| >= 2 then a[1] else 0, if |b| >= 2 then b[1] else 0;
    var a2: int, b2: int := if |a| >= 3 then a[2] else 0, if |b| >= 3 then b[2] else 0;
    assert a0 == b0 && a1 == b1 && a2 == b2;
  }

  /** The length written for `n` bytes: it grows with `n`. */
  function Length64(n: nat): nat {
    n / 3 * 4 + (if n % 3 == 0 then 0 else n % 3 + 1)
  }

  lemma {:induction false} LengthIs(s: Bytes)
    ensures |B64(s)| == Length64(|s|)
    decreases |s|
  {
    if |s| >= 3 {
      LengthIs(s[3..]);
      assert (|s| - 3) / 3 == |s| / 3 - 1 && (|s| - 3) % 3 == |s| % 3;
    } else if s != [] {
      assert s[|s|..] == [];
    }
  }

  lemma LengthInjective(m: nat, n: nat)
    requires Length64(m) == Length64(n)
    ensures m == n
  {
    var (p, q, u, v) := (m / 3, n / 3, m % 3, n % 3);
    assert m == 3 * p + u && n == 3 * q + v;
  }

  /** Unpadded base 64 tells apart any two byte strings, of whatever lengths. */
  lemma {:induction false} B64Injective(a: Bytes, b: Bytes)
    requires B64(a) == B64(b)
    ensures a == b
    decreases |a|
  {
    LengthIs(a);
    LengthIs(b);
    LengthInjective(|a|, |b|);
    if a != [] {
      var n := if |a| < 3 then |a| else 3;
      assert B64(a)[..n + 1] == Chunk64(a[..n]) && B64(b)[..n + 1] == Chunk64(b[..n]);
      assert B64(a)[n + 1..] == B64(a[n..]) && B64(b)[n + 1..] == B64(b[n..]);
      ChunkInjective(a[..n], b[..n]);
      B64Injective(a[n..], b[n..]);
      assert a == a[..n] + a[n..] && b == b[..n] + b[n..];
    }
  }

  /** Which bits each character of the two forms stands for. */
  lemma {:induction false} HexAt(s: Bytes, i: nat)
    requires i < |s|
    ensures Hex(s)[2 * i] == HexDigit(s[i] / 16) && Hex(s)[2 * i + 1] == HexDigit(s[i] % 16)
    decreases |s|
  {
    if i > 0 { HexAt(s[1..], i - 1); }
  }

  predicate ChunkAt(r: Bytes, at: nat, chunk: Bytes)
    requires 1 <= |chunk| <= 3
  {
    var a: nat := chunk[0];
    var b: nat := if |chunk| > 1 then chunk[1] else 0;
    var c: nat := if |chunk| > 2 then chunk[2] else 0;
    && at + |chunk| < |r| && r[at] == Char64(a / 4) && r[at + 1] == Char64(a % 4 * 16 + b / 16)
    && (|chunk| > 1 ==> r[at + 2] == Char64(b % 16 * 4 + c / 64)) && (|chunk| > 2 ==> r[at + 3] == Char64(c % 64))
  }

  lemma GroupBits(a: nat, b: nat, c: nat)
    requires a < 256 && b < 256 && c < 256
    ensures var n := a * 0x1_0000 + b * 0x100 + c;
            && Group(n, 0) == a / 4 && Group(n, 1) == a % 4 * 16 + b / 16
            && Group(n, 2) == b % 16 * 4 + c / 64 && Group(n, 3) == c % 64
  {
    var n := a * 0x1_0000 + b * 0x100 + c;
    var (p, q, x, y, z) := (a / 4, a % 4, b / 16, b % 16, c / 64);
    assert a == 4 * p + q && b == 16 * x + y && c == 64 * z + c % 64;
    assert n / 0x40 == a * 0x400 + b * 4 + z;
    assert n / 0x1000 == a * 0x10 + x;
    assert n / 0x4_0000 == p;
  }

  lemma ChunkBits(chunk: Bytes)
    requires 1 <= |chunk| <= 3
    ensures ChunkAt(Chunk64(chunk), 0, chunk)
  {
    GroupBits(chunk[0], if |chunk| > 1 then chunk[1] else 0, if |chunk| > 2 then chunk[2] else 0);
    hide Group, Char64;
  }

  lemma ChunkMoves(before: Bytes, r: Bytes, more: Bytes, at: nat, chunk: Bytes)
    requires 1 <= |chunk| <= 3 && ChunkAt(r, at, chunk)
    ensures ChunkAt(before + r + more, |before| + at, chunk)
  {
    hide Char64;
    assert forall i :: at <= i < |r| ==> (before + r + more)[|before| + i] == r[i];
  }

  /** The `k`-th chunk of three bytes, or what is left for it. */
  function ChunkOf(s: Bytes, k: nat): (r: Bytes)
    requires 3 * k < |s|
    ensures 1 <= |r| <= 3
  {
    s[3 * k..Min(3 * k + 3, |s|)]
  }

  lemma ChunkOfRest(s: Bytes, k: nat)
    requires 0 < k && 3 * k < |s|
    ensures ChunkOf(s[3..], k - 1) == ChunkOf(s, k)
  {
    var end := Min(3 * k + 3, |s|);
    assert s[3..][3 * k - 3..end - 3] == s[3 * k..end];
  }

  lemma FirstChunk(s: Bytes)
    requires s != []
    ensures |s| >= 3 ==> B64(s) == Chunk64(ChunkOf(s, 0)) + B64(s[3..]) && |Chunk64(ChunkOf(s, 0))| == 4
    ensures exists more :: B64(s) == Chunk64(ChunkOf(s, 0)) + more
  {
    hide Chunk64;
    var n := Min(3, |s|);
    assert ChunkOf(s, 0) == s[..n] && B64(s) == Chunk64(s[..n]) + B64(s[n..]);
  }

  lemma B64AtFirst(s: Bytes)
    requires s != []
    ensures ChunkAt(B64(s), 0, ChunkOf(s, 0))
  {
    FirstChunk(s);
    hide ChunkAt, Chunk64, B64, ChunkOf;
    var first := Chunk64(ChunkOf(s, 0));
    var more :| B64(s) == first + more;
    ChunkBits(ChunkOf(s, 0));
    ChunkMoves([], first, more, 0, ChunkOf(s, 0));
    assert [] + first + more == B64(s);
  }

  lemma B64AtLater(s: Bytes, at: nat, chunk: Bytes)
    requires |s| > 3 && 1 <= |chunk| <= 3 && ChunkAt(B64(s[3..]), at, chunk)
    ensures ChunkAt(B64(s), at + 4, chunk)
  {
    FirstChunk(s);
    hide ChunkAt, Chunk64, B64, ChunkOf;
    var first := Chunk64(ChunkOf(s, 0));
    ChunkMoves(first, B64(s[3..]), [], at, chunk);
    assert first + B64(s[3..]) + [] == B64(s);
  }

  lemma {:induction false} B64At(s: Bytes, k: nat)
    requires 3 * k < |s|
    ensures ChunkAt(B64(s), 4 * k, ChunkOf(s, k))
    decreases |s|
  {
    hide ChunkAt, B64;
    if k == 0 {
      B64AtFirst(s);
    } else {
      B64At(s[3..], k - 1);
      ChunkOfRest(s, k);
      hide ChunkOf;
      B64AtLater(s, 4 * (k - 1), ChunkOf(s, k));
    }
  }

  // ---- stems -----------------------------------------------------------------------

  /** SHA-256 is not interpreted. */
  type Hash = h: Bytes | |h| == 32 witness seq(32, _ => 0)
  type HashOf = Bytes -> Hash

  function ObjectStem(sha: HashOf, key: Bytes): Bytes {
    if |key| <= HEX_NAME_MAX_KEY then Hex(key)
    else if |key| <= B64_NAME_MAX_KEY then [98, 45] + B64(key)
    else [107, 45] + B64(sha(key)) + [46] + B64(key[..HASH_NAME_HEAD])
  }

  /** The three forms, their marks and the lengths at which they change. */
  lemma StemForms(sha: HashOf, key: Bytes)
    ensures |key| <= 125 ==> ObjectStem(sha, key) == Hex(key)
    ensures 125 < |key| <= 186 ==> ObjectStem(sha, key) == ['b' as int, '-' as int] + B64(key)
    ensures 186 < |key| ==>
              ObjectStem(sha, key) == ['k' as int, '-' as int] + B64(sha(key)) + ['.' as int] + B64(key[..153])
  {}

  /** A stem and its suffix always fit in a file name. */
  lemma StemFits(sha: HashOf, key: Bytes)
    ensures |ObjectStem(sha, key)| + META_SUFFIX_LEN <= 255
  {
    LengthIs(key);
    LengthIs(sha(key));
    if |key| > B64_NAME_MAX_KEY { LengthIs(key[..HASH_NAME_HEAD]); }
  }

  predicate Clash(sha: HashOf, a: Bytes, b: Bytes) {
    && |a| > B64_NAME_MAX_KEY && |b| > B64_NAME_MAX_KEY
    && sha(a) == sha(b) && a[..HASH_NAME_HEAD] == b[..HASH_NAME_HEAD]
  }

  /** Two keys share a stem exactly if they are the same, or are two long keys that agree in their first
      bytes and whose hashes collide. */
  lemma SameStem(sha: HashOf, a: Bytes, b: Bytes)
    ensures ObjectStem(sha, a) == ObjectStem(sha, b) <==> a == b || Clash(sha, a, b)
  {
    if ObjectStem(sha, a) == ObjectStem(sha, b) {
      FormsApart(sha, a, b);
      if |a| <= HEX_NAME_MAX_KEY {
        HexInjective(a, b);
      } else if |a| <= B64_NAME_MAX_KEY {
        assert ObjectStem(sha, a)[2..] == B64(a) && ObjectStem(sha, b)[2..] == B64(b);
        B64Injective(a, b);
      } else {
        LongStems(sha, a, b);
      }
    }
  }

  predicate SameForm(a: Bytes, b: Bytes) {
    (|a| <= HEX_NAME_MAX_KEY <==> |b| <= HEX_NAME_MAX_KEY) && (|a| <= B64_NAME_MAX_KEY <==> |b| <= B64_NAME_MAX_KEY)
  }

  /** The three forms have no name in common. */
  lemma FormsApart(sha: HashOf, a: Bytes, b: Bytes)
    requires ObjectStem(sha, a) == ObjectStem(sha, b)
    ensures SameForm(a, b)
  {
    hide Hex, B64;
    HexHasNoDash(a);
    HexHasNoDash(b);
    var s, t := ObjectStem(sha, a), ObjectStem(sha, b);
    assert |a| > HEX_NAME_MAX_KEY ==> s[1] == 45 && s[1] in s;
    assert |b| > HEX_NAME_MAX_KEY ==> t[1] == 45 && t[1] in t;
    assert |a| > HEX_NAME_MAX_KEY ==> s[0] == if |a| <= B64_NAME_MAX_KEY then 98 else 107;
    assert |b| > HEX_NAME_MAX_KEY ==> t[0] == if |b| <= B64_NAME_MAX_KEY then 98 else 107;
  }

  lemma LongStems(sha: HashOf, a: Bytes, b: Bytes)
    requires |a| > B64_NAME_MAX_KEY && |b| > B64_NAME_MAX_KEY && ObjectStem(sha, a) == ObjectStem(sha, b)
    ensures Clash(sha, a, b)
  {
    hide B64;
    var s := ObjectStem(sha, a);
    LengthIs(sha(a));
    LengthIs(sha(b));
    var n := |B64(sha(a))|;
    assert s[2..2 + n] == B64(sha(a)) && s[2..2 + n] == B64(sha(b));
    assert s[3 + n..] == B64(a[..HASH_NAME_HEAD]) && s[3 + n..] == B64(b[..HASH_NAME_HEAD]);
    B64Injective(sha(a), sha(b));
    B64Injective(a[..HASH_NAME_HEAD], b[..HASH_NAME_HEAD]);
  }
}
