/** The database connection preamble: magic, version, then three length-prefixed fields. */
module Preambles {
  import opened Common
  import opened Bytes

  /** "JKDB" */
  const MAGIC: Bytes := [74, 75, 68, 66]
  const VERSION: byte := 1
  const MAX_AKID_LEN: nat := 64
  const MAX_SECRET_LEN: nat := 256
  const MAX_EXPORTER_LEN: nat := 64
  const MAX_PREAMBLE_LEN: nat := 4 + 1 + 1 + MAX_AKID_LEN + 2 + MAX_SECRET_LEN + 1 + MAX_EXPORTER_LEN

  datatype Preamble = Preamble(akid: Bytes, secret: Bytes, exporter: Bytes)

  datatype Progress = Complete(preamble: Preamble, consumed: nat) | Incomplete

  datatype PreambleError = BadMagic | BadVersion(version: byte) | BadLength | NonUtf8

  /** A continuation byte. */
  predicate Follows(b: byte) {
    0x80 <= b <= 0xBF
  }

  /** `str::from_utf8` accepts: the well-formed sequences of section 4 of RFC 3629. */
  predicate Utf8(s: Bytes) {
    if s == [] then true
    else if s[0] <= 0x7F then Utf8(s[1..])
    else if 0xC2 <= s[0] <= 0xDF then |s| >= 2 && Follows(s[1]) && Utf8(s[2..])
    else if 0xE0 <= s[0] <= 0xEF then
      && |s| >= 3 && Follows(s[1]) && Follows(s[2])
      && (s[0] == 0xE0 ==> s[1] >= 0xA0) && (s[0] == 0xED ==> s[1] <= 0x9F) && Utf8(s[3..])
    else if 0xF0 <= s[0] <= 0xF4 then
      && |s| >= 4 && Follows(s[1]) && Follows(s[2]) && Follows(s[3])
      && (s[0] == 0xF0 ==> s[1] >= 0x90) && (s[0] == 0xF4 ==> s[1] <= 0x8F) && Utf8(s[4..])
    else false
  }

  // ---- strings -----------------------------------------------------------------------

  /** A Unicode scalar value. */
  predicate Scalar(c: nat) {
    c < 0xD800 || 0xE000 <= c < 0x11_0000
  }

  /** The encoding of a scalar value, from the table in section 3 of RFC 3629. */
  function Utf8Of(c: nat): Bytes
    requires Scalar(c)
  {
    if c < 0x80 then [c]
    else if c < 0x800 then [0xC0 + c / 0x40, Low(c)]
    else if c < 0x1_0000 then [0xE0 + c / 0x1000, Low(c / 0x40), Low(c)]
    else [0xF0 + c / 0x4_0000, Low(c / 0x1000), Low(c / 0x40), Low(c)]
  }

  /** The last six bits, in a continuation byte. */
  function Low(c: nat): (b: byte)
    ensures Follows(b)
  {
    0x80 + c % 0x40
  }

  function Utf8OfAll(cs: seq<nat>): Bytes
    requires forall i :: 0 <= i < |cs| ==> Scalar(cs[i])
  {
    if cs == [] then [] else Utf8Of(cs[0]) + Utf8OfAll(cs[1..])
  }

  lemma Utf8Step(c: nat, s: Bytes)
    requires Scalar(c)
    ensures Utf8(Utf8Of(c) + s) <==> Utf8(s)
  {
    var t := Utf8Of(c);
    assert (t + s)[|t|..] == s;
  }

  lemma {:induction false} EncodedIsUtf8(cs: seq<nat>)
    requires forall i :: 0 <= i < |cs| ==> Scalar(cs[i])
    ensures Utf8(Utf8OfAll(cs))
  {
    if cs != [] {
      EncodedIsUtf8(cs[1..]);
      Utf8Step(cs[0], Utf8OfAll(cs[1..]));
    }
  }

  lemma TwoBytes(a: byte, b: byte) returns (c: nat)
    requires 0xC2 <= a <= 0xDF && Follows(b)
    ensures Scalar(c) && Utf8Of(c) == [a, b]
  {
    c := (a - 0xC0) * 0x40 + (b - 0x80);
  }

  lemma ThreeBytes(a: byte, b: byte, d: byte) returns (c: nat)
    requires 0xE0 <= a <= 0xEF && Follows(b) && Follows(d)
    requires (a == 0xE0 ==> b >= 0xA0) && (a == 0xED ==> b <= 0x9F)
    ensures Scalar(c) && Utf8Of(c) == [a, b, d]
  {
    c := (a - 0xE0) * 0x1000 + (b - 0x80) * 0x40 + (d - 0x80);
    assert c / 0x40 == (a - 0xE0) * 0x40 + (b - 0x80) && c / 0x1000 == a - 0xE0;
  }

  lemma FourBytes(a: byte, b: byte, d: byte, e: byte) returns (c: nat)
    requires 0xF0 <= a <= 0xF4 && Follows(b) && Follows(d) && Follows(e)
    requires (a == 0xF0 ==> b >= 0x90) && (a == 0xF4 ==> b <= 0x8F)
    ensures Scalar(c) && Utf8Of(c) == [a, b, d, e]
  {
    c := (a - 0xF0) * 0x4_0000 + (b - 0x80) * 0x1000 + (d - 0x80) * 0x40 + (e - 0x80);
    assert c / 0x40 == (a - 0xF0) * 0x1000 + (b - 0x80) * 0x40 + (d - 0x80);
    assert c / 0x1000 == (a - 0xF0) * 0x40 + (b - 0x80) && c / 0x4_0000 == a - 0xF0;
  }

  lemma FirstScalar(s: Bytes) returns (c: nat, n: nat)
    requires s != [] && Utf8(s)
    ensures 0 < n <= |s| && Utf8(s[n..]) && Scalar(c) && Utf8Of(c) == s[..n]
  {
    if s[0] <= 0x7F {
      c, n := s[0], 1;
    } else if s[0] <= 0xDF {
      n := 2;
      c := TwoBytes(s[0], s[1]);
    } else if s[0] <= 0xEF {
      n := 3;
      c := ThreeBytes(s[0], s[1], s[2]);
    } else {
      n := 4;
      c := FourBytes(s[0], s[1], s[2], s[3]);
    }
  }

  /** The bytes accepted are exactly the encodings of sequences of scalar values. */
  lemma {:induction false} Utf8Exactly(s: Bytes)
    ensures Utf8(s) <==> exists cs: seq<nat> :: (forall i :: 0 <= i < |cs| ==> Scalar(cs[i])) && Utf8OfAll(cs) == s
  {
    if Utf8(s) { var cs := ScalarsOf(s); }
    if cs: seq<nat> :| (forall i :: 0 <= i < |cs| ==> Scalar(cs[i])) && Utf8OfAll(cs) == s { EncodedIsUtf8(cs); }
  }

  lemma {:induction false} ScalarsOf(s: Bytes) returns (cs: seq<nat>)
    requires Utf8(s)
    ensures (forall i :: 0 <= i < |cs| ==> Scalar(cs[i])) && Utf8OfAll(cs) == s
    decreases |s|
  {
    if s == [] {
      cs := [];
    } else {
      var c, n := FirstScalar(s);
      hide Utf8, Utf8Of, Scalar;
      var rest := ScalarsOf(s[n..]);
      cs := [c] + rest;
      assert cs[1..] == rest && s == s[..n] + s[n..];
    }
  }

  function Parse(buf: Bytes): Result<Progress, PreambleError> {
    if |buf| < 6 then Ok(Incomplete)
    else if buf[0..4] != MAGIC then Err(BadMagic)
    else if buf[4] != VERSION then Err(BadVersion(buf[4]))
    else
      var akidLen: nat := buf[5];
      if akidLen == 0 || akidLen > MAX_AKID_LEN then Err(BadLength)
      else ParseSecret(buf, 6 + akidLen)
  }

  /** From the secret's length on. */
  function ParseSecret(buf: Bytes, at: nat): Result<Progress, PreambleError>
    requires 6 < at
  {
    if |buf| < at + 2 then Ok(Incomplete)
    else if !Utf8(buf[6..at]) then Err(NonUtf8)
    else
      var hi: nat, lo: nat := buf[at], buf[at + 1];
      var secretLen := hi * 0x100 + lo;
      if secretLen == 0 || secretLen > MAX_SECRET_LEN then Err(BadLength)
      else ParseExporter(buf, at, at + 2 + secretLen)
  }

  /** From the exporter's length on. */
  function ParseExporter(buf: Bytes, secretLenAt: nat, at: nat): Result<Progress, PreambleError>
    requires 6 < secretLenAt && secretLenAt + 2 < at
  {
    if |buf| < at + 1 then Ok(Incomplete)
    else if !Utf8(buf[secretLenAt + 2..at]) then Err(NonUtf8)
    else
      var exporterLen: nat := buf[at];
      var end := at + 1 + exporterLen;
      if exporterLen == 0 || exporterLen > MAX_EXPORTER_LEN then Err(BadLength)
      else if |buf| < end then Ok(Incomplete)
      else Ok(Complete(Preamble(buf[6..secretLenAt], buf[secretLenAt + 2..at], buf[at + 1..end]), end))
  }

  predicate FieldsFit(p: Preamble) {
    && 0 < |p.akid| <= MAX_AKID_LEN && 0 < |p.secret| <= MAX_SECRET_LEN && 0 < |p.exporter| <= MAX_EXPORTER_LEN
  }

  /** A preamble a client can send: the first two fields are strings. */
  predicate Sendable(p: Preamble) {
    FieldsFit(p) && Utf8(p.akid) && Utf8(p.secret)
  }

  function Encoded(p: Preamble): Bytes
    requires FieldsFit(p)
  {
    MAGIC + [VERSION, |p.akid|] + p.akid + [|p.secret| / 0x100, |p.secret| % 0x100] + p.secret + [|p.exporter|] +
      p.exporter
  }

  /** Refused exactly when a field is empty or too long. */
  method Encode(akid: Bytes, secret: Bytes, exporter: Bytes) returns (r: Option<Bytes>)
    ensures r.Some? <==> 1 <= |akid| <= 64 && 1 <= |secret| <= 256 && 1 <= |exporter| <= 64
    ensures r.Some? ==> r.value == Encoded(Preamble(akid, secret, exporter))
  {
    if akid == [] || |akid| > MAX_AKID_LEN || secret == [] || |secret| > MAX_SECRET_LEN || exporter == [] ||
      |exporter| > MAX_EXPORTER_LEN {
      return None;
    }
    var out := MAGIC;
    out := out + [VERSION];
    out := out + [|akid|];
    out := out + akid;
    out := out + [|secret| / 0x100, |secret| % 0x100];
    out := out + secret;
    out := out + [|exporter|];
    out := out + exporter;
    assert MAGIC + [VERSION, |akid|] == MAGIC + [VERSION] + [|akid|];
    return Some(out);
  }

  /** `ct_eq`: no early exit, and yet equality. */
  method CtEq(a: seq<bv8>, b: seq<bv8>) returns (equal: bool)
    ensures equal <==> a == b
  {
    if |a| != |b| { return false; }
    var diff: bv8 := 0;
    for i := 0 to |a|
      invariant diff == 0 <==> forall k :: 0 <= k < i ==> a[k] == b[k]
    {
      NoDifference(diff, a[i], b[i]);
      diff := diff | (a[i] ^ b[i]);
    }
    return diff == 0;
  }

  lemma NoDifference(d: bv8, x: bv8, y: bv8)
    ensures d | (x ^ y) == 0 <==> d == 0 && x == y
  {}

  // ---- laws ------------------------------------------------------------------------

  /** Where the parts of an encoding lie. */
  lemma Layout(p: Preamble, more: Bytes)
    requires FieldsFit(p)
    ensures var buf := Encoded(p) + more;
            var s := 6 + |p.akid|;
            var x := s + 2 + |p.secret|;
            var end := x + 1 + |p.exporter|;
            && |Encoded(p)| == end && buf[0..4] == ['J' as int, 'K' as int, 'D' as int, 'B' as int] && buf[4] == 1
            && buf[5] == |p.akid| && buf[6..s] == p.akid
            && buf[s] == |p.secret| / 0x100 && buf[s + 1] == |p.secret| % 0x100 && buf[s + 2..x] == p.secret
            && buf[x] == |p.exporter| && buf[x + 1..end] == p.exporter
  {
    var a := MAGIC + [VERSION, |p.akid|];
    var b := a + p.akid;
    var c := b + [|p.secret| / 0x100, |p.secret| % 0x100];
    var d := c + p.secret;
    var e := d + [|p.exporter|];
    assert Encoded(p) == e + p.exporter;
  }

  /** An encoding followed by anything is read back, and only its own bytes are consumed. */
  lemma RoundTrip(p: Preamble, more: Bytes)
    requires Sendable(p)
    ensures Parse(Encoded(p) + more) == Ok(Complete(p, |Encoded(p)|))
  {
    hide Encoded, Utf8;
    Layout(p, more);
  }

  /** What is read back encodes to exactly the bytes consumed. */
  lemma CompleteReencodes(buf: Bytes)
    requires Parse(buf).Ok? && Parse(buf).value.Complete?
    ensures var Complete(p, consumed) := Parse(buf).value;
            Sendable(p) && consumed <= |buf| && Encoded(p) == buf[..consumed]
  {
    hide Utf8, Encoded;
    var Complete(p, end) := Parse(buf).value;
    var s: nat := 6 + |p.akid|;
    var x := s + 2 + |p.secret|;
    var hi: nat, lo: nat := buf[s], buf[s + 1];
    assert |p.akid| == buf[5] && |p.secret| == hi * 0x100 + lo && |p.exporter| == buf[x];
    assert |p.secret| / 0x100 == hi && |p.secret| % 0x100 == lo;
    EncodedIs(p, buf[..end]);
  }

  /** The layout determines the encoding. */
  lemma EncodedIs(p: Preamble, buf: Bytes)
    requires FieldsFit(p)
    requires var s := 6 + |p.akid|; var x := s + 2 + |p.secret|; var end := x + 1 + |p.exporter|;
             && |buf| == end && buf[0..4] == MAGIC && buf[4] == VERSION && buf[5] == |p.akid| && buf[6..s] == p.akid
             && buf[s] == |p.secret| / 0x100 && buf[s + 1] == |p.secret| % 0x100 && buf[s + 2..x] == p.secret
             && buf[x] == |p.exporter| && buf[x + 1..end] == p.exporter
    ensures Encoded(p) == buf
  {
    hide Encoded;
    Layout(p, []);
    var e, s := Encoded(p) + [], 6 + |p.akid|;
    var x := s + 2 + |p.secret|;
    forall i | 0 <= i < |buf| ensures e[i] == buf[i] {
      if i < 4 { assert e[i] == e[0..4][i] && buf[i] == buf[0..4][i]; }
      else if 6 <= i < s { assert e[i] == e[6..s][i - 6] && buf[i] == buf[6..s][i - 6]; }
      else if s + 2 <= i < x { assert e[i] == e[s + 2..x][i - (s + 2)] && buf[i] == buf[s + 2..x][i - (s + 2)]; }
      else if x + 1 <= i { assert e[i] == e[x + 1..|buf|][i - (x + 1)] && buf[i] == buf[x + 1..|buf|][i - (x + 1)]; }
    }
    assert e == Encoded(p);
  }

  lemma SameSlice(buf: Bytes, more: Bytes, i: nat, j: nat)
    requires i <= j <= |buf|
    ensures (buf + more)[i..j] == buf[i..j]
  {}

  lemma ExporterStands(buf: Bytes, more: Bytes, s: nat, x: nat)
    requires 6 < s && s + 2 < x && ParseExporter(buf, s, x) != Ok(Incomplete)
    ensures ParseExporter(buf + more, s, x) == ParseExporter(buf, s, x)
  {
    hide Utf8;
    SameSlice(buf, more, 6, s);
    SameSlice(buf, more, s + 2, x);
    var n: nat := buf[x];
    if x + 1 + n <= |buf| { SameSlice(buf, more, x + 1, x + 1 + n); }
  }

  lemma SecretStands(buf: Bytes, more: Bytes, s: nat)
    requires 6 < s && ParseSecret(buf, s) != Ok(Incomplete)
    ensures ParseSecret(buf + more, s) == ParseSecret(buf, s)
  {
    hide Utf8, ParseExporter;
    SameSlice(buf, more, 6, s);
    var hi: nat, lo: nat := buf[s], buf[s + 1];
    var n := hi * 0x100 + lo;
    if Utf8(buf[6..s]) && 0 < n <= MAX_SECRET_LEN { ExporterStands(buf, more, s, s + 2 + n); }
  }

  /** A verdict never changes when more bytes arrive. */
  lemma VerdictStands(buf: Bytes, more: Bytes)
    requires Parse(buf) != Ok(Incomplete)
    ensures Parse(buf + more) == Parse(buf)
  {
    hide Utf8, ParseSecret;
    SameSlice(buf, more, 0, 4);
    var n: nat := buf[5];
    if buf[0..4] == MAGIC && buf[4] == VERSION && 0 < n <= MAX_AKID_LEN { SecretStands(buf, more, 6 + n); }
  }

  /** Every strict prefix of an encoding asks for more. */
  lemma PrefixIsIncomplete(p: Preamble, n: nat)
    requires Sendable(p) && n < |Encoded(p)|
    ensures Parse(Encoded(p)[..n]) == Ok(Incomplete)
  {
    hide Parse, Encoded, Utf8;
    var all := Encoded(p);
    var start := all[..n];
    assert start + all[n..] == all && all + [] == all;
    RoundTrip(p, []);
    if Parse(start) != Ok(Incomplete) {
      VerdictStands(start, all[n..]);
      CompleteReencodes(start);
    }
  }

  /** No more than the longest preamble is ever waited for. */
  lemma IncompleteIsShort(buf: Bytes)
    requires Parse(buf) == Ok(Incomplete)
    ensures |buf| < MAX_PREAMBLE_LEN
  {
    hide Utf8;
  }

  // ---- every verdict -----------------------------------------------------------------------------

  predicate Headed(buf: Bytes) {
    |buf| >= 6 && buf[0..4] == ['J' as int, 'K' as int, 'D' as int, 'B' as int] && buf[4] == 1
  }

  /** The access key is there, and the two bytes of the secret's length after it. */
  predicate Keyed(buf: Bytes, n: nat) {
    Headed(buf) && n == buf[5] && 1 <= n <= 64 && |buf| >= n + 8 && Utf8(buf[6..n + 6])
  }

  function SecretLen(buf: Bytes, n: nat): nat
    requires |buf| >= n + 8
  {
    var (high: nat, low: nat) := (buf[n + 6], buf[n + 7]);
    0x100 * high + low
  }

  /** So is the secret, and the byte of the exporter's length after it. */
  predicate Told(buf: Bytes, n: nat, m: nat) {
    && Keyed(buf, n) && SecretLen(buf, n) == m && 1 <= m <= 256
    && |buf| >= n + m + 9 && Utf8(buf[n + 8..n + m + 8])
  }

  /** From the front: the mark, the version, then each length as soon as it is there and each string as soon
      as the length after it is. */
  lemma HeadVerdicts(buf: Bytes)
    ensures |buf| < 6 ==> Parse(buf) == Ok(Incomplete)
    ensures |buf| >= 6 && buf[0..4] != ['J' as int, 'K' as int, 'D' as int, 'B' as int] ==> Parse(buf) == Err(BadMagic)
    ensures |buf| >= 6 && buf[0..4] == ['J' as int, 'K' as int, 'D' as int, 'B' as int] && buf[4] != 1 ==>
              Parse(buf) == Err(BadVersion(buf[4]))
    ensures Headed(buf) && !(1 <= buf[5] <= 64) ==> Parse(buf) == Err(BadLength)
    ensures Headed(buf) && 1 <= buf[5] <= 64 && |buf| < 8 + buf[5] ==> Parse(buf) == Ok(Incomplete)
    ensures Headed(buf) && 1 <= buf[5] <= 64 && |buf| >= 8 + buf[5] && !Utf8(buf[6..6 + buf[5]]) ==>
              Parse(buf) == Err(NonUtf8)
  {
    hide Utf8;
  }

  lemma BodyVerdicts(buf: Bytes, n: nat, m: nat)
    requires Keyed(buf, n) && m == SecretLen(buf, n)
    ensures !(1 <= m <= 256) ==> Parse(buf) == Err(BadLength)
    ensures 1 <= m <= 256 && |buf| < n + m + 9 ==> Parse(buf) == Ok(Incomplete)
    ensures 1 <= m <= 256 && |buf| >= n + m + 9 && !Utf8(buf[n + 8..n + m + 8]) ==> Parse(buf) == Err(NonUtf8)
  {
    hide Utf8;
  }

  lemma TailVerdicts(buf: Bytes, n: nat, m: nat, k: nat)
    requires Told(buf, n, m) && k == buf[n + m + 8]
    ensures !(1 <= k <= 64) ==> Parse(buf) == Err(BadLength)
    ensures 1 <= k <= 64 && |buf| < n + m + k + 9 ==> Parse(buf) == Ok(Incomplete)
    ensures var p := Preamble(buf[6..n + 6], buf[n + 8..n + m + 8], buf[n + m + 9..Min(|buf|, n + m + k + 9)]);
            1 <= k <= 64 && |buf| >= n + m + k + 9 ==> Parse(buf) == Ok(Complete(p, n + m + k + 9))
  {
    hide Utf8;
  }
}
