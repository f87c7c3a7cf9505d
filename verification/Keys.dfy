/** The composite table keys: `bucket \0 key`, `bucket \0 upload_id`, `upload_id \0 part (u32 BE)`. */
module Keys {
  import opened Bytes

  type u32 = x: int | 0 <= x < 0x1_0000_0000

  predicate NoNul(s: Bytes) {
    0 !in s
  }

  function ObjKey(bucket: Bytes, key: Bytes): Bytes {
    bucket + [0] + key
  }

  function UploadKey(bucket: Bytes, uploadId: Bytes): Bytes {
    bucket + [0] + uploadId
  }

  function Be32(n: u32): Bytes {
    [n / 0x100_0000, n / 0x1_0000 % 0x100, n / 0x100 % 0x100, n % 0x100]
  }

  function FromBe32(s: Bytes): (n: u32)
    requires |s| == 4
  {
    var (a: int, b: int, c: int) := (s[0], s[1], s[2]);
    a * 0x100_0000 + b * 0x1_0000 + c * 0x100 + s[3]
  }

  lemma Be32RoundTrip(n: u32)
    ensures |Be32(n)| == 4 && FromBe32(Be32(n)) == n
  {
    var h := n / 0x100;
    var hh := n / 0x1_0000;
    assert h / 0x100 == hh && hh / 0x100 == n / 0x100_0000;
    assert n == h * 0x100 + n % 0x100;
    assert h == hh * 0x100 + h % 0x100;
    assert hh == (hh / 0x100) * 0x100 + hh % 0x100;
  }

  lemma FromBe32RoundTrip(s: Bytes)
    requires |s| == 4
    ensures Be32(FromBe32(s)) == s
  {
    var a: int, b: int, c: int := s[0], s[1], s[2];
    var n, x := FromBe32(s), a * 0x100 + b;
    var y := x * 0x100 + c;
    assert n == y * 0x100 + s[3];
    assert n / 0x100 == y && y / 0x100 == x && x / 0x100 == a;
    assert n / 0x1_0000 == y / 0x100 && n / 0x100_0000 == x / 0x100;
  }

  function PartKey(uploadId: Bytes, part: u32): Bytes {
    uploadId + [0] + Be32(part)
  }

  /** `position(|b| b == 0)`: the bytes before the first NUL (all of them if there is none). */
  function Head(k: Bytes): (h: Bytes)
    ensures h <= k && NoNul(h)
  {
    if k == [] || k[0] == 0 then [] else [k[0]] + Head(k[1..])
  }

  /** What follows the first NUL. */
  function Tail(k: Bytes): Bytes
    requires !NoNul(k)
  {
    HeadStops(k);
    k[|Head(k)| + 1..]
  }

  lemma {:induction false} HeadStops(k: Bytes)
    requires !NoNul(k)
    ensures |Head(k)| < |k| && k[|Head(k)|] == 0
  {
    if k[0] != 0 {
      assert k == [k[0]] + k[1..];
      HeadStops(k[1..]);
    }
  }

  /** A NUL-free first half is recovered exactly, whatever follows. */
  lemma {:induction false} SplitJoined(a: Bytes, b: Bytes)
    requires NoNul(a)
    ensures !NoNul(a + [0] + b)
    ensures Head(a + [0] + b) == a && Tail(a + [0] + b) == b
  {
    var k := a + [0] + b;
    assert k[|a|] == 0;
    if a != [] {
      assert k[1..] == a[1..] + [0] + b;
      SplitJoined(a[1..], b);
    }
    assert k[|a| + 1..] == b;
  }

  lemma JoinSplit(k: Bytes)
    requires !NoNul(k)
    ensures Head(k) + [0] + Tail(k) == k
  {
    HeadStops(k);
  }

  /** `bucket_range` / `upload_part_range`: membership in `[name \0, name \1)`. */
  predicate InRange(name: Bytes, k: Bytes) {
    Le(name + [0], k) && Lt(k, name + [1])
  }

  /** That range holds exactly the keys whose first half is `name`: no other bucket's, even one
      whose name extends or is extended by this one. */
  lemma RangeIsExact(name: Bytes, k: Bytes)
    requires NoNul(name)
    ensures InRange(name, k) <==> !NoNul(k) && Head(k) == name
  {
    UnitRange(name, 0, k);
    if name + [0] <= k {
      var rest := k[|name| + 1..];
      assert k == name + [0] + rest;
      SplitJoined(name, rest);
    }
    if !NoNul(k) && Head(k) == name {
      JoinSplit(k);
      assert name + [0] <= k;
    }
  }
}
