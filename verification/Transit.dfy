/** The authenticated frame around every datagram between the host relay and the agent:
    `flow_id(4) epoch(4) nonce(8) tag(16) payload`, big-endian. */
module Transit {
  import opened Common
  import opened Bytes
  import opened Keys

  const TAG_LEN: nat := 16
  const HEADER_LEN: nat := 4 + 4 + 8 + TAG_LEN

  type u64 = x: int | 0 <= x < 0x1_0000_0000_0000_0000

  /** HMAC-SHA256 is not interpreted: any function of key and message with a long enough digest. */
  type Digest = d: Bytes | |d| == 32 witness seq(32, _ => 0)
  type Mac = (Bytes, Bytes) -> Digest

  datatype Dir = HostToAgent | AgentToHost {
    function AsByte(): byte {
      match this case HostToAgent => 1 case AgentToHost => 2
    }
  }

  datatype Header = Header(flowId: u32, epoch: u32, nonce: u64) {
    /** Later in the life of a flow: a higher epoch, or a higher nonce under the same one. */
    predicate Before(that: Header) {
      epoch < that.epoch || (epoch == that.epoch && nonce < that.nonce)
    }
  }

  function Be64(n: u64): Bytes {
    Be32(n / 0x1_0000_0000) + Be32(n % 0x1_0000_0000)
  }

  function FromBe64(s: Bytes): u64
    requires |s| == 8
  {
    FromBe32(s[..4]) * 0x1_0000_0000 + FromBe32(s[4..])
  }

  lemma Be64RoundTrip(n: u64)
    ensures |Be64(n)| == 8 && FromBe64(Be64(n)) == n
  {
    hide Be32, FromBe32;
    var hi, lo := n / 0x1_0000_0000, n % 0x1_0000_0000;
    Be32RoundTrip(hi);
    Be32RoundTrip(lo);
    assert Be64(n)[..4] == Be32(hi) && Be64(n)[4..] == Be32(lo);
  }

  lemma FromBe64RoundTrip(s: Bytes)
    requires |s| == 8
    ensures Be64(FromBe64(s)) == s
  {
    hide Be32, FromBe32;
    FromBe32RoundTrip(s[..4]);
    FromBe32RoundTrip(s[4..]);
    var hi, lo := FromBe32(s[..4]), FromBe32(s[4..]);
    assert FromBe64(s) / 0x1_0000_0000 == hi && FromBe64(s) % 0x1_0000_0000 == lo;
    assert s == s[..4] + s[4..];
  }

  function Fields(hdr: Header): (s: Bytes) {
    Be32(hdr.flowId) + Be32(hdr.epoch) + Be64(hdr.nonce)
  }

  /** What is authenticated: the direction too, which is not on the wire. */
  function Message(dir: Dir, hdr: Header, payload: Bytes): Bytes {
    [dir.AsByte()] + Fields(hdr) + payload
  }

  function Tag(mac: Mac, secret: Bytes, dir: Dir, hdr: Header, payload: Bytes): (t: Bytes)
    ensures |t| == TAG_LEN
  {
    mac(secret, Message(dir, hdr, payload))[..TAG_LEN]
  }

  /** The one frame for a header and a payload. */
  function Sealed(mac: Mac, secret: Bytes, dir: Dir, hdr: Header, payload: Bytes): Bytes {
    Fields(hdr) + Tag(mac, secret, dir, hdr, payload) + payload
  }

  class Buffer {
    var bytes: Bytes

    /** The caller's buffer is cleared and refilled. */
    method Seal(mac: Mac, secret: Bytes, dir: Dir, hdr: Header, payload: Bytes)
      modifies this
      ensures bytes == Sealed(mac, secret, dir, hdr, payload)
    {
      bytes := [];
      bytes := bytes + Be32(hdr.flowId);
      bytes := bytes + Be32(hdr.epoch);
      bytes := bytes + Be64(hdr.nonce);
      bytes := bytes + Tag(mac, secret, dir, hdr, payload);
      bytes := bytes + payload;
    }
  }

  function ParseFields(s: Bytes): Header
    requires |s| == 16
  {
    Header(FromBe32(s[0..4]), FromBe32(s[4..8]), FromBe64(s[8..16]))
  }

  function Open(mac: Mac, secret: Bytes, dir: Dir, frame: Bytes): Option<(Header, Bytes)> {
    if |frame| < HEADER_LEN then None else
      var hdr, payload := ParseFields(frame[..16]), frame[HEADER_LEN..];
      if frame[16..HEADER_LEN] != Tag(mac, secret, dir, hdr, payload) then None else Some((hdr, payload))
  }

  lemma FieldsRoundTrip(hdr: Header)
    ensures |Fields(hdr)| == 16 && ParseFields(Fields(hdr)) == hdr
  {
    hide Be32, FromBe32, Be64, FromBe64;
    Be32RoundTrip(hdr.flowId);
    Be32RoundTrip(hdr.epoch);
    Be64RoundTrip(hdr.nonce);
    var s := Fields(hdr);
    assert s[0..4] == Be32(hdr.flowId) && s[4..8] == Be32(hdr.epoch) && s[8..16] == Be64(hdr.nonce);
  }

  lemma ParseFieldsRoundTrip(s: Bytes)
    requires |s| == 16
    ensures Fields(ParseFields(s)) == s
  {
    hide Be32, FromBe32, Be64, FromBe64;
    FromBe32RoundTrip(s[0..4]);
    FromBe32RoundTrip(s[4..8]);
    FromBe64RoundTrip(s[8..16]);
    assert s == s[0..4] + s[4..8] + s[8..16];
  }

  /** `open` accepts exactly the frames `seal` makes for the same secret and direction, and returns
      what went in. */
  lemma OpensExactlySealed(mac: Mac, secret: Bytes, dir: Dir, frame: Bytes, hdr: Header, payload: Bytes)
    ensures Open(mac, secret, dir, frame) == Some((hdr, payload)) <==> frame == Sealed(mac, secret, dir, hdr, payload)
  {
    hide Fields, ParseFields, Tag;
    if frame == Sealed(mac, secret, dir, hdr, payload) {
      FieldsRoundTrip(hdr);
      assert frame[..16] == Fields(hdr) && frame[HEADER_LEN..] == payload;
      assert frame[16..HEADER_LEN] == Tag(mac, secret, dir, hdr, payload);
    } else if |frame| >= HEADER_LEN {
      ParseFieldsRoundTrip(frame[..16]);
      assert frame == frame[..16] + frame[16..HEADER_LEN] + frame[HEADER_LEN..];
    }
  }

  /** A frame sealed for one leg opens on the other only if the two legs' tags collide. */
  lemma OtherDirection(mac: Mac, secret: Bytes, dir: Dir, dir': Dir, hdr: Header, payload: Bytes)
    ensures Open(mac, secret, dir', Sealed(mac, secret, dir, hdr, payload)) ==
              if Tag(mac, secret, dir, hdr, payload) == Tag(mac, secret, dir', hdr, payload) then Some((hdr, payload))
                else None
  {
    hide Fields, ParseFields, Tag;
    var frame := Sealed(mac, secret, dir, hdr, payload);
    FieldsRoundTrip(hdr);
    assert frame[..16] == Fields(hdr) && frame[HEADER_LEN..] == payload;
    assert frame[16..HEADER_LEN] == Tag(mac, secret, dir, hdr, payload);
  }

  /** No two different datagrams, and no two directions of one, are authenticated by the same message. */
  lemma MessageIsInjective(dir: Dir, hdr: Header, payload: Bytes, dir': Dir, hdr': Header, payload': Bytes)
    ensures Message(dir, hdr, payload) == Message(dir', hdr', payload') <==>
            dir == dir' && hdr == hdr' && payload == payload'
  {
    FieldsRoundTrip(hdr);
    FieldsRoundTrip(hdr');
    hide Fields, ParseFields;
    var m, m' := Message(dir, hdr, payload), Message(dir', hdr', payload');
    assert m[0] == dir.AsByte() && m[1..17] == Fields(hdr) && m[17..] == payload;
    assert m'[0] == dir'.AsByte() && m'[1..17] == Fields(hdr') && m'[17..] == payload';
  }

  /** The number whose four bytes, the highest first, begin at `i`. */
  function NumberAt(s: Bytes, i: nat): int
    requires i + 4 <= |s|
  {
    var (a: int, b: int, c: int, d: int) := (s[i], s[i + 1], s[i + 2], s[i + 3]);
    ((a * 256 + b) * 256 + c) * 256 + d
  }

  lemma NumberIs(s: Bytes, i: nat, n: u32)
    requires i + 4 <= |s| && s[i..i + 4] == Be32(n)
    ensures NumberAt(s, i) == n
  {
    Be32RoundTrip(n);
    var t := s[i..i + 4];
    assert t[0] == s[i] && t[1] == s[i + 1] && t[2] == s[i + 2] && t[3] == s[i + 3];
    hide Be32;
  }

  /** The frame byte by byte: flow, epoch and nonce, sixteen bytes of the digest, the payload. The message
      digested begins with 1 towards the agent and with 2 towards the host. */
  lemma OnTheWire(mac: Mac, secret: Bytes, dir: Dir, hdr: Header, payload: Bytes)
    ensures var frame := Sealed(mac, secret, dir, hdr, payload);
            && |frame| == 32 + |payload| && frame[32..] == payload
            && NumberAt(frame, 0) == hdr.flowId && NumberAt(frame, 4) == hdr.epoch
            && NumberAt(frame, 8) * 0x1_0000_0000 + NumberAt(frame, 12) == hdr.nonce
            && frame[16..32] == mac(secret, [if dir == HostToAgent then 1 else 2] + frame[..16] + payload)[..16]
  {
    var frame, hi, lo := Sealed(mac, secret, dir, hdr, payload), hdr.nonce / 0x1_0000_0000, hdr.nonce % 0x1_0000_0000;
    Be32RoundTrip(hdr.flowId);
    Be32RoundTrip(hdr.epoch);
    Be32RoundTrip(hi);
    Be32RoundTrip(lo);
    hide Be32, FromBe32;
    assert frame[..16] == Fields(hdr);
    assert frame[0..4] == Be32(hdr.flowId) && frame[4..8] == Be32(hdr.epoch);
    assert frame[8..12] == Be32(hi) && frame[12..16] == Be32(lo);
    NumberIs(frame, 0, hdr.flowId);
    NumberIs(frame, 4, hdr.epoch);
    NumberIs(frame, 8, hi);
    NumberIs(frame, 12, lo);
  }
}
