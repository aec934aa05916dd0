/** Bytes, machine integers and the frame format of section 4.1 of RFC 7540. */
module Wire {
  type byte = x: int | 0 <= x < 256
  type Bytes = seq<byte>

  const U32: int := 0x1_0000_0000
  const MAX_WINDOW: int := 0x7FFF_FFFF
  type u32 = x: int | 0 <= x < U32

  const FRAME_HEADER_LEN: nat := 9
  const MAX_PAYLOAD: nat := 0x100_0000

  // The unassigned frame types the fast path talks to user space under.
  const DT_SYNC: byte := 0xFB
  const FC_SYNC: byte := 0xFA

  datatype Option<+T> = None | Some(value: T)

  // Big endian, as `to_be_bytes` and the shifts of the kernel program spell it.
  function BE24(n: nat): (r: Bytes)
    ensures |r| == 3
  {
    [n / 0x1_0000 % 256, n / 0x100 % 256, n % 256]
  }

  function BE32(n: u32): (r: Bytes)
    ensures |r| == 4
  {
    [n / 0x100_0000, n / 0x1_0000 % 256, n / 0x100 % 256, n % 256]
  }

  function Val24(b: Bytes): (n: nat)
    requires |b| == 3
    ensures n < MAX_PAYLOAD
  {
    (b[0] as int) * 0x1_0000 + (b[1] as int) * 0x100 + b[2] as int
  }

  function Val32(b: Bytes): (n: u32)
    requires |b| == 4
  {
    (b[0] as int) * 0x100_0000 + (b[1] as int) * 0x1_0000 + (b[2] as int) * 0x100 + b[3] as int
  }

  lemma BE24RoundTrip(n: nat)
    requires n < MAX_PAYLOAD
    ensures Val24(BE24(n)) == n
  {
  }

  lemma BE32RoundTrip(n: u32)
    ensures Val32(BE32(n)) == n
  {
    var hi, mid := n / 0x100_0000, n / 0x1_0000;
    var low := n / 0x100;
    assert low == n / 0x100 && mid == low / 0x100 && hi == mid / 0x100;
    assert n == low * 0x100 + n % 0x100;
    assert low == mid * 0x100 + low % 0x100;
    assert mid == hi * 0x100 + mid % 0x100;
  }

  /** A frame, with the reserved bit already taken off its stream id. */
  datatype Frame = Frame(kind: byte, flags: byte, sid: u32, payload: Bytes)

  ghost predicate Encodable(f: Frame) {
    |f.payload| < MAX_PAYLOAD && f.sid <= MAX_WINDOW
  }

  function FrameHeader(len: nat, kind: byte, flags: byte, sid: u32): (h: Bytes)
    ensures |h| == FRAME_HEADER_LEN
  {
    BE24(len) + [kind, flags] + BE32(sid)
  }

  function Encode(f: Frame): Bytes {
    FrameHeader(|f.payload|, f.kind, f.flags, f.sid) + f.payload
  }

  function EncodeAll(fs: seq<Frame>): Bytes {
    if fs == [] then [] else Encode(fs[0]) + EncodeAll(fs[1..])
  }

  // The length field, type, flags and stream id of the header `b` starts with.
  function LenAt(b: Bytes): (n: nat)
    requires |b| >= FRAME_HEADER_LEN
    ensures n < MAX_PAYLOAD
  {
    Val24(b[..3])
  }

  function SidAt(b: Bytes): u32
    requires |b| >= FRAME_HEADER_LEN
  {
    Val32(b[5..9]) % (MAX_WINDOW + 1)
  }

  /** Splits `b` into the frames it holds, or fails if it does not end on a frame boundary. */
  function Parse(b: Bytes): Option<seq<Frame>> {
    if b == [] then Some([])
    else if |b| < FRAME_HEADER_LEN || |b| < FRAME_HEADER_LEN + LenAt(b) then None
    else
      var n := FRAME_HEADER_LEN + LenAt(b);
      match Parse(b[n..])
      case None => None
      case Some(fs) => Some([Frame(b[3], b[4], SidAt(b), b[FRAME_HEADER_LEN..n])] + fs)
  }

  lemma HeaderFields(len: nat, kind: byte, flags: byte, sid: u32, rest: Bytes)
    requires len < MAX_PAYLOAD && sid <= MAX_WINDOW
    ensures var b := FrameHeader(len, kind, flags, sid) + rest;
            LenAt(b) == len && b[3] == kind && b[4] == flags && SidAt(b) == sid
  {
    var b := FrameHeader(len, kind, flags, sid) + rest;
    assert b[..3] == BE24(len);
    assert b[5..9] == BE32(sid);
    BE24RoundTrip(len);
    BE32RoundTrip(sid);
  }

  /** Section 4.1, byte for byte. */
  lemma HeaderBytes(len: nat, kind: byte, flags: byte, sid: u32)
    requires len < MAX_PAYLOAD && sid <= MAX_WINDOW
    ensures FrameHeader(len, kind, flags, sid) ==
            [len / 65536, len / 256 % 256, len % 256, kind, flags, sid / 16777216, sid / 65536 % 256, sid / 256 % 256, sid % 256]
  {
  }

  lemma ParseEncode(f: Frame, rest: Bytes)
    requires Encodable(f)
    ensures var p := Parse(rest);
            Parse(Encode(f) + rest) == if p.None? then None else Some([f] + p.value)
  {
    var h := FrameHeader(|f.payload|, f.kind, f.flags, f.sid);
    var b := Encode(f) + rest;
    assert b == h + (f.payload + rest);
    HeaderFields(|f.payload|, f.kind, f.flags, f.sid, f.payload + rest);
    assert b[FRAME_HEADER_LEN..FRAME_HEADER_LEN + |f.payload|] == f.payload;
    assert b[FRAME_HEADER_LEN + |f.payload|..] == rest;
  }

  /** Parsing what was encoded gives the frames back. */
  lemma {:induction false} ParseEncodeAll(fs: seq<Frame>)
    requires forall f :: f in fs ==> Encodable(f)
    ensures Parse(EncodeAll(fs)) == Some(fs)
  {
    if fs != [] {
      assert forall f :: f in fs[1..] ==> f in fs;
      ParseEncodeAll(fs[1..]);
      assert fs == [fs[0]] + fs[1..];
      ParseEncode(fs[0], EncodeAll(fs[1..]));
    }
  }

  lemma {:induction false} EncodeAllConcat(a: seq<Frame>, b: seq<Frame>)
    ensures EncodeAll(a + b) == EncodeAll(a) + EncodeAll(b)
  {
    if a == [] {
      assert a + b == b;
    } else {
      assert (a + b)[1..] == a[1..] + b;
      EncodeAllConcat(a[1..], b);
    }
  }

  function Concat(parts: seq<Bytes>): Bytes {
    if parts == [] then [] else parts[0] + Concat(parts[1..])
  }

  lemma {:induction false} ConcatConcat(a: seq<Bytes>, b: seq<Bytes>)
    ensures Concat(a + b) == Concat(a) + Concat(b)
  {
    if a == [] {
      assert a + b == b;
    } else {
      assert (a + b)[1..] == a[1..] + b;
      ConcatConcat(a[1..], b);
    }
  }
}
