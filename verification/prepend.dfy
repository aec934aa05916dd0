/** Putting a frame in front of a message the kernel forwards. */
module Prepending {
  import opened Wire
  import opened Hpack
  import opened Message
  import opened DtSync

  /**
   Makes room for a frame of `len` bytes and exposes it. The message is only left grown if the
   second helper fails after the first one succeeded, which `Opens` rules out.
   */
  method MakeRoom(msg: Msg, len: nat) returns (ok: bool)
    requires msg.Valid() && len > 0
    modifies msg
    ensures msg.Valid()
    ensures ok ==> msg.lo == 0 && msg.hi == len && |msg.bytes| == |old(msg.bytes)| + len && msg.bytes[len..] == old(msg.bytes)
    ensures !ok && msg.Opens() ==> msg.bytes == old(msg.bytes)
    ensures msg.resizes && msg.Opens() ==> (ok <==> |old(msg.bytes)| + len < U32)
  {
    ok := msg.Push(0, len);
    if ok {
      ok := msg.Pull(0, len);
      assert msg.bytes[0 + len..] == old(msg.bytes)[0..];
    }
  }

  /** Writes the nine bytes of a frame header to the front of what is exposed. */
  method WriteHeader(msg: Msg, len: nat, kind: byte)
    requires msg.Valid() && msg.lo == 0 && FRAME_HEADER_LEN <= msg.hi && len < MAX_PAYLOAD
    modifies msg`bytes
    ensures msg.Valid() && |msg.bytes| == |old(msg.bytes)|
    ensures msg.bytes == FrameHeader(len, kind, 0, 0) + old(msg.bytes)[FRAME_HEADER_LEN..]
  {
    msg.Store(0, [len / 0x1_0000 % 256, len / 0x100 % 256, len % 256]);
    assert msg.bytes == BE24(len) + old(msg.bytes)[3..];
    // the frame belongs to no stream, so all that is left is zero
    msg.Store(3, [kind, 0, 0, 0, 0, 0]);
    assert FrameHeader(len, kind, 0, 0) == BE24(len) + [kind, 0, 0, 0, 0, 0];
  }

  /** `prepend_dt_sync`: the number of bytes prepended, or -1. */
  method PrependDtSync(msg: Msg, buf: SyncBuf, t: Table, n: nat) returns (res: int)
    requires msg.Valid() && buf.Valid()
    modifies msg, buf, buf.data
    ensures msg.Valid() && buf.Valid()
    ensures res >= 0 ==>
              && RenderSync(t, n, buf.cap).Some?
              && msg.bytes == Encode(DtFrame(RenderSync(t, n, buf.cap).value)) + old(msg.bytes)
              && res == |msg.bytes| - |old(msg.bytes)|
    ensures res < 0 && msg.Opens() ==> msg.bytes == old(msg.bytes)
    ensures msg.resizes && msg.Opens() ==>
              (res >= 0 <==> RenderSync(t, n, buf.cap).Some?
                             && |old(msg.bytes)| + FRAME_HEADER_LEN + |RenderSync(t, n, buf.cap).value| < U32)
  {
    buf.len := 0;
    var rendered := buf.Render(t, n);
    if !rendered {
      return -1;
    }
    ghost var body := buf.Contents();
    var bodyLen := buf.len;
    var frameLen := FRAME_HEADER_LEN + bodyLen;
    var ok := MakeRoom(msg, frameLen);
    if !ok {
      return -1;
    }
    WriteHeader(msg, bodyLen, DT_SYNC);
    ghost var header := FrameHeader(bodyLen, DT_SYNC, 0, 0);
    ok := WriteBody(msg, buf, header);
    if !ok {
      return -1;
    }
    assert Encode(DtFrame(body)) == header + body;
    res := frameLen;
  }

  /** Copies the rendered block behind the header. The checks the verifier asks for never fail. */
  method WriteBody(msg: Msg, buf: SyncBuf, ghost header: Bytes) returns (ok: bool)
    requires msg.Valid() && buf.Valid() && |header| == FRAME_HEADER_LEN
    requires msg.lo == 0 && msg.hi == FRAME_HEADER_LEN + buf.len && msg.bytes[..FRAME_HEADER_LEN] == header
    modifies msg`bytes
    ensures msg.Valid() && ok
    ensures msg.bytes == header + buf.Contents() + old(msg.bytes)[FRAME_HEADER_LEN + buf.len..]
  {
    ghost var body, behind := buf.Contents(), msg.bytes[FRAME_HEADER_LEN + buf.len..];
    for i := 0 to buf.len
      invariant msg.Valid() && |msg.bytes| == |old(msg.bytes)|
      invariant msg.bytes[FRAME_HEADER_LEN + buf.len..] == behind
      invariant msg.bytes[..FRAME_HEADER_LEN + i] == header + body[..i]
    {
      var j := Clamp(i, buf.cap - 1);
      if FRAME_HEADER_LEN + j + 1 > msg.hi {
        return false;
      }
      assert buf.data[j] == body[j];
      msg.Store(FRAME_HEADER_LEN + j, [buf.data[j]]);
    }
    assert msg.bytes == msg.bytes[..FRAME_HEADER_LEN + buf.len] + msg.bytes[FRAME_HEADER_LEN + buf.len..];
    ok := true;
  }

  /** `prepend_fc_sync`: the number of bytes prepended, or -1. */
  method PrependFcSync(msg: Msg, sent: u32) returns (res: int)
    requires msg.Valid()
    modifies msg
    ensures msg.Valid()
    ensures res >= 0 ==> msg.bytes == Encode(FcFrame(sent)) + old(msg.bytes) && res == |msg.bytes| - |old(msg.bytes)|
    ensures res < 0 && msg.Opens() ==> msg.bytes == old(msg.bytes)
    ensures msg.resizes && msg.Opens() ==> (res >= 0 <==> |old(msg.bytes)| + 13 < U32)
  {
    var ok := MakeRoom(msg, 13);
    if !ok {
      return -1;
    }
    WriteHeader(msg, 4, FC_SYNC);
    msg.Store(9, [sent / 0x100_0000, sent / 0x1_0000 % 256, sent / 0x100 % 256, sent % 256]);
    assert msg.bytes == msg.bytes[..13] + msg.bytes[13..];
    assert msg.bytes[..13] == Encode(FcFrame(sent));
    res := 13;
  }
}
