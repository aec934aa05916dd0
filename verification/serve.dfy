/** Rewriting a request into the pre-rendered response it is answered with. */
module Serving {
  import opened Wire
  import opened Message
  import opened FlowControl

  const CHUNK: nat := 32768
  const MAX_CHUNKS: nat := 14
  const MAX_ROUTE_BODY: nat := MAX_CHUNKS * CHUNK
  const MAX_SID_OFFS: nat := 32
  const COPY_BLOCK: nat := 256
  const WORD: nat := 8

  /** `struct route`: where a response lies in the arena, in either rendering. */
  datatype Route = Route(
    bodyOff: nat, bodyLen: nat,
    h2BodyOff: nat, h2BodyLen: nat, sidOffs: seq<nat>, dataLen: u32)

  /** What user space sees to when it fills the table, see the arena layout. */
  ghost predicate Placed(r: Route, arena: Bytes) {
    && r.bodyOff + r.bodyLen <= |arena| < U32
    && r.h2BodyOff + r.h2BodyLen <= |arena|
    && |r.sidOffs| <= MAX_SID_OFFS
    && forall i :: 0 <= i < |r.sidOffs| ==> r.sidOffs[i] + 4 <= r.h2BodyLen
  }

  // ---- what the response is ----

  function PatchOne(b: Bytes, off: nat, sid: u32): (r: Bytes)
    ensures |r| == |b|
  {
    if off + 4 <= |b| then b[..off] + BE32(sid) + b[off + 4..] else b
  }

  function Patch(b: Bytes, offs: seq<nat>, sid: u32): (r: Bytes)
    ensures |r| == |b|
    decreases |offs|
  {
    if offs == [] then b else Patch(PatchOne(b, offs[0], sid), offs[1..], sid)
  }

  lemma {:induction false} PatchFront(a: Bytes, t: Bytes, offs: seq<nat>, sid: u32)
    requires forall i :: 0 <= i < |offs| ==> offs[i] + 4 <= |a|
    ensures Patch(a + t, offs, sid) == Patch(a, offs, sid) + t
    decreases |offs|
  {
    if offs != [] {
      var off := offs[0];
      assert (a + t)[..off] == a[..off] && (a + t)[off + 4..] == a[off + 4..] + t;
      assert PatchOne(a + t, off, sid) == PatchOne(a, off, sid) + t;
      PatchFront(PatchOne(a, off, sid), t, offs[1..], sid);
    }
  }

  function BodyLen(r: Route, sid: u32): nat {
    if sid != 0 then r.h2BodyLen else r.bodyLen
  }

  /** The response a request on stream `sid` is answered with, or the HTTP/1.1 one if that is zero. */
  function Response(r: Route, arena: Bytes, sid: u32): (b: Bytes)
    requires Placed(r, arena)
    ensures |b| == BodyLen(r, sid)
  {
    if sid != 0 then Patch(arena[r.h2BodyOff..r.h2BodyOff + r.h2BodyLen], r.sidOffs, sid)
    else arena[r.bodyOff..r.bodyOff + r.bodyLen]
  }

  /** Whether a response of `dataLen` flow controlled bytes fits the client's windows. */
  predicate HasRoom(fc: Flow, dataLen: u32) {
    fc.conn >= dataLen && fc.stream >= dataLen
  }

  function Spend(fc: Flow, dataLen: u32): Flow {
    fc.(conn := fc.conn - dataLen, unreported := (fc.unreported + dataLen) % U32)
  }

  /** What it takes to answer the first `reqLen` bytes of a message of `size`. */
  ghost predicate Servable(r: Route, sid: u32, fc: Option<Flow>, size: nat, reqLen: nat) {
    var len := if sid != 0 then r.h2BodyLen else r.bodyLen;
    && 0 < len <= 448 * 1024
    && (sid != 0 ==> fc.Some? && r.dataLen <= fc.value.conn && r.dataLen <= fc.value.stream)
    && 0 < reqLen <= size
    && size - reqLen + len < 0x1_0000_0000
  }

  // ---- how it gets into the message ----

  // `now` is `before` with `done` bytes of the arena copied over it from `lo` on.
  ghost predicate Copied(now: Bytes, lo: nat, before: Bytes, arena: Bytes, src: nat, done: nat) {
    && |now| == |before| && src + done <= |arena| && lo + done <= |before|
    && now == before[..lo] + arena[src..src + done] + before[lo + done..]
  }

  lemma CopiedOn(now: Bytes, lo: nat, before: Bytes, arena: Bytes, src: nat, done: nat, n: nat, next: Bytes)
    requires Copied(now, lo, before, arena, src, done) && lo + done + n <= |before| && src + done + n <= |arena|
    requires next == now[..lo + done] + arena[src + done..src + done + n] + now[lo + done + n..]
    ensures Copied(next, lo, before, arena, src, done + n)
  {
    CopiedMore(before, lo, arena, src, done, n);
  }

  /**
   `copy_chunk`: blocks of 256 bytes eight at a time, then what is left one at a time. It moves
   exactly the bytes asked for, and fails exactly if the window is short of them.
   */
  method CopyChunk(msg: Msg, arena: Bytes, src: nat, len: nat) returns (ok: bool)
    requires msg.Valid() && len <= CHUNK && src + len <= |arena|
    modifies msg`bytes
    ensures msg.Valid() && |msg.bytes| == |old(msg.bytes)|
    ensures ok <==> msg.lo + len <= msg.hi
    ensures ok ==> msg.bytes == old(msg.bytes)[..msg.lo] + arena[src..src + len] + old(msg.bytes)[msg.lo + len..]
  {
    var done;
    ok, done := CopyBlocks(msg, arena, src, len);
    if ok {
      ok := CopyTail(msg, old(msg.bytes), arena, src, len, done);
    }
  }

  method CopyBlocks(msg: Msg, arena: Bytes, src: nat, len: nat) returns (ok: bool, done: nat)
    requires msg.Valid() && len <= CHUNK && src + len <= |arena|
    modifies msg`bytes
    ensures msg.Valid() && |msg.bytes| == |old(msg.bytes)|
    ensures done <= len && (ok ==> len - done < COPY_BLOCK && msg.lo + done <= msg.hi && Copied(msg.bytes, msg.lo, old(msg.bytes), arena, src, done))
    ensures !ok ==> msg.lo + len > msg.hi
  {
    done := 0;
    var b := 0;
    assert Copied(msg.bytes, msg.lo, old(msg.bytes), arena, src, 0);
    hide Copied;
    while b < CHUNK / COPY_BLOCK
      invariant b <= CHUNK / COPY_BLOCK && done == b * COPY_BLOCK <= len
      invariant msg.Valid() && |msg.bytes| == |old(msg.bytes)| && msg.lo + done <= msg.hi
      invariant Copied(msg.bytes, msg.lo, old(msg.bytes), arena, src, done)
      decreases CHUNK / COPY_BLOCK - b
    {
      var off := b * COPY_BLOCK;
      if off + COPY_BLOCK > len {
        break;
      }
      if msg.lo + off + COPY_BLOCK > msg.hi {
        return false, done;
      }
      ghost var now := msg.bytes;
      CopyBlock(msg, arena, src + off, off);
      CopiedOn(now, msg.lo, old(msg.bytes), arena, src, off, COPY_BLOCK, msg.bytes);
      done := off + COPY_BLOCK;
      b := b + 1;
    }
    ok := true;
  }

  method CopyTail(msg: Msg, ghost before: Bytes, arena: Bytes, src: nat, len: nat, done: nat) returns (ok: bool)
    requires done <= len && len - done < COPY_BLOCK && src + len <= |arena|
    requires msg.Valid() && |msg.bytes| == |before| && msg.lo + done <= msg.hi
    requires Copied(msg.bytes, msg.lo, before, arena, src, done)
    modifies msg`bytes
    ensures msg.Valid() && |msg.bytes| == |before|
    ensures ok <==> msg.lo + len <= msg.hi
    ensures ok ==> Copied(msg.bytes, msg.lo, before, arena, src, len)
  {
    hide Copied;
    var k := 0;
    while k < COPY_BLOCK
      invariant k <= COPY_BLOCK && done + k <= len
      invariant msg.Valid() && |msg.bytes| == |before| && msg.lo + done + k <= msg.hi
      invariant Copied(msg.bytes, msg.lo, before, arena, src, done + k)
      decreases COPY_BLOCK - k
    {
      var off := done + k;
      if off >= len {
        break;
      }
      if msg.lo + off + 1 > msg.hi {
        return false;
      }
      ghost var now := msg.bytes;
      msg.Store(off, [arena[src + off]]);
      assert [arena[src + off]] == arena[src + off..src + off + 1];
      CopiedOn(now, msg.lo, before, arena, src, off, 1, msg.bytes);
      k := k + 1;
    }
    ok := true;
  }

  method CopyBlock(msg: Msg, arena: Bytes, src: nat, at: nat)
    requires msg.Valid() && msg.lo + at + COPY_BLOCK <= msg.hi && src + COPY_BLOCK <= |arena|
    modifies msg`bytes
    ensures msg.Valid() && |msg.bytes| == |old(msg.bytes)|
    ensures msg.bytes == old(msg.bytes)[..msg.lo + at] + arena[src..src + COPY_BLOCK]
                         + old(msg.bytes)[msg.lo + at + COPY_BLOCK..]
  {
    ghost var before, lo := msg.bytes, msg.lo + at;
    for w := 0 to COPY_BLOCK / WORD
      invariant msg.Valid() && |msg.bytes| == |before|
      invariant msg.bytes == before[..lo] + arena[src..src + w * WORD] + before[lo + w * WORD..]
    {
      msg.Store(at + w * WORD, arena[src + w * WORD..src + w * WORD + WORD]);
      CopiedMore(before, lo, arena, src, w * WORD, WORD);
    }
  }

  lemma CopiedMore(before: Bytes, lo: nat, arena: Bytes, src: nat, done: nat, n: nat)
    requires lo + done + n <= |before| && src + done + n <= |arena|
    ensures var b := before[..lo] + arena[src..src + done] + before[lo + done..];
            b[..lo + done] + arena[src + done..src + done + n] + b[lo + done + n..]
            == before[..lo] + arena[src..src + (done + n)] + before[lo + (done + n)..]
  {
    assert arena[src..src + (done + n)] == arena[src..src + done] + arena[src + done..src + done + n];
  }

  /** `write_sid`. */
  method WriteSid(msg: Msg, off: nat, sid: u32) returns (ok: bool)
    requires msg.Valid()
    modifies msg
    ensures msg.Valid() && |msg.bytes| == |old(msg.bytes)|
    ensures msg.resized == old(msg.resized)
    ensures msg.exposes && off + 4 <= MAX_ROUTE_BODY && off + 4 <= |msg.bytes| ==> ok
    ensures ok ==> off + 4 <= |msg.bytes| && msg.bytes == PatchOne(old(msg.bytes), off, sid)
  {
    if off + 4 > MAX_ROUTE_BODY {
      return false;
    }
    ok := msg.Pull(off, off + 4);
    if ok {
      msg.Store(0, [sid / 0x100_0000, sid / 0x1_0000 % 256, sid / 0x100 % 256, sid % 256]);
    }
  }

  // What making room for the response has come to: it is behind the request, a chunk at a time.
  ghost predicate Grown(before: Bytes, reqLen: nat, now: Bytes) {
    && reqLen <= |before| <= |now|
    && now[..reqLen] == before[..reqLen]
    && now[reqLen + (|now| - |before|)..] == before[reqLen..]
  }

  lemma GrownMore(before: Bytes, reqLen: nat, now: Bytes, next: Bytes, grow: nat)
    requires Grown(before, reqLen, now)
    requires var end := reqLen + (|now| - |before|);
             |next| == |now| + grow && next[..end] == now[..end] && next[end + grow..] == now[end..]
    ensures Grown(before, reqLen, next)
  {
    var end := reqLen + (|now| - |before|);
    assert next[..end][..reqLen] == next[..reqLen] && now[..end][..reqLen] == now[..reqLen];
  }

  // The target has been reached as far as `turns` pushes can, or could not be represented.
  ghost predicate Growing(before: Bytes, reqLen: nat, now: Bytes, target: nat, turns: nat) {
    && Grown(before, reqLen, now)
    && (target >= |before| ==> |now| == Least(|before| + turns * CHUNK, target))
    && (target < |before| || turns == 0 ==> now == before)
  }

  /**
   Grows the request by up to 448 KB, a chunk at a time. Fourteen turns always suffice: unless a
   helper fails the message ends up at its target.
   */
  method Grow(msg: Msg, reqLen: nat, target: nat) returns (res: int)
    requires msg.Valid() && 0 < reqLen <= |msg.bytes|
    requires target <= |msg.bytes| + MAX_ROUTE_BODY && target < U32
    modifies msg
    ensures msg.Valid() && -2 <= res <= 0
    ensures res == 0 ==> |msg.bytes| == target && Grown(old(msg.bytes), reqLen, msg.bytes)
    ensures res == 0 && target != |old(msg.bytes)| ==> msg.resized
    ensures res == -1 ==> msg.bytes == old(msg.bytes)
    ensures msg.resizes && target >= |old(msg.bytes)| ==> res == 0
    ensures res == -2 ==> msg.resized || target < |old(msg.bytes)|
  {
    ghost var before := msg.bytes;
    var origSize := msg.Size();
    var i := 0;
    while i < MAX_CHUNKS
      invariant i <= MAX_CHUNKS && msg.Valid() && Growing(before, reqLen, msg.bytes, target, i)
      invariant i > 0 ==> msg.resized
      decreases MAX_CHUNKS - i
    {
      var size := msg.Size();
      if size >= target {
        break;
      }
      var grow := target - size;
      if grow > CHUNK {
        grow := CHUNK;
      }
      ghost var now := msg.bytes;
      var ok := msg.Push(reqLen + (size - origSize), grow);
      if !ok {
        return if i == 0 then -1 else -2;
      }
      GrownMore(before, reqLen, now, msg.bytes, grow);
      i := i + 1;
    }
    if msg.Size() != target {
      return -2;
    }
    res := 0;
  }

  /** Makes the request take up as many bytes as the response. */
  method Resize(msg: Msg, reqLen: nat, bodyLen: nat) returns (res: int)
    requires msg.Valid() && 0 < bodyLen <= MAX_ROUTE_BODY && 0 < reqLen <= |msg.bytes|
    modifies msg
    ensures msg.Valid() && -2 <= res <= 0
    ensures res == 0 ==> |msg.bytes| >= bodyLen && msg.bytes[bodyLen..] == old(msg.bytes)[reqLen..]
    ensures res == -1 ==> msg.bytes == old(msg.bytes)
    ensures msg.resizes && |old(msg.bytes)| - reqLen + bodyLen < U32 ==> res == 0
    ensures res == -2 ==> msg.resized || |old(msg.bytes)| - reqLen + bodyLen >= U32
    ensures res == 0 && bodyLen != reqLen && |old(msg.bytes)| - reqLen + bodyLen < U32 ==> msg.resized
  {
    res := 0;
    if bodyLen > reqLen {
      var target := (msg.Size() + (bodyLen - reqLen)) % U32;
      res := Grow(msg, reqLen, target);
    } else if bodyLen < reqLen {
      var ok := msg.Pop(bodyLen, reqLen - bodyLen);
      if !ok {
        return -1;
      }
      assert msg.bytes[bodyLen..] == old(msg.bytes)[reqLen..];
    }
  }

  /** Copies the response over the request, one window at a time. */
  method CopyResponse(msg: Msg, arena: Bytes, src: nat, bodyLen: nat) returns (ok: bool)
    requires msg.Valid() && 0 < bodyLen <= MAX_ROUTE_BODY && bodyLen <= |msg.bytes| && src + bodyLen <= |arena|
    modifies msg
    ensures msg.Valid() && (msg.exposes ==> ok) && msg.resized == old(msg.resized)
    ensures ok ==> msg.bytes == arena[src..src + bodyLen] + old(msg.bytes)[bodyLen..]
  {
    ghost var before := msg.bytes;
    var c := 0;
    ghost var done := 0;
    assert Copied(msg.bytes, 0, before, arena, src, 0);
    hide Copied;
    while c < MAX_CHUNKS
      invariant c <= MAX_CHUNKS && done == Least(c * CHUNK, bodyLen) && msg.Valid() && |msg.bytes| == |before|
      invariant msg.resized == old(msg.resized)
      invariant Copied(msg.bytes, 0, before, arena, src, done)
      decreases MAX_CHUNKS - c
    {
      var off := c * CHUNK;
      if off >= bodyLen {
        break;
      }
      var len := bodyLen - off;
      if len > CHUNK {
        len := CHUNK;
      }
      ok := CopyWindow(msg, arena, src, off, len, before);
      if !ok {
        return;
      }
      done := off + len;
      c := c + 1;
    }
    CopiedAll(msg.bytes, before, arena, src, done);
    ok := true;
  }

  lemma CopiedAll(now: Bytes, before: Bytes, arena: Bytes, src: nat, done: nat)
    requires Copied(now, 0, before, arena, src, done)
    ensures src + done <= |arena| && done <= |before| && now == arena[src..src + done] + before[done..]
  {
  }

  // One window of the response, which is pulled in on its own.
  method CopyWindow(msg: Msg, arena: Bytes, src: nat, off: nat, len: nat, ghost before: Bytes) returns (ok: bool)
    requires msg.Valid() && 0 < len <= CHUNK && off + len <= |msg.bytes| == |before| && src + off + len <= |arena|
    requires Copied(msg.bytes, 0, before, arena, src, off)
    modifies msg
    ensures msg.Valid() && (msg.exposes ==> ok) && msg.resized == old(msg.resized)
    ensures ok ==> |msg.bytes| == |before| && Copied(msg.bytes, 0, before, arena, src, off + len)
  {
    hide Copied;
    ok := msg.Pull(off, off + len);
    if ok {
      ok := CopyChunk(msg, arena, src + off, len);
    }
    if ok {
      CopiedOn(old(msg.bytes), 0, before, arena, src, off, len, msg.bytes);
    }
  }

  /** Writes the stream id of the request into every frame header. */
  method PatchSids(msg: Msg, r: Route, sid: u32) returns (ok: bool)
    requires msg.Valid() && |r.sidOffs| <= MAX_SID_OFFS && r.h2BodyLen <= MAX_ROUTE_BODY && r.h2BodyLen <= |msg.bytes|
    requires forall i :: 0 <= i < |r.sidOffs| ==> r.sidOffs[i] + 4 <= r.h2BodyLen
    modifies msg
    ensures msg.Valid() && (msg.exposes ==> ok) && msg.resized == old(msg.resized)
    ensures ok ==> msg.bytes == Patch(old(msg.bytes), r.sidOffs, sid)
  {
    ghost var patched := Patch(msg.bytes, r.sidOffs, sid);
    var i := 0;
    assert r.sidOffs[0..] == r.sidOffs;
    while i < MAX_SID_OFFS
      invariant i <= MAX_SID_OFFS && i <= |r.sidOffs| && msg.Valid() && |msg.bytes| >= r.h2BodyLen && msg.resized == old(msg.resized)
      invariant Patch(msg.bytes, r.sidOffs[i..], sid) == patched
      decreases MAX_SID_OFFS - i
    {
      if i >= |r.sidOffs| {
        break;
      }
      assert r.sidOffs[i..][0] == r.sidOffs[i] && r.sidOffs[i..][1..] == r.sidOffs[i + 1..];
      ok := WriteSid(msg, r.sidOffs[i], sid);
      if !ok {
        return;
      }
      i := i + 1;
    }
    assert r.sidOffs[i..] == [];
    ok := true;
  }

  /** Turns the request into the response. Only what fails before the message has changed returns -1. */
  method Rewrite(msg: Msg, r: Route, arena: Bytes, sid: u32, reqLen: nat, bodyLen: nat) returns (res: int)
    requires msg.Valid() && Placed(r, arena) && bodyLen == BodyLen(r, sid)
    requires 0 < bodyLen <= MAX_ROUTE_BODY && 0 < reqLen <= |msg.bytes|
    modifies msg
    ensures msg.Valid() && -2 <= res <= 0
    ensures res == 0 ==> msg.bytes == Response(r, arena, sid) + old(msg.bytes)[reqLen..]
    ensures res == -1 ==> msg.bytes == old(msg.bytes)
    ensures res == -2 ==> msg.resized || bodyLen == reqLen || |old(msg.bytes)| - reqLen + bodyLen >= U32
    ensures res == 0 ==> msg.resized || bodyLen == reqLen || |old(msg.bytes)| - reqLen + bodyLen >= U32
    ensures msg.Reliable() && |old(msg.bytes)| - reqLen + bodyLen < U32 ==> res == 0
  {
    hide Patch;
    ghost var before := msg.bytes;
    var isH2 := sid != 0;
    res := Resize(msg, reqLen, bodyLen);
    if res != 0 {
      return;
    }
    var src := if isH2 then r.h2BodyOff else r.bodyOff;
    var ok := CopyResponse(msg, arena, src, bodyLen);
    if !ok {
      return -2;
    }
    if isH2 {
      PatchFront(arena[src..src + bodyLen], before[reqLen..], r.sidOffs, sid);
      ok := PatchSids(msg, r, sid);
      if !ok {
        return -2;
      }
    }
  }

  /**
   `serve_route`: 0 if the first `reqLen` bytes of `msg` became the response, `applied` bytes of
   which go to the client; -1 if nothing was touched; -2 if the message has to be dropped. Only a
   response that went out is spent.
   */
  method ServeRoute(msg: Msg, flow: H2Flow?, r: Route, arena: Bytes, sid: u32, reqLen: nat) returns (res: int, applied: nat)
    requires msg.Valid() && Placed(r, arena)
    requires flow != null ==> InRange(flow.View())
    modifies msg, flow
    ensures msg.Valid() && -2 <= res <= 0
    ensures res == 0 ==>
              && reqLen <= |old(msg.bytes)|
              && msg.bytes == Response(r, arena, sid) + old(msg.bytes)[reqLen..]
              && applied == BodyLen(r, sid)
              && (sid != 0 ==> flow != null && HasRoom(old(flow.View()), r.dataLen)
                               && flow.View() == Spend(old(flow.View()), r.dataLen))
    ensures res == 0 && sid != 0 ==> r.dataLen <= old(flow.connWindow) && r.dataLen <= old(flow.streamWindow)
    ensures res == 0 && sid != 0 ==>
              && flow.connWindow == old(flow.connWindow) - r.dataLen && flow.streamWindow == old(flow.streamWindow)
              && flow.unreported == (old(flow.unreported) + r.dataLen) % 0x1_0000_0000
    ensures res == -1 ==> msg.bytes == old(msg.bytes)
    ensures res == -2 ==>
              var len := if sid != 0 then r.h2BodyLen else r.bodyLen;
              msg.resized || len == reqLen || |old(msg.bytes)| - reqLen + len >= U32
    ensures flow != null && (res < 0 || sid == 0) ==> flow.View() == old(flow.View())
    ensures msg.Reliable() ==>
              (res == 0 <==> Servable(r, sid, if flow == null then None else Some(old(flow.View())), |old(msg.bytes)|, reqLen))
    ensures msg.Reliable() && |old(msg.bytes)| + MAX_ROUTE_BODY < U32 ==> res >= -1
  {
    hide Response;
    applied := 0;
    var isH2 := sid != 0;
    var bodyLen := if isH2 then r.h2BodyLen else r.bodyLen;
    if bodyLen == 0 || bodyLen > MAX_ROUTE_BODY {
      return -1, 0;
    }
    if isH2 {
      if flow == null {
        return -1, 0;
      }
      if flow.connWindow < 0 || flow.connWindow < r.dataLen || flow.streamWindow < r.dataLen {
        return -1, 0;
      }
    }
    if reqLen == 0 || reqLen > msg.Size() {
      return -1, 0;
    }
    res := Rewrite(msg, r, arena, sid, reqLen, bodyLen);
    if res != 0 {
      return;
    }
    var redirected: bool := *;
    if !redirected && !msg.Reliable() {
      return -2, 0;
    }
    applied := bodyLen;
    if isH2 {
      flow.connWindow := flow.connWindow - r.dataLen;
      flow.unreported := (flow.unreported + r.dataLen) % U32;
    }
  }
}
