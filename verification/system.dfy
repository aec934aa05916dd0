/**
 The kernel program and the user space server together, over whole runs of a connection.

 The kernel answers some requests and forwards the rest behind sync frames; user space reads what
 was forwarded in chunks of any size. What the codec ends up doing is told apart by two logs: every
 frame it decoded next to the table it was decoded against, and what it had been told of the fast
 path's spending each time its table was replaced.
 */
module System {
  import opened Wire
  import opened Scanning
  import opened Reading
  import opened Session
  import opened Hpack
  import opened DtSync
  import opened FlowControl
  import opened Serving

  /**
   What the two sides share and this model leaves open: how a frame changes a dynamic table, what an
   entry counts as, how large the table may get, and how large a sync body.
   */
  datatype Env = Env(dec: (Table, Bytes) -> Table, size: Sizer, limit: nat, cap: nat)

  /** Decoding a frame never takes a table over its limit, section 4.4 of RFC 7541. */
  ghost predicate Sound(env: Env) {
    && (forall t, f :: TableSize(env.size, t) <= env.limit ==> TableSize(env.size, env.dec(t, f)) <= env.limit)
    && env.cap <= MAX_SYNC_BUF
  }

  /** A frame the client sends, reserved bit and all. */
  ghost predicate ClientFrame(b: Bytes) {
    && |b| >= FRAME_HEADER_LEN && |b| == FRAME_HEADER_LEN + LenAt(b)
    && b[3] != DT_SYNC && b[3] != FC_SYNC
  }

  /** A message as the kernel forwards it: whole frames, of which only the first can hold a header block. */
  ghost predicate ClientMessage(env: Env, fs: seq<Bytes>) {
    && fs != []
    && (forall f :: f in fs ==> ClientFrame(f))
    && (forall f :: f in fs[1..] ==> forall t :: env.dec(t, f) == t)
  }

  function Parsed(f: Bytes): Frame
    requires |f| >= FRAME_HEADER_LEN
  {
    Frame(f[3], f[4], SidAt(f), f[FRAME_HEADER_LEN..])
  }

  function AllParsed(fs: seq<Bytes>): seq<Frame>
    requires forall f :: f in fs ==> ClientFrame(f)
  {
    if fs == [] then [] else assert ClientFrame(fs[0]); [Parsed(fs[0])] + AllParsed(fs[1..])
  }

  lemma ParseFrameThen(f: Bytes, rest: Bytes)
    requires ClientFrame(f) && Parse(rest).Some?
    ensures Parse(f + rest) == Some([Parsed(f)] + Parse(rest).value)
  {
    var m := f + rest;
    assert m[..3] == f[..3] && m[5..9] == f[5..9];
    assert m[|f|..] == rest && m[FRAME_HEADER_LEN..|f|] == f[FRAME_HEADER_LEN..];
  }

  lemma {:induction false} ParseMessage(fs: seq<Bytes>)
    requires forall f :: f in fs ==> ClientFrame(f)
    ensures Parse(Concat(fs)) == Some(AllParsed(fs))
  {
    if fs != [] {
      var f, rest := fs[0], Concat(fs[1..]);
      assert f in fs && forall g :: g in fs[1..] ==> g in fs;
      ParseMessage(fs[1..]);
      ParseFrameThen(f, rest);
    }
  }

  // ---- the codec ----

  datatype Decoded = Decoded(table: Table, frame: Bytes)

  datatype Codec = Codec(
    skip: nat, buf: Bytes, table: Table, consumed: u32,
    decoded: seq<Decoded>, primes: seq<u32>, failed: bool)

  const FRESH: Codec := Codec(PREFACE_LEN, [], [], 0, [], [], false)

  function DataByte(env: Env, c: Codec, b: byte): Codec {
    if c.skip > 0 then c.(skip := c.skip - 1)
    else
      var buf := c.buf + [b];
      if |buf| >= FRAME_HEADER_LEN && |buf| == FRAME_HEADER_LEN + LenAt(buf) then
        c.(buf := [], table := env.dec(c.table, buf), decoded := c.decoded + [Decoded(c.table, buf)])
      else c.(buf := buf)
  }

  function Data(env: Env, c: Codec, bytes: Bytes): Codec
    decreases |bytes|
  {
    if bytes == [] then c else Data(env, DataByte(env, c, bytes[0]), bytes[1..])
  }

  /** `consume_send_capacity`. */
  function Consume(c: Codec, n: u32): Codec {
    c.(consumed := Add32(c.consumed, n))
  }

  /** `prime_dynamic_table`: empties the table and decodes the block into it. */
  function Prime(env: Env, c: Codec, block: Bytes): Codec {
    match Replay(env.size, env.limit, [], block)
    case None => c.(failed := true)
    case Some(t) => c.(table := t, primes := c.primes + [c.consumed])
  }

  function Feed(env: Env, c: Codec, t: Trace): Codec
    decreases t
  {
    var c1 := Data(env, Consume(c, t.sent), t.data);
    if t.Update? then Feed(env, Prime(env, c1, t.block), t.next) else c1
  }

  lemma {:induction false} DataConcat(env: Env, c: Codec, a: Bytes, b: Bytes)
    ensures Data(env, c, a + b) == Data(env, Data(env, c, a), b)
    decreases |a|
  {
    hide DataByte;
    if a == [] {
      assert a + b == b;
    } else {
      assert (a + b)[0] == a[0] && (a + b)[1..] == a[1..] + b;
      DataConcat(env, DataByte(env, c, a[0]), a[1..], b);
    }
  }

  lemma {:induction false} DataConsume(env: Env, c: Codec, n: u32, b: Bytes)
    ensures Data(env, Consume(c, n), b) == Consume(Data(env, c, b), n)
    decreases |b|
  {
    if b != [] {
      DataByteConsume(env, c, n, b[0]);
      DataConsume(env, DataByte(env, c, b[0]), n, b[1..]);
    }
  }

  lemma DataByteConsume(env: Env, c: Codec, n: u32, b: byte)
    ensures DataByte(env, Consume(c, n), b) == Consume(DataByte(env, c, b), n)
  {
  }

  lemma FeedPrepend(env: Env, c: Codec, d: Bytes, n: u32, t: Trace)
    ensures Feed(env, c, Prepend(d, n, t)) == Feed(env, Data(env, Consume(c, n), d), t)
  {
    hide Data, Add32;
    DataConcat(env, Consume(c, Add32(n, t.sent)), d, t.data);
    DataConsume(env, Consume(c, n), t.sent, d);
    Add32Associative(c.consumed, n, t.sent);
    assert Consume(Consume(c, n), t.sent) == Consume(c, Add32(n, t.sent));
  }

  lemma {:induction false} FeedJoin(env: Env, c: Codec, a: Trace, b: Trace)
    ensures Feed(env, c, Join(a, b)) == Feed(env, Feed(env, c, a), b)
    decreases a
  {
    hide Data, Consume, Prime;
    match a
    case End(d, n) => FeedPrepend(env, c, d, n, b);
    case Update(d, n, blk, next) => FeedJoin(env, Prime(env, Data(env, Consume(c, n), d), blk), next, b);
  }

  /** Feeding more only ever adds to what the codec did. */
  ghost predicate Extends(c: Codec, c': Codec) {
    c.decoded <= c'.decoded && c.primes <= c'.primes && (c.failed ==> c'.failed)
  }

  lemma {:induction false} DataExtends(env: Env, c: Codec, b: Bytes)
    ensures Extends(c, Data(env, c, b))
    decreases |b|
  {
    if b != [] {
      DataExtends(env, DataByte(env, c, b[0]), b[1..]);
    }
  }

  lemma {:induction false} FeedExtends(env: Env, c: Codec, t: Trace)
    ensures Extends(c, Feed(env, c, t))
    decreases t
  {
    hide Data;
    DataExtends(env, Consume(c, t.sent), t.data);
    if t.Update? {
      FeedExtends(env, Prime(env, Data(env, Consume(c, t.sent), t.data), t.block), t.next);
    }
  }

  /** Decoding `fs` in order from `t`: the table it leads to and what each frame was decoded against. */
  function TableAfter(env: Env, t: Table, fs: seq<Bytes>): Table
    decreases |fs|
  {
    if fs == [] then t else TableAfter(env, env.dec(t, fs[0]), fs[1..])
  }

  function DecodeLog(env: Env, t: Table, fs: seq<Bytes>): seq<Decoded>
    decreases |fs|
  {
    if fs == [] then [] else [Decoded(t, fs[0])] + DecodeLog(env, env.dec(t, fs[0]), fs[1..])
  }

  // A frame is decoded when its last byte arrives, and not before.
  lemma {:induction false} DataFrame(env: Env, c: Codec, f: Bytes, done: nat)
    requires ClientFrame(f) && done < |f| && c.skip == 0 && c.buf == f[..done]
    ensures Data(env, c, f[done..]) ==
            c.(buf := [], table := env.dec(c.table, f), decoded := c.decoded + [Decoded(c.table, f)])
    decreases |f| - done
  {
    var buf := f[..done] + [f[done]];
    assert buf == f[..done + 1] && f[done..][0] == f[done] && f[done..][1..] == f[done + 1..];
    assert |buf| >= FRAME_HEADER_LEN ==> buf[..3] == f[..3];
    if done + 1 == |f| {
      assert buf == f;
    } else {
      DataFrame(env, c.(buf := buf), f, done + 1);
    }
  }

  lemma {:induction false} DataMessage(env: Env, c: Codec, fs: seq<Bytes>)
    requires (forall f :: f in fs ==> ClientFrame(f)) && c.skip == 0 && c.buf == []
    ensures Data(env, c, Concat(fs)) ==
            c.(table := TableAfter(env, c.table, fs), decoded := c.decoded + DecodeLog(env, c.table, fs))
    decreases |fs|
  {
    hide DataByte;
    if fs == [] {
      assert c.decoded + [] == c.decoded;
    } else {
      DataFrame(env, c, fs[0], 0);
      assert fs[0][0..] == fs[0];
      DataConcat(env, c, fs[0], Concat(fs[1..]));
      var c1 := Data(env, c, fs[0]);
      assert forall f :: f in fs[1..] ==> f in fs;
      DataMessage(env, c1, fs[1..]);
      assert c.decoded + ([Decoded(c.table, fs[0])] + DecodeLog(env, c1.table, fs[1..]))
          == c.decoded + [Decoded(c.table, fs[0])] + DecodeLog(env, c1.table, fs[1..]);
    }
  }

  lemma {:induction false} OnlyFirstDecodes(env: Env, t: Table, fs: seq<Bytes>)
    requires forall f :: f in fs ==> forall u :: env.dec(u, f) == u
    ensures TableAfter(env, t, fs) == t
    decreases |fs|
  {
    if fs != [] {
      assert fs[0] in fs && forall f :: f in fs[1..] ==> f in fs;
      OnlyFirstDecodes(env, t, fs[1..]);
    }
  }

  lemma {:induction false} SkipPreface(env: Env, c: Codec, b: Bytes)
    requires c.skip >= |b|
    ensures Data(env, c, b) == c.(skip := c.skip - |b|)
    decreases |b|
  {
    if b != [] {
      SkipPreface(env, DataByte(env, c, b[0]), b[1..]);
    }
  }

  // ---- the kernel ----

  /** `handshaked` is set once the client has acknowledged the server's SETTINGS. */
  datatype Kernel = Kernel(table: Table, dirty: bool, handshaked: bool, flow: Flow, alive: bool)

  /**
   Everything a connection came to: `stream` went to user space, the rest is what it stands for.
   `handed` is the kernel's table as it was behind the last message that was forwarded, and `greeting`
   what went to user space up to the end of the handshake.
   */
  datatype History = History(
    stream: Bytes, greeting: Bytes, forwarded: Bytes, blocks: seq<Bytes>,
    decoded: seq<Decoded>, primes: seq<u32>, handed: Table,
    served: nat, granted: nat, reportFailed: bool)

  datatype Sys = Sys(k: Kernel, h: History)

  /** A connection that was just upgraded: the preface is all that was forwarded. */
  const UPGRADED: Sys := Sys(Kernel([], false, false, OPENING, true), History(PREFACE, PREFACE, [], [], [], [], [], 0, 0, false))

  /**
   What the kernel does with one message. `windows` is what following a forwarded one makes of the
   windows, and the two flags say whether pushing a frame in front of it works. A connection is cut
   if a response is left half written.
   */
  datatype Step =
    | Serve(frame: Bytes, dataLen: u32)
    | Forward(frames: seq<Bytes>, windows: Flow, syncPushed: bool, reportPushed: bool)
    | Cut

  ghost predicate Enabled(env: Env, s: Sys, step: Step) {
    && s.k.alive
    && match step
       case Serve(f, dataLen) => s.k.handshaked && |s.k.table| <= MAX_SYNC_ENTRIES && HasRoom(s.k.flow, dataLen)
       case Forward(fs, fc, _, _) => ClientMessage(env, fs) && MayTrack(s.k.flow, fs, fc)
       case Cut => true
  }

  /** Only a client that has received the server's SETTINGS acknowledges them. */
  predicate Acks(f: Bytes) {
    |f| >= FRAME_HEADER_LEN && f[3] == SETTINGS && f[4] % 2 == ACK_FLAG
  }

  /** What following a message can make of the windows, even if frames of it are missed or cannot be exposed. */
  ghost predicate MayTrack(fc: Flow, fs: seq<Bytes>, fc': Flow)
    requires forall f :: f in fs ==> ClientFrame(f)
  {
    OnlyGrew(fc, fc') && fc'.conn <= fc.conn + Granted(AllParsed(fs))
  }

  /** What following makes of the windows if everything of the message can be exposed. */
  function Tracked(fc: Flow, fs: seq<Bytes>): Flow
    requires forall f :: f in fs ==> ClientFrame(f)
  {
    TrackFrames(fc, FlowControl.First(AllParsed(fs)))
  }

  function Report(fc: Flow, pushed: bool): Flow {
    if pushed then fc.(unreported := 0) else fc
  }

  function FcPrefix(fc: Flow, pushed: bool): Bytes {
    if fc.unreported > 0 && pushed then Encode(FcFrame(fc.unreported)) else []
  }

  function Next(env: Env, s: Sys, step: Step): Sys
    requires step.Forward? ==> step.frames != [] && forall f :: f in step.frames ==> ClientFrame(f)
  {
    match step
    case Serve(f, dataLen) =>
      Sys(s.k.(table := env.dec(s.k.table, f), dirty := true, flow := Spend(s.k.flow, dataLen)),
          s.h.(served := s.h.served + dataLen))
    case Forward(fs, fc, syncPushed, reportPushed) =>
      var t := s.k.table;
      var block := RenderSync(t, |t|, env.cap);
      if s.k.dirty && (block.None? || !syncPushed) then Sys(s.k.(alive := false), s.h)
      else
        var fc' := Report(fc, reportPushed);
        var sync := if s.k.dirty then Encode(DtFrame(block.value)) else [];
        var stream := s.h.stream + (FcPrefix(fc, reportPushed) + (sync + Concat(fs)));
        Sys(Kernel(env.dec(t, fs[0]), false, s.k.handshaked || Acks(fs[0]), fc', true),
            s.h.(stream := stream,
                 greeting := if s.k.handshaked then s.h.greeting else stream,
                 forwarded := s.h.forwarded + Concat(fs),
                 blocks := if s.k.dirty then s.h.blocks + [block.value] else s.h.blocks,
                 decoded := s.h.decoded + DecodeLog(env, t, fs),
                 primes := if s.k.dirty then s.h.primes + [(s.h.served - fc'.unreported) % U32] else s.h.primes,
                 handed := env.dec(t, fs[0]),
                 granted := s.h.granted + Granted(AllParsed(fs)),
                 reportFailed := s.h.reportFailed || (fc.unreported > 0 && !reportPushed)))
    case Cut => Sys(s.k.(alive := false), s.h)
  }

  ghost predicate Possible(env: Env, s: Sys, steps: seq<Step>)
    decreases |steps|
  {
    steps == [] || (Enabled(env, s, steps[0]) && Possible(env, Next(env, s, steps[0]), steps[1..]))
  }

  ghost function After(env: Env, s: Sys, steps: seq<Step>): Sys
    requires Possible(env, s, steps)
    decreases |steps|
  {
    if steps == [] then s else After(env, Next(env, s, steps[0]), steps[1..])
  }

  lemma {:induction false} AfterAppend(env: Env, s: Sys, steps: seq<Step>, step: Step)
    requires Possible(env, s, steps) && Enabled(env, After(env, s, steps), step)
    ensures Possible(env, s, steps + [step])
    ensures After(env, s, steps + [step]) == Next(env, After(env, s, steps), step)
    decreases |steps|
  {
    hide Next;
    if steps == [] {
      var s' := Next(env, s, step);
      assert steps + [step] == [step] && [step][1..] == [];
      assert Possible(env, s', []) && After(env, s', []) == s';
    } else {
      assert (steps + [step])[0] == steps[0] && (steps + [step])[1..] == steps[1..] + [step];
      AfterAppend(env, Next(env, s, steps[0]), steps[1..], step);
    }
  }

  // ---- what the reader makes of what the kernel forwards ----

  ghost predicate AtBoundary(st: State) {
    st == Header([]) || st == Payload(0)
  }

  lemma BoundariesAgree(st: State, b: Bytes)
    requires AtBoundary(st) && b != []
    ensures Run(st, b) == Run(Header([]), b)
  {
    assert StepByte(st, b[0]) == StepByte(Header([]), b[0]);
  }

  lemma RunHeaderOf(st: State, h: Bytes, rest: Bytes)
    requires AtBoundary(st) && |h| == FRAME_HEADER_LEN
    ensures var x := Run(OnHeader(h).state, rest);
            Run(st, h + rest) == Stepped(x.state, OnHeader(h).events + x.events)
  {
    hide OnHeader, StepByte, Run;
    BoundariesAgree(st, h + rest);
    RunHeader([], h);
    assert [] + h == h;
    RunConcat(Header([]), h, rest);
  }

  lemma ClientHeader(f: Bytes)
    requires ClientFrame(f)
    ensures FRAME_HEADER_LEN <= |f| < FRAME_HEADER_LEN + MAX_PAYLOAD
    ensures OnHeader(f[..FRAME_HEADER_LEN]) == Stepped(Payload(|f| - FRAME_HEADER_LEN), Outs(f[..FRAME_HEADER_LEN]))
  {
    assert f[..FRAME_HEADER_LEN][..3] == f[..3];
  }

  lemma RunClientFrame(st: State, f: Bytes)
    requires AtBoundary(st) && ClientFrame(f)
    ensures Run(st, f).events == Outs(f) && AtBoundary(Run(st, f).state)
  {
    ClientHeader(f);
    hide Run, StepByte, OnHeader, Outs, ClientFrame;
    var h, p := f[..FRAME_HEADER_LEN], f[FRAME_HEADER_LEN..];
    assert f == h + p;
    RunHeaderOf(st, h, p);
    if p != [] {
      RunPayload(|p|, p);
    } else {
      RunNothing(Payload(0));
      OutsNothing();
    }
    OutsConcat(h, p);
  }

  lemma OutsNothing()
    ensures Outs([]) == []
  {
  }

  lemma OutsConcat(a: Bytes, b: Bytes)
    ensures Outs(a + b) == Outs(a) + Outs(b)
  {
  }

  lemma RunNothing(st: State)
    ensures Run(st, []) == Stepped(st, [])
  {
  }

  lemma {:induction false} RunMessage(st: State, fs: seq<Bytes>)
    requires AtBoundary(st) && forall f :: f in fs ==> ClientFrame(f)
    ensures Run(st, Concat(fs)).events == Outs(Concat(fs)) && AtBoundary(Run(st, Concat(fs)).state)
    decreases |fs|
  {
    hide Run, StepByte;
    if fs == [] {
      RunNothing(st);
    } else {
      assert fs[0] in fs && forall f :: f in fs[1..] ==> f in fs;
      RunClientFrame(st, fs[0]);
      RunConcat(st, fs[0], Concat(fs[1..]));
      RunMessage(Run(st, fs[0]).state, fs[1..]);
      assert Outs(fs[0]) + Outs(Concat(fs[1..])) == Outs(Concat(fs));
    }
  }

  lemma SyncHeader(len: nat, kind: byte)
    requires len <= MAX_SYNC_FRAME && (kind == DT_SYNC || (kind == FC_SYNC && len == FC_BODY_LEN))
    ensures OnHeader(FrameHeader(len, kind, 0, 0)) == Stepped(if kind == DT_SYNC then Sync([], len) else State.Flow([]), [])
  {
    HeaderFields(len, kind, 0, 0, []);
    var h := FrameHeader(len, kind, 0, 0);
    assert h + [] == h;
  }

  lemma RunFc(st: State, n: u32, rest: Bytes)
    requires AtBoundary(st)
    ensures var x := Run(Header([]), rest);
            Run(st, Encode(FcFrame(n)) + rest) == Stepped(x.state, [Event.Report(n)] + x.events)
  {
    hide Run, StepByte, OnHeader;
    var h, body := FrameHeader(4, FC_SYNC, 0, 0), BE32(n);
    assert Encode(FcFrame(n)) + rest == h + (body + rest);
    SyncHeader(4, FC_SYNC);
    RunHeaderOf(st, h, body + rest);
    RunFlow([], body);
    assert [] + body == body;
    BE32RoundTrip(n);
    RunConcat(State.Flow([]), body, rest);
    var later := Run(State.Flow([]), body + rest).events;
    assert [] + later == later;
  }

  /** An empty block is only handed over once the message behind it starts to arrive. */
  lemma RunDt(st: State, block: Bytes, rest: Bytes)
    requires AtBoundary(st) && |block| <= MAX_SYNC_FRAME && rest != []
    ensures var x := Run(Header([]), rest);
            Run(st, Encode(DtFrame(block)) + rest) == Stepped(x.state, [Block(block)] + x.events)
  {
    hide Run, StepByte, OnHeader;
    var h := FrameHeader(|block|, DT_SYNC, 0, 0);
    assert Encode(DtFrame(block)) + rest == h + (block + rest);
    SyncHeader(|block|, DT_SYNC);
    RunHeaderOf(st, h, block + rest);
    var later := Run(Sync([], |block|), block + rest).events;
    assert [] + later == later;
    UpdateMeans(block, rest);
  }

  /** What one forwarded message means to whoever reads it. */
  function Meaning(sent: u32, block: Option<Bytes>, m: Bytes): Trace {
    if block.Some? then Update([], sent, block.value, End(m, 0)) else End(m, sent)
  }

  lemma OutsView(b: Bytes)
    ensures View(Outs(b)) == End(b, 0)
  {
    OutsHaveNoBlock(b);
    ViewWithoutBlock(Outs(b));
  }

  lemma RunForwarded(st: State, sent: u32, block: Option<Bytes>, fs: seq<Bytes>)
    requires AtBoundary(st) && fs != [] && forall f :: f in fs ==> ClientFrame(f)
    requires block.Some? ==> |block.value| <= MAX_SYNC_FRAME
    ensures var fc := if sent > 0 then Encode(FcFrame(sent)) else [];
            var dt := if block.Some? then Encode(DtFrame(block.value)) else [];
            var x := Run(st, fc + (dt + Concat(fs)));
            View(x.events) == Meaning(sent, block, Concat(fs)) && AtBoundary(x.state)
  {
    hide Run, StepByte, OnHeader, Encode;
    var m := Concat(fs);
    assert fs[0] in fs && |m| >= |fs[0]| > 0;
    RunMessage(st, fs);
    RunMessage(Header([]), fs);
    OutsView(m);
    var dt := if block.Some? then Encode(DtFrame(block.value)) else [];
    var rest := dt + m;
    var st1 := if sent > 0 then Header([]) else st;
    var ev := Run(st1, rest).events;
    assert View(ev) == Meaning(0, block, m) && AtBoundary(Run(st1, rest).state) by {
      if block.Some? {
        RunDt(st1, block.value, m);
        assert ev == [Block(block.value)] + Outs(m) && ev[1..] == Outs(m);
      } else {
        assert rest == m;
      }
    }
    if sent > 0 {
      RunFc(st, sent, rest);
      ViewOfReport(sent, ev);
      PrependSent(sent, block, m);
    } else {
      assert [] + rest == rest;
    }
  }

  lemma ViewOfReport(n: u32, ev: seq<Event>)
    ensures View([Event.Report(n)] + ev) == Prepend([], n, View(ev))
  {
    assert ([Event.Report(n)] + ev)[0] == Event.Report(n) && ([Event.Report(n)] + ev)[1..] == ev;
  }

  lemma PrependSent(n: u32, block: Option<Bytes>, m: Bytes)
    ensures Prepend([], n, Meaning(0, block, m)) == Meaning(n, block, m)
  {
    assert [] + m == m;
    var none: Bytes := [];
    assert none + none == none;
  }

  // ---- the invariant ----

  /** The codec, once everything the kernel forwarded has reached it in order. */
  function CaughtUp(env: Env, stream: Bytes): Codec {
    Feed(env, FRESH, View(Run(Preface(0), stream).events))
  }

  /** Coherence: not dirty means user space, once it has caught up, holds the kernel's table. */
  ghost predicate Coherent(env: Env, s: Sys) {
    var c := CaughtUp(env, s.h.stream);
    && AtBoundary(Run(Preface(0), s.h.stream).state)
    && c.skip == 0 && c.buf == [] && !c.failed
    && c.decoded == s.h.decoded && c.primes == s.h.primes
    && c.table == s.h.handed && (!s.k.dirty ==> s.h.handed == s.k.table)
    && c.consumed == (s.h.served - s.k.flow.unreported) % U32
    && TableSize(env.size, s.k.table) <= env.limit
  }

  /** What went to user space, with everything that is not the client's taken out again. */
  ghost predicate Transparent(s: Sys) {
    var t := View(Run(Preface(0), s.h.stream).events);
    && DataOf(t) == PREFACE + s.h.forwarded
    && UpdatesOf(t) == s.h.blocks
    && SentOf(t) == (s.h.served - s.k.flow.unreported) % U32
  }

  /**
   Window safety: what was served fits what the client opened and granted. As long as no report was
   put off the spending that is yet to be reported fits the window too, so it never wraps around.
   */
  ghost predicate WithinWindow(s: Sys) {
    && 0 <= s.k.flow.conn <= MAX_WINDOW
    && s.k.flow.conn + s.h.served <= H2_INITIAL_WINDOW + s.h.granted
    && s.k.flow.unreported <= s.h.served
    && (!s.h.reportFailed ==> s.k.flow.conn + s.k.flow.unreported <= MAX_WINDOW)
  }

  /** No update goes to user space before the handshake is over, as nothing is answered before. */
  ghost predicate Greeted(s: Sys) {
    && s.h.greeting <= s.h.stream
    && BlocksOf(Run(Preface(0), s.h.greeting).events) == []
    && (!s.k.handshaked ==> !s.k.dirty && s.h.blocks == [] && s.h.greeting == s.h.stream)
  }

  ghost predicate Invariant(env: Env, s: Sys) {
    Coherent(env, s) && Transparent(s) && WithinWindow(s) && Greeted(s)
  }

  lemma PrefaceMeans()
    ensures Run(Preface(0), PREFACE).state == Header([])
    ensures View(Run(Preface(0), PREFACE).events) == End(PREFACE, 0)
  {
    hide Run, StepByte;
    assert PREFACE == PREFACE[0..0 + PREFACE_LEN];
    RunPreface(0, PREFACE);
    OutsView(PREFACE);
  }

  lemma FeedPreface(env: Env)
    ensures Feed(env, FRESH, End(PREFACE, 0)) == FRESH.(skip := 0)
  {
    hide Data;
    SkipPreface(env, FRESH, PREFACE);
    assert Consume(FRESH, 0) == FRESH;
  }

  lemma UpgradedCoherent(env: Env)
    ensures Invariant(env, UPGRADED)
  {
    hide Run, StepByte, View, Feed;
    PrefaceMeans();
    TotalsView(Run(Preface(0), PREFACE).events);
    FeedPreface(env);
    assert PREFACE + [] == PREFACE;
  }

  lemma ServeKeeps(env: Env, s: Sys, step: Step)
    requires Sound(env) && step.Serve? && Enabled(env, s, step)
    requires Coherent(env, s) && Transparent(s) && WithinWindow(s)
    ensures var s' := Next(env, s, step); Coherent(env, s') && Transparent(s') && WithinWindow(s')
  {
    hide Run, View, Feed;
    var s' := Next(env, s, step);
    SpendBalances(s.h.served, s.k.flow.unreported, step.dataLen);
    assert s'.h.stream == s.h.stream;
  }

  lemma SpendBalances(served: nat, unreported: u32, dataLen: u32)
    ensures (served + dataLen - (unreported + dataLen) % U32) % U32 == (served - unreported) % U32
  {
    var sum := unreported + dataLen;
    if sum >= U32 {
      assert sum % U32 == sum - U32;
      ModShift(served - unreported);
    } else {
      assert sum % U32 == sum;
    }
  }

  lemma ModShift(x: int)
    ensures (x + U32) % U32 == x % U32
  {
  }

  /** A message that goes through, broken down into what it carries. */
  lemma ForwardStream(env: Env, s: Sys, step: Step)
    requires Sound(env) && step.Forward? && Enabled(env, s, step) && Next(env, s, step).k.alive
    requires AtBoundary(Run(Preface(0), s.h.stream).state)
    ensures var t := View(Run(Preface(0), s.h.stream).events);
            var fc := step.windows;
            var block := if s.k.dirty then RenderSync(s.k.table, |s.k.table|, env.cap) else None;
            var m := Meaning(if step.reportPushed then fc.unreported else 0, block, Concat(step.frames));
            var x := Run(Preface(0), Next(env, s, step).h.stream);
            View(x.events) == Join(t, m) && AtBoundary(x.state)
  {
    hide Run, View, StepByte, Encode, RenderTable, AllRenderable, AllParsed, Granted;
    var fc := step.windows;
    var sent := if step.reportPushed then fc.unreported else 0;
    var block := if s.k.dirty then RenderSync(s.k.table, |s.k.table|, env.cap) else None;
    var before := Run(Preface(0), s.h.stream);
    var fcBytes := if sent > 0 then Encode(FcFrame(sent)) else [];
    var dtBytes := if block.Some? then Encode(DtFrame(block.value)) else [];
    var added := fcBytes + (dtBytes + Concat(step.frames));
    RunForwarded(before.state, sent, block, step.frames);
    assert Next(env, s, step).h.stream == s.h.stream + added;
    RunConcat(Preface(0), s.h.stream, added);
    ViewConcat(before.events, Run(before.state, added).events);
  }

  /** What the codec makes of one message once it has caught up with everything before. */
  lemma FeedMessage(env: Env, c: Codec, sent: u32, block: Option<Bytes>, t: Table, fs: seq<Bytes>)
    requires ClientMessage(env, fs) && c.skip == 0 && c.buf == []
    requires if block.Some? then Replay(env.size, env.limit, [], block.value) == Some(t) else c.table == t
    ensures Feed(env, c, Meaning(sent, block, Concat(fs))) ==
            c.(table := env.dec(t, fs[0]), decoded := c.decoded + DecodeLog(env, t, fs), consumed := Add32(c.consumed, sent),
               primes := if block.Some? then c.primes + [Add32(c.consumed, sent)] else c.primes)
  {
    hide DataByte, Replay, Add32, DecodeLog;
    var c1 := Consume(c, sent);
    var c2 := if block.Some? then Prime(env, c1, block.value) else c1;
    DataMessage(env, c2, fs);
    OnlyFirstDecodes(env, env.dec(t, fs[0]), fs[1..]);
    assert Data(env, c1, []) == c1;
    if block.Some? {
      assert Add32(c1.consumed, 0) == c1.consumed by { Add32Zero(c1.consumed); }
    }
  }

  lemma Add32Zero(n: u32)
    ensures Add32(n, 0) == n
  {
  }

  /** Priming with what the kernel renders gives the decoder the kernel's table. */
  lemma SyncReplays(env: Env, t: Table)
    requires RenderSync(t, |t|, env.cap).Some? && TableSize(env.size, t) <= env.limit
    ensures Replay(env.size, env.limit, [], RenderSync(t, |t|, env.cap).value) == Some(t)
  {
    assert t[..|t|] == t;
    ReplayRoundTrip(env.size, env.limit, t);
  }

  /** The block in front of a message, if there is one. */
  function BlockFor(env: Env, k: Kernel): Option<Bytes> {
    if k.dirty then RenderSync(k.table, |k.table|, env.cap) else None
  }

  // The codec behind a message that went through.
  lemma ForwardCaughtUp(env: Env, s: Sys, step: Step)
    requires Sound(env) && step.Forward? && Enabled(env, s, step) && Next(env, s, step).k.alive
    requires Coherent(env, s)
    ensures var c, c' := CaughtUp(env, s.h.stream), CaughtUp(env, Next(env, s, step).h.stream);
            var sent, t, fs := if step.reportPushed then step.windows.unreported else 0, s.k.table, step.frames;
            && c' == c.(table := env.dec(t, fs[0]), decoded := c.decoded + DecodeLog(env, t, fs), consumed := Add32(c.consumed, sent),
                        primes := if s.k.dirty then c.primes + [Add32(c.consumed, sent)] else c.primes)
            && AtBoundary(Run(Preface(0), Next(env, s, step).h.stream).state)
  {
    hide Run, View, Feed, Encode, DecodeLog, Concat, AllParsed, Granted, FcPrefix, Add32, Join, TableSize, Replay;
    var sent := if step.reportPushed then step.windows.unreported else 0;
    var block := BlockFor(env, s.k);
    ForwardStream(env, s, step);
    var m := Meaning(sent, block, Concat(step.frames));
    FeedJoin(env, FRESH, View(Run(Preface(0), s.h.stream).events), m);
    if s.k.dirty {
      SyncReplays(env, s.k.table);
    }
    hide RenderSync, Meaning;
    FeedMessage(env, CaughtUp(env, s.h.stream), sent, block, s.k.table, step.frames);
  }

  lemma ForwardCoherent(env: Env, s: Sys, step: Step)
    requires Sound(env) && step.Forward? && Enabled(env, s, step) && Next(env, s, step).k.alive
    requires Coherent(env, s)
    ensures Coherent(env, Next(env, s, step))
  {
    hide CaughtUp, Run, Encode, DecodeLog, Concat, AllParsed, Granted, FcPrefix, Add32, TableSize, RenderSync, AtBoundary;
    ForwardCaughtUp(env, s, step);
    ReportBalances(s.h.served, s.k.flow.unreported, if step.reportPushed then step.windows.unreported else 0);
  }

  lemma ReportBalances(served: nat, unreported: u32, sent: u32)
    requires sent == 0 || sent == unreported
    ensures Add32((served - unreported) % U32, sent) == (served - (unreported - sent)) % U32
  {
    ModAddInt(served - unreported, sent);
  }

  lemma ModAddInt(a: int, b: nat)
    ensures (a % U32 + b) % U32 == (a + b) % U32
  {
  }

  lemma TrackedBounds(fc: Flow, fs: seq<Bytes>)
    requires fc.conn <= MAX_WINDOW && forall f :: f in fs ==> ClientFrame(f)
    ensures MayTrack(fc, fs, Tracked(fc, fs))
  {
    var ps := AllParsed(fs);
    TrackBounds(fc, FlowControl.First(ps));
    if |ps| > MAX_FLOW_FRAMES {
      GrantedPrefix(ps, MAX_FLOW_FRAMES);
    }
  }

  lemma ForwardWithinWindow(env: Env, s: Sys, step: Step)
    requires step.Forward? && Enabled(env, s, step) && WithinWindow(s)
    ensures WithinWindow(Next(env, s, step))
  {
    hide Run, View, Encode, DecodeLog, RenderSync, AllParsed, Granted, Concat, FcPrefix;
  }

  lemma ForwardTransparent(env: Env, s: Sys, step: Step)
    requires Sound(env) && step.Forward? && Enabled(env, s, step) && Next(env, s, step).k.alive
    requires Coherent(env, s) && Transparent(s) && WithinWindow(s)
    ensures Transparent(Next(env, s, step))
  {
    hide Run, View, Feed, Encode, DecodeLog, RenderSync, AllParsed, Granted, FcPrefix;
    hide Add32, DataOf, UpdatesOf, SentOf, Meaning, Concat;
    var s', fs, fc := Next(env, s, step), step.frames, step.windows;
    var sent := if step.reportPushed then fc.unreported else 0;
    var block := if s.k.dirty then RenderSync(s.k.table, |s.k.table|, env.cap) else None;
    ForwardStream(env, s, step);
    var t, m := View(Run(Preface(0), s.h.stream).events), Meaning(sent, block, Concat(fs));
    MeaningTotals(sent, block, Concat(fs));
    TotalsJoin(t, m);
    assert PREFACE + s.h.forwarded + Concat(fs) == PREFACE + (s.h.forwarded + Concat(fs));
    ReportBalances(s.h.served, s.k.flow.unreported, sent);
  }

  lemma MeaningTotals(sent: u32, block: Option<Bytes>, m: Bytes)
    ensures var t := Meaning(sent, block, m);
            DataOf(t) == m && UpdatesOf(t) == (if block.Some? then [block.value] else []) && SentOf(t) == sent
  {
    var none: Bytes := [];
    assert none + m == m && m + none == m;
    if block.Some? {
      assert DataOf(End(m, 0)) == m && SentOf(End(m, 0)) == 0;
    }
  }

  lemma ForwardGreets(env: Env, s: Sys, step: Step)
    requires step.Forward? && Enabled(env, s, step) && Next(env, s, step).k.alive
    requires Greeted(s) && Transparent(Next(env, s, step))
    ensures Greeted(Next(env, s, step))
  {
    hide Run, View, Encode, DecodeLog, RenderSync, AllParsed, Granted, FcPrefix, DataOf, UpdatesOf, SentOf, Concat, MayTrack;
    TotalsView(Run(Preface(0), Next(env, s, step).h.stream).events);
  }

  lemma NextKeeps(env: Env, s: Sys, step: Step)
    requires Sound(env) && Enabled(env, s, step) && Invariant(env, s)
    ensures Invariant(env, Next(env, s, step))
  {
    hide Run, View, Feed, Encode, DecodeLog;
    if step.Serve? {
      ServeKeeps(env, s, step);
    } else if Next(env, s, step).k.alive {
      ForwardCoherent(env, s, step);
      ForwardTransparent(env, s, step);
      ForwardWithinWindow(env, s, step);
      ForwardGreets(env, s, step);
    }
  }

  /** Every reachable state is coherent, transparent, within the client's window and quiet until the handshake is over. */
  lemma {:induction false} AlwaysKept(env: Env, s: Sys, steps: seq<Step>)
    requires Sound(env) && Possible(env, s, steps) && Invariant(env, s)
    ensures Invariant(env, After(env, s, steps))
    decreases |steps|
  {
    hide Invariant, Next;
    if steps != [] {
      NextKeeps(env, s, steps[0]);
      AlwaysKept(env, Next(env, s, steps[0]), steps[1..]);
    }
  }

  /**
   Window safety over whole runs. However much following the messages misses, what was served never
   exceeds the window a connection opens with and what the client granted on top; and what is yet to
   be reported does not wrap around as long as no report was put off.
   */
  lemma WindowSafety(env: Env, steps: seq<Step>)
    requires Sound(env) && Possible(env, UPGRADED, steps)
    ensures var s := After(env, UPGRADED, steps);
            && 0 <= s.k.flow.conn <= 0x7FFF_FFFF
            && s.h.served <= 65535 + s.h.granted
            && (!s.h.reportFailed ==> s.k.flow.conn + s.k.flow.unreported <= 0x7FFF_FFFF)
  {
    hide Run, View, Feed, Next, Possible, Coherent, Transparent;
    UpgradedCoherent(env);
    AlwaysKept(env, UPGRADED, steps);
  }

  /** The window streams open with, behind the SETTINGS among `fs`, unless they end the connection. */
  function Announced(window: u32, fs: seq<Frame>): Option<u32>
    decreases |fs|
  {
    if fs == [] then Some(window)
    else if fs[0].kind == 0x04 && fs[0].flags % 2 == 0 then
      match ApplySettings(window, fs[0].payload)
      case None => None
      case Some(later) => Announced(later, fs[1..])
    else Announced(window, fs[1..])
  }

  lemma {:induction false} TrackAnnounced(fc: Flow, fs: seq<Frame>)
    requires Followed(fs) && Announced(fc.stream, fs).Some?
    ensures Announced(fc.stream, fs) == Some(TrackFrames(fc, fs).stream)
    decreases |fs|
  {
    hide ApplySettings, ReadSettings, Increment;
    if fs != [] {
      var f := fs[0];
      assert f in fs && forall g :: g in fs[1..] ==> g in fs;
      if f.kind == SETTINGS && !Acknowledges(f) {
        assert f.payload[0 * SETTING_LEN..] == f.payload;
        ReadSettingsInOrder(fc.stream, f.payload, 0, |f.payload| / SETTING_LEN);
      }
      TrackAnnounced(TrackFrame(fc, f), fs[1..]);
    }
  }

  /** The window streams open with, behind everything that was forwarded. */
  ghost function AnnouncedBy(env: Env, s: Sys, window: u32, steps: seq<Step>): Option<u32>
    requires Possible(env, s, steps)
    decreases |steps|
  {
    if steps == [] then Some(window)
    else if steps[0].Forward? then
      match Announced(window, AllParsed(steps[0].frames))
      case None => None
      case Some(later) => AnnouncedBy(env, Next(env, s, steps[0]), later, steps[1..])
    else AnnouncedBy(env, Next(env, s, steps[0]), window, steps[1..])
  }

  /** Runs in which every message that is forwarded could be followed to its end. */
  ghost predicate FollowedThrough(env: Env, s: Sys, steps: seq<Step>)
    requires Possible(env, s, steps)
    decreases |steps|
  {
    steps == [] || (
      && (steps[0].Forward? ==>
            Followed(AllParsed(steps[0].frames)) && steps[0].windows == Tracked(s.k.flow, steps[0].frames))
      && FollowedThrough(env, Next(env, s, steps[0]), steps[1..]))
  }

  lemma NextAnnounces(env: Env, s: Sys, step: Step)
    requires Enabled(env, s, step) && Next(env, s, step).k.alive
    requires step.Forward? ==> Followed(AllParsed(step.frames)) && step.windows == Tracked(s.k.flow, step.frames)
    ensures var stream := Next(env, s, step).k.flow.stream;
            if step.Forward? then
              var later := Announced(s.k.flow.stream, AllParsed(step.frames)); later.Some? ==> later == Some(stream)
            else stream == s.k.flow.stream
  {
    hide Announced, TrackFrames, Encode, RenderSync, DecodeLog, Granted, FcPrefix;
    if step.Forward? && Announced(s.k.flow.stream, AllParsed(step.frames)).Some? {
      TrackAnnounced(s.k.flow, AllParsed(step.frames));
    }
  }

  lemma {:induction false} StaysOver(env: Env, s: Sys, steps: seq<Step>)
    requires Possible(env, s, steps) && After(env, s, steps).k.alive
    ensures s.k.alive
  {
  }

  lemma {:induction false} StreamAnnounced(env: Env, s: Sys, steps: seq<Step>)
    requires Possible(env, s, steps) && After(env, s, steps).k.alive && FollowedThrough(env, s, steps)
    requires AnnouncedBy(env, s, s.k.flow.stream, steps).Some?
    ensures AnnouncedBy(env, s, s.k.flow.stream, steps) == Some(After(env, s, steps).k.flow.stream)
    decreases |steps|
  {
    hide Next, Announced, Tracked;
    if steps != [] {
      StaysOver(env, Next(env, s, steps[0]), steps[1..]);
      NextAnnounces(env, s, steps[0]);
      StreamAnnounced(env, Next(env, s, steps[0]), steps[1..]);
    }
  }

  /**
   Window safety for streams. On every run whose messages could be followed, no response carries more
   than the initial window the client last announced in what was forwarded, which is 65535 if it never
   did. Whatever could be followed, none carries more than the windows that were tracked.
   */
  lemma StreamWindowSafety(env: Env, steps: seq<Step>, f: Bytes, dataLen: u32)
    requires Possible(env, UPGRADED, steps + [Serve(f, dataLen)]) && Possible(env, UPGRADED, steps)
    ensures var s := After(env, UPGRADED, steps);
            && dataLen <= s.k.flow.conn && dataLen <= s.k.flow.stream
            && (FollowedThrough(env, UPGRADED, steps) ==>
                  match AnnouncedBy(env, UPGRADED, 65535, steps)
                  case None => true
                  case Some(window) => dataLen <= window)
  {
    hide Next, Announced, Tracked;
    LastEnabled(env, UPGRADED, steps, Serve(f, dataLen));
    if FollowedThrough(env, UPGRADED, steps) && AnnouncedBy(env, UPGRADED, 65535, steps).Some? {
      StreamAnnounced(env, UPGRADED, steps);
    }
  }

  lemma {:induction false} LastEnabled(env: Env, s: Sys, steps: seq<Step>, step: Step)
    requires Possible(env, s, steps + [step])
    ensures Possible(env, s, steps) && Enabled(env, After(env, s, steps), step)
    decreases |steps|
  {
    hide Next;
    if steps == [] {
      assert steps + [step] == [step];
    } else {
      assert (steps + [step])[0] == steps[0] && (steps + [step])[1..] == steps[1..] + [step];
      LastEnabled(env, Next(env, s, steps[0]), steps[1..], step);
    }
  }

  /**
   Nothing is answered before the client has acknowledged the server's SETTINGS: ahead of every answer
   a message went over whose first frame is one of type 4 with the flag 1 set.
   */
  lemma {:induction false} AnswersBehindAck(env: Env, s: Sys, steps: seq<Step>)
    requires Possible(env, s, steps) && !s.k.handshaked && After(env, s, steps).k.handshaked
    ensures exists i :: 0 <= i < |steps| && steps[i].Forward? && |steps[i].frames| > 0
                        && |steps[i].frames[0]| >= 9 && steps[i].frames[0][3] == 4 && steps[i].frames[0][4] % 2 == 1
    decreases |steps|
  {
    hide Encode, RenderSync, DecodeLog, Granted, FcPrefix, MayTrack, Concat;
    if steps != [] {
      var s' := Next(env, s, steps[0]);
      if s'.k.handshaked {
        assert steps[0].Forward? && Acks(steps[0].frames[0]);
      } else {
        AnswersBehindAck(env, s', steps[1..]);
        var i :| 0 <= i < |steps| - 1 && steps[1..][i].Forward? && |steps[1..][i].frames| > 0
                 && |steps[1..][i].frames[0]| >= 9 && steps[1..][i].frames[0][3] == 4 && steps[1..][i].frames[0][4] % 2 == 1;
        assert steps[i + 1] == steps[1..][i];
      }
    }
  }

  // ---- the two sides together ----

  /** The reader has been given the front of what the kernel forwarded, in whatever pieces. */
  ghost predicate Reads(s: Sys, ms: seq<Move>) {
    Arrived(ms) <= s.h.stream
  }

  /**
   The opening of a connection only reads what was forwarded up to the acknowledgement of the server's
   SETTINGS: the preface is all it waits for, and what sends those SETTINGS.
   */
  ghost predicate OpensWith(s: Sys, life: Life) {
    Arrived(life.opening) <= s.h.greeting
  }

  lemma OpensLevel(s: Sys, life: Life)
    requires Greeted(s) && OpensWith(s, life)
    ensures Level(ApplyAll(START, life.opening))
  {
    hide Run, Apply, Level;
    var early := Arrived(life.opening);
    var late := s.h.greeting[|early|..];
    assert early + late == s.h.greeting;
    RunConcat(Preface(0), early, late);
    var x := Run(Preface(0), early);
    BlocksConcat(x.events, Run(x.state, late).events);
    QuietOpening(life.opening);
  }

  /**
   Order over whole runs: what was handed over, followed by what is still to come, is what the
   reference machine makes of everything the kernel forwarded.
   */
  lemma RunsInOrder(env: Env, steps: seq<Step>, life: Life)
    requires Sound(env) && Possible(env, UPGRADED, steps) && Lived(life)
    requires Reads(After(env, UPGRADED, steps), Moves(life)) && OpensWith(After(env, UPGRADED, steps), life)
    ensures var s, u := After(env, UPGRADED, steps), ApplyAll(START, Moves(life));
            && Ordered(START, Moves(life))
            && Whole(u, s.h.stream[|Arrived(Moves(life))|..]) == View(Run(Preface(0), s.h.stream).events)
  {
    hide Run, View, Feed, Apply, Next, Possible, Lived, Level, Coherent, Transparent, WithinWindow;
    var s := After(env, UPGRADED, steps);
    UpgradedCoherent(env);
    AlwaysKept(env, UPGRADED, steps);
    OpensLevel(s, life);
    LifeOrdered(life);
    ReadsWhole(s, Moves(life));
  }

  lemma ReadsWhole(s: Sys, ms: seq<Move>)
    requires Reads(s, ms) && Ordered(START, ms)
    ensures var u, rest := ApplyAll(START, ms), s.h.stream[|Arrived(ms)|..];
            && Whole(u, rest) == View(Run(Preface(0), s.h.stream).events)
  {
    hide Run, View, Apply;
    var rest := s.h.stream[|Arrived(ms)|..];
    assert Arrived(ms) + rest == s.h.stream;
    RunSame(START, ms, rest);
    StartFuture(s.h.stream);
  }

  /**
   Coherence over whole runs. However requests are split between the kernel and user space, however
   the stream is cut up and however far user space has read it: every frame the codec has decoded so far is
   a frame that was forwarded, in order, decoded against exactly the table the kernel mirrored before
   it; each time its table was replaced the codec had been told of all spending reported by then; and
   no update was ever one it could not apply.
   */
  lemma CoherentRuns(env: Env, steps: seq<Step>, life: Life)
    requires Sound(env) && Possible(env, UPGRADED, steps)
    requires Lived(life)
    requires Reads(After(env, UPGRADED, steps), Moves(life)) && OpensWith(After(env, UPGRADED, steps), life)
    ensures var s, c := After(env, UPGRADED, steps), Feed(env, FRESH, ApplyAll(START, Moves(life)).seen);
            && c.decoded <= s.h.decoded && c.primes <= s.h.primes && !c.failed
    ensures var s, u := After(env, UPGRADED, steps), ApplyAll(START, Moves(life));
            DataOf(u.seen) <= PREFACE + s.h.forwarded && UpdatesOf(u.seen) <= s.h.blocks
  {
    hide Run, View, Feed, Apply, Next, Possible, Future, Lived;
    var ms := Moves(life);
    var s, u := After(env, UPGRADED, steps), ApplyAll(START, ms);
    var rest := s.h.stream[|Arrived(ms)|..];
    UpgradedCoherent(env);
    AlwaysKept(env, UPGRADED, steps);
    RunsInOrder(env, steps, life);
    var later := Future(u.reader, Concat(u.chunks) + rest);
    FeedJoin(env, FRESH, u.seen, later);
    FeedExtends(env, Feed(env, FRESH, u.seen), later);
    TotalsJoin(u.seen, later);
  }

  lemma OnTheBooks(served: nat, unreported: u32, told: u32, inFlight: u32)
    requires Add32(told, inFlight) == (served - unreported) % U32 && unreported <= served
    ensures (told + inFlight + unreported) % U32 == served % U32
    ensures served < U32 ==> Add32(told, inFlight) + unreported == served
  {
    ModAddInt(served - unreported, unreported);
    ModAddInt(told + inFlight, unreported);
  }

  lemma UnreportedWasServed(s: Sys)
    requires WithinWindow(s)
    ensures s.k.flow.unreported <= s.h.served
  {
  }

  lemma {:induction false} BlindForGood(s: Bytes)
    ensures Run(Blind, s).state == Blind
    decreases |s|
  {
    if s != [] {
      BlindForGood(s[1..]);
    }
  }

  /** Nothing the kernel forwards, cut up and drained at whatever time, makes the reader give up on sync frames. */
  lemma NeverBlind(env: Env, steps: seq<Step>, ms: seq<Move>)
    requires Sound(env) && Possible(env, UPGRADED, steps) && Reads(After(env, UPGRADED, steps), ms)
    ensures ApplyAll(START, ms).reader.state != Blind
  {
    hide Run, View, Feed, Apply, Next, Possible, WithinWindow;
    var s, u := After(env, UPGRADED, steps), ApplyAll(START, ms);
    var rest := s.h.stream[|Arrived(ms)|..];
    UpgradedCoherent(env);
    AlwaysKept(env, UPGRADED, steps);
    assert Arrived(ms) + rest == s.h.stream;
    RunTotals(START, ms, rest);
    assert INITIAL.hold + (Concat(START.chunks) + s.h.stream) == s.h.stream;
    assert EndState(u.reader, Concat(u.chunks) + rest) == Run(Preface(0), s.h.stream).state;
    BlindForGood(u.reader.hold + (Concat(u.chunks) + rest));
  }

  /** The same at rest: a codec that was handed everything holds the kernel's table, unless a request was served since. */
  lemma CaughtUpMeansEqual(env: Env, steps: seq<Step>, life: Life)
    requires Sound(env) && Possible(env, UPGRADED, steps)
    requires Lived(life) && Arrived(Moves(life)) == After(env, UPGRADED, steps).h.stream
    requires OpensWith(After(env, UPGRADED, steps), life) && Quiet(ApplyAll(START, Moves(life)))
    ensures var s, u := After(env, UPGRADED, steps), ApplyAll(START, Moves(life));
            var c := Feed(env, FRESH, u.seen);
            && c.decoded == s.h.decoded && c.primes == s.h.primes
            && c.table == s.h.handed && (!s.k.dirty ==> c.table == s.k.table)
            && DataOf(u.seen) == PREFACE + s.h.forwarded && UpdatesOf(u.seen) == s.h.blocks
  {
    hide Run, View, Feed, Apply, Next, Possible, Lived;
    var s, u := After(env, UPGRADED, steps), ApplyAll(START, Moves(life));
    UpgradedCoherent(env);
    AlwaysKept(env, UPGRADED, steps);
    RunsInOrder(env, steps, life);
    assert s.h.stream[|s.h.stream|..] == [] && Concat(u.chunks) + [] == Concat(u.chunks);
    QuietFuture(u);
    JoinNothing(u.seen);
  }

  lemma QuietFuture(u: Session)
    requires Quiet(u)
    ensures Future(u.reader, Concat(u.chunks)) == End([], 0)
  {
    assert u.reader.hold + Concat(u.chunks) == [];
    WaitingWithoutBlock(u.reader);
  }

  /**
   Conservation, for every run and whenever the handles are drained: what was served is what the
   codec was told of, what waits in the reader or on the way to it, and what is yet to be reported.
   The count is exact until 4 GB were served, and never off by anything but a multiple of that.
   */
  lemma SpendingConserved(env: Env, steps: seq<Step>, ms: seq<Move>)
    requires Sound(env) && Possible(env, UPGRADED, steps) && Reads(After(env, UPGRADED, steps), ms)
    ensures var s, u := After(env, UPGRADED, steps), ApplyAll(START, ms);
            var rest := s.h.stream[|Arrived(ms)|..];
            var inFlight := SentOf(Future(u.reader, Concat(u.chunks) + rest));
            && (SentOf(u.seen) + inFlight + s.k.flow.unreported) % U32 == s.h.served % U32
            && (s.h.served < U32 ==> Add32(SentOf(u.seen), inFlight) + s.k.flow.unreported == s.h.served)
  {
    hide Run, View, Feed, Apply, Next, Possible, Future, Coherent, WithinWindow, Add32, SentOf, Concat;
    var s, u := After(env, UPGRADED, steps), ApplyAll(START, ms);
    var rest := s.h.stream[|Arrived(ms)|..];
    UpgradedCoherent(env);
    AlwaysKept(env, UPGRADED, steps);
    assert Arrived(ms) + rest == s.h.stream;
    RunTotals(START, ms, rest);
    StartFuture(s.h.stream);
    var later := Future(u.reader, Concat(u.chunks) + rest);
    TotalsJoin(u.seen, later);
    UnreportedWasServed(s);
    OnTheBooks(s.h.served, s.k.flow.unreported, SentOf(u.seen), SentOf(later));
  }

  /**
   What the sync frame is for. On every run, a message handed over without one is decoded against
   the right tables if and only if the kernel's table is the one it had when it last forwarded
   something, which it is unless it answered a request since.
   */
  lemma RawNeedsTheTable(env: Env, steps: seq<Step>, fs: seq<Bytes>)
    requires Sound(env) && Possible(env, UPGRADED, steps) && ClientMessage(env, fs)
    ensures var s := After(env, UPGRADED, steps);
            && (CaughtUp(env, s.h.stream + Concat(fs)).decoded == s.h.decoded + DecodeLog(env, s.k.table, fs)
                <==> s.k.table == s.h.handed)
            && (!s.k.dirty ==> s.k.table == s.h.handed)
  {
    hide Run, View, Feed, Next, Possible, Transparent, WithinWindow, DecodeLog;
    UpgradedCoherent(env);
    AlwaysKept(env, UPGRADED, steps);
    var s := After(env, UPGRADED, steps);
    RawDecodes(env, s, fs);
    LogsDiffer(env, s.h.handed, s.k.table, fs);
    if s.h.decoded + DecodeLog(env, s.h.handed, fs) == s.h.decoded + DecodeLog(env, s.k.table, fs) {
      SameFront(s.h.decoded, DecodeLog(env, s.h.handed, fs), DecodeLog(env, s.k.table, fs));
    }
  }

  /**
   The failing case: a request that changes the table is answered, in whatever state that is possible,
   and the next message goes over as it is. Unless the change happens to bring back the table that was
   handed over last, its first frame is decoded against a table the client has left behind.
   */
  lemma RawGoesWrong(env: Env, steps: seq<Step>, f: Bytes, dataLen: u32, fs: seq<Bytes>)
    requires Sound(env) && Possible(env, UPGRADED, steps) && ClientMessage(env, fs)
    requires Enabled(env, After(env, UPGRADED, steps), Serve(f, dataLen))
    requires var s := After(env, UPGRADED, steps); env.dec(s.k.table, f) != s.h.handed
    ensures Possible(env, UPGRADED, steps + [Serve(f, dataLen)])
    ensures var s := After(env, UPGRADED, steps + [Serve(f, dataLen)]);
            s.k.dirty && CaughtUp(env, s.h.stream + Concat(fs)).decoded != s.h.decoded + DecodeLog(env, s.k.table, fs)
  {
    hide Run, View, Feed, DecodeLog, Possible, After;
    AfterAppend(env, UPGRADED, steps, Serve(f, dataLen));
    RawNeedsTheTable(env, steps + [Serve(f, dataLen)], fs);
  }

  lemma RawDecodes(env: Env, s: Sys, fs: seq<Bytes>)
    requires Coherent(env, s) && ClientMessage(env, fs)
    ensures CaughtUp(env, s.h.stream + Concat(fs)).decoded == s.h.decoded + DecodeLog(env, s.h.handed, fs)
  {
    hide Run, View, Feed, DecodeLog;
    var m := Concat(fs);
    var before := Run(Preface(0), s.h.stream);
    RunMessage(before.state, fs);
    OutsView(m);
    RunConcat(Preface(0), s.h.stream, m);
    ViewConcat(before.events, Run(before.state, m).events);
    FeedJoin(env, FRESH, View(before.events), End(m, 0));
    var c := CaughtUp(env, s.h.stream);
    FeedMessage(env, c, 0, None, c.table, fs);
  }

  lemma LogsDiffer(env: Env, t: Table, u: Table, fs: seq<Bytes>)
    requires fs != []
    ensures DecodeLog(env, t, fs) == DecodeLog(env, u, fs) <==> t == u
  {
    assert DecodeLog(env, t, fs)[0] == Decoded(t, fs[0]) && DecodeLog(env, u, fs)[0] == Decoded(u, fs[0]);
  }

  lemma SameFront<T>(a: seq<T>, b: seq<T>, c: seq<T>)
    requires a + b == a + c
    ensures b == c
  {
    assert (a + b)[|a|..] == b && (a + c)[|a|..] == c;
  }
}
