/** `msg_verdict`: what the kernel does with one message a client sent. */
module MsgVerdict {
  import opened Wire
  import Scanning
  import opened Hpack
  import opened Message
  import opened DtSync
  import opened Prepending
  import opened FlowControl
  import opened Serving
  import opened System

  const UPGRADED_ONLY: nat := 1
  const HANDSHAKED: nat := 2
  const PREFACE_BYTES: nat := 24
  const REST_OF_CONNECTION: nat := 0xFFFF_FFFF

  /** What the kernel's maps hold for one connection. */
  class Conn {
    // `upgraded_conns`, or 0 if the connection is not known to speak HTTP/2
    var state: nat
    // `dt_dirty`
    var dirty: bool
    // `flow_ctl`
    var flow: H2Flow?

    constructor ()
      ensures state == 0 && !dirty && flow == null
    {
      state, dirty, flow := 0, false, null;
    }

    ghost predicate Valid()
      reads this, flow
    {
      && (state != 0 ==> flow != null)
      && (flow != null ==> 0 <= flow.connWindow <= MAX_WINDOW)
    }

    ghost function View(t: Table): Kernel
      reads this, flow
      requires flow != null
    {
      Kernel(t, dirty, state >= HANDSHAKED, flow.View(), true)
    }
  }

  /**
   What the parser made of the front of a message: how far it reaches, the body a content length
   announces behind it, and the route its path leads to. Over HTTP/2 also the frame it looked at and
   the dynamic table as it was before it.
   */
  datatype Request =
    | Unparsed
    | Http1(len: nat, preface: bool, body: nat, route: Option<Route>)
    | Http2(len: nat, body: nat, kind: byte, flags: byte, sid: u32, table: Table, route: Option<Route>)

  datatype Verdict = Drop | ToClient(applied: nat) | ToUserSpace(applied: nat)

  /** How far the request reaches, with the body its content length announces. */
  function RequestLen(req: Request): nat {
    match req
    case Unparsed => 0
    case Http1(len, _, body, _) => len + body
    case Http2(len, body, kind, _, _, _, _) =>
      if kind == SETTINGS || kind == WINDOW_UPDATE then len else len + body
  }

  /** How many bytes go to user space: what is buffered, or the request if it reaches further. */
  function Applied(size: nat, len: nat): nat {
    if len == 0 then REST_OF_CONNECTION else if size > len then size else len
  }

  /** Only a client that has seen the server's SETTINGS acknowledges them. */
  function StateAfter(state: nat, req: Request): nat {
    if req.Http2? && req.kind == SETTINGS && req.flags % 2 == ACK_FLAG && state < HANDSHAKED then HANDSHAKED else state
  }

  /** The parser reads one frame a run, the first of the message. */
  predicate LookedAt(req: Request, f: Bytes)
    requires req.Http2?
  {
    |f| >= FRAME_HEADER_LEN && req.kind == f[3] && req.flags == f[4] && req.sid == SidAt(f)
  }

  /**
   What a request has to be for the fast path to answer it, in the design's own terms: the handshake is
   over, the frame can hold a request, a route was found, the table is one that can be handed over, and
   the response fits the client's windows and the message.
   */
  ghost predicate Answerable(k: Kernel, req: Request, size: nat)
    requires req.Http2?
  {
    && k.handshaked && req.kind != 0x04 && req.kind != 0x08
    && req.route.Some? && |k.table| <= 8
    && Servable(req.route.value, req.sid, Some(k.flow), size, req.len + req.body)
  }

  lemma AnswerableIs(state: nat, k: Kernel, req: Request, size: nat)
    requires req.Http2? && k.table == req.table && k.handshaked == (state >= HANDSHAKED)
    ensures Answerable(k, req, size) <==>
            MayServe(state, req) && Servable(req.route.value, req.sid, Some(k.flow), size, RequestLen(req))
  {
  }

  /** How many bytes a message that is handed over takes with it: all there are, or those the request still waits for. */
  ghost predicate TakesAll(applied: nat, size: nat, reach: int) {
    if reach == 0 then applied == 0xFFFF_FFFF
    else applied >= size && applied >= reach && (applied == size || applied == reach)
  }

  /** What has to hold for the fast path to try and answer an HTTP/2 request. */
  predicate MayServe(state: nat, req: Request)
    requires req.Http2?
  {
    && req.route.Some? && req.kind != SETTINGS && req.kind != WINDOW_UPDATE
    && StateAfter(state, req) >= HANDSHAKED
    && |req.table| <= MAX_SYNC_ENTRIES
    && RequestLen(req) > 0
  }

  function ServeStep(req: Request, f: Bytes): Step
    requires req.Http2? && req.route.Some?
  {
    Step.Serve(f, if req.sid != 0 then req.route.value.dataLen else 0)
  }

  /** The kernel side of the connection has taken `step`, and `sent` is what went to user space. */
  ghost predicate Took(env: Env, k: Kernel, h: History, step: Step, k': Kernel, sent: Bytes)
    requires step.Forward? ==> step.frames != [] && forall f :: f in step.frames ==> ClientFrame(f)
  {
    var s := Sys(k, h);
    && Enabled(env, s, step)
    && Next(env, s, step).k == k'
    && Next(env, s, step).h.stream == h.stream + sent
  }

  /**
   How a message that left the windows at `fc` has been handed over: behind the table if that was
   stale, and that behind the spending if there was any and it could be put in front.
   */
  ghost predicate Handed(k: Kernel, cap: nat, fs: seq<Bytes>, fc: Flow, reported: bool, sent: Bytes, fc': Flow)
    requires forall f :: f in fs ==> ClientFrame(f)
  {
    var block := RenderSync(k.table, |k.table|, cap);
    && MayTrack(k.flow, fs, fc)
    && (k.dirty ==> block.Some?)
    && fc' == Report(fc, reported)
    && sent == FcPrefix(fc, reported) + ((if k.dirty then Encode(DtFrame(block.value)) else []) + Concat(fs))
  }

  lemma HandedIsStep(env: Env, k: Kernel, h: History, fs: seq<Bytes>, fc: Flow, reported: bool, sent: Bytes, fc': Flow)
    requires ClientMessage(env, fs) && k.alive
    requires Handed(k, env.cap, fs, fc, reported, sent, fc')
    ensures Took(env, k, h, Step.Forward(fs, fc, true, reported),
                 Kernel(env.dec(k.table, fs[0]), false, k.handshaked || Acks(fs[0]), fc', true), sent)
  {
    hide MayTrack, RenderSync, Encode, Concat;
  }

  // A table that cannot be put in front ends the connection.
  lemma StrandedIsStep(env: Env, k: Kernel, h: History, fs: seq<Bytes>, fc: Flow)
    requires ClientMessage(env, fs) && k.alive && k.dirty && MayTrack(k.flow, fs, fc)
    ensures Took(env, k, h, Step.Forward(fs, fc, false, false), k.(alive := false), [])
  {
    hide MayTrack, RenderSync, Encode, Concat;
    assert h.stream + [] == h.stream;
  }

  lemma CutIsStep(env: Env, k: Kernel, h: History)
    requires k.alive
    ensures Took(env, k, h, Cut, k.(alive := false), [])
  {
    assert h.stream + [] == h.stream;
  }

  lemma TrackedIs(fc: Flow, fs: seq<Bytes>, m: Bytes)
    requires m == Concat(fs) && forall f :: f in fs ==> ClientFrame(f)
    ensures Parse(m) == Some(AllParsed(fs)) && Tracked(fc, fs) == TrackFrames(fc, FlowControl.First(Parse(m).value))
  {
    ParseMessage(fs);
  }

  /** The program, with the memory it keeps between runs. */
  class Program {
    const arena: Bytes
    const buf: SyncBuf

    constructor (arena: Bytes, fieldMax: nat)
      requires MaxSyncBody(fieldMax) < MAX_SYNC_BUF
      ensures this.arena == arena && buf.Valid() && fresh(buf) && fresh(buf.data) && buf.cap == 8 * (2 + 2 * fieldMax)
    {
      this.arena := arena;
      buf := new SyncBuf(fieldMax);
    }

    /**
     Hands an HTTP/2 message to user space, behind the dynamic table if that is stale and the
     spending if there is any.
     */
    method Forward(conn: Conn, msg: Msg, t: Table, stale: bool, len: nat, ghost fs: seq<Bytes>)
      returns (v: Verdict, ghost fc: Flow, ghost reported: bool)
      requires conn.Valid() && conn.flow != null && msg.Valid() && msg.Opens() && buf.Valid()
      requires stale == conn.dirty
      requires msg.bytes == Concat(fs) && forall f :: f in fs ==> ClientFrame(f)
      modifies conn`dirty, conn.flow, msg, buf, buf.data
      ensures conn.Valid() && msg.Valid() && buf.Valid()
      ensures MayTrack(old(conn.flow.View()), fs, fc)
      ensures v.ToUserSpace? && msg.resizes && |msg.bytes| + 13 < U32 ==> reported && conn.flow.unreported == 0
      ensures v.Drop? ==> old(conn.dirty)
      ensures v.Drop? && msg.resizes ==>
                var r := RenderSync(t, |t|, buf.cap);
                r.None? || |Concat(fs)| + FRAME_HEADER_LEN + |r.value| >= U32
      ensures !v.ToClient?
      ensures v.ToUserSpace? ==>
                && !conn.dirty && Handed(old(conn.View(t)), buf.cap, fs, fc, reported, msg.bytes, conn.flow.View())
                && (msg.exposes ==> fc == Tracked(old(conn.flow.View()), fs))
                && TakesAll(v.applied, |msg.bytes|, len + (|msg.bytes| - |Concat(fs)|))
    {
      hide Tracked, RenderSync, Encode, TrackFrames, Parse, Concat, Granted, AllParsed;
      var msgLen := len;
      ghost var m := Concat(fs);
      ghost var k := conn.View(t);
      TrackFlow(msg, conn.flow);
      fc := conn.flow.View();
      TrackedIs(k.flow, fs, m);
      reported := false;

      ghost var sync: Bytes := [];
      if stale {
        var synced := PrependDtSync(msg, buf, t, |t|);
        if synced < 0 {
          return Drop, fc, false;
        }
        sync := Encode(DtFrame(RenderSync(t, |t|, buf.cap).value));
        msgLen := msgLen + synced;
        conn.dirty := false;
      } else {
        assert [] + m == m;
      }
      ghost var behind := sync + m;
      assert msg.bytes == behind;

      reported := true;
      if conn.flow.unreported > 0 {
        var reportedLen := PrependFcSync(msg, conn.flow.unreported);
        if reportedLen < 0 {
          reported := false;
        } else {
          msgLen := msgLen + reportedLen;
          conn.flow.unreported := 0;
        }
      }
      assert [] + behind == behind;
      v := ToUserSpace(Applied(msg.Size(), msgLen));
    }

    /**
     `msg_verdict` on what is not an HTTP/2 message: the preface upgrades the connection and an
     HTTP/1.1 request may be answered. What cannot be parsed goes to user space as it is, along with
     everything behind it and without any sync frame, whatever the connection speaks.
     */
    method OtherVerdict(conn: Conn, msg: Msg, req: Request) returns (v: Verdict)
      requires conn.Valid() && msg.Valid() && !req.Http2? && (req.Http1? ==> conn.state == 0)
      requires req.Http1? && req.route.Some? ==> Placed(req.route.value, arena)
      modifies conn, msg
      ensures conn.Valid() && msg.Valid() && conn.dirty == old(conn.dirty)
      ensures req.Unparsed? || (req.Http1? && req.len == 0) ==> v == ToUserSpace(0xFFFF_FFFF)
      ensures req.Http1? && req.len > 0 && req.preface ==>
                && v == ToUserSpace(24) && conn.state == 1
                && fresh(conn.flow) && conn.flow.View() == Flow(65535, 65535, 0) && (!old(conn.dirty) ==> conn.View([]) == UPGRADED.k)
      ensures !(req.Http1? && req.len > 0 && req.preface) ==> conn.state == old(conn.state) && conn.flow == old(conn.flow)
      ensures v.ToUserSpace? ==>
                msg.bytes == old(msg.bytes)
                && (req.Http1? && req.len > 0 && !req.preface ==> TakesAll(v.applied, |msg.bytes|, req.len + req.body))
      ensures v.ToClient? ==>
                && req.Http1? && req.len > 0 && req.route.Some? && req.len + req.body <= |old(msg.bytes)|
                && msg.bytes == Response(req.route.value, arena, 0) + old(msg.bytes)[req.len + req.body..]
                && v.applied == req.route.value.bodyLen
      ensures msg.Reliable() && |old(msg.bytes)| + MAX_ROUTE_BODY < U32 ==> !v.Drop?
      ensures msg.Reliable() && req.Http1? && req.len > 0 && !req.preface ==>
                (v.ToClient? <==> req.route.Some? && Servable(req.route.value, 0, None, |old(msg.bytes)|, req.len + req.body))
    {
      hide Response, Servable;
      if req.Unparsed? || req.len == 0 {
        return ToUserSpace(REST_OF_CONNECTION);
      }
      if req.preface {
        conn.state := UPGRADED_ONLY;
        conn.flow := new H2Flow();
        return ToUserSpace(PREFACE_BYTES);
      }
      if req.route.Some? {
        var served, applied := ServeRoute(msg, null, req.route.value, arena, 0, RequestLen(req));
        if served == -2 {
          return Drop;
        }
        if served == 0 {
          return ToClient(applied);
        }
      }
      v := ToUserSpace(Applied(msg.Size(), RequestLen(req)));
    }

    /** `try_serve_route`, marking the tables apart if the request was answered. */
    method TryServe(conn: Conn, msg: Msg, req: Request) returns (res: int, applied: nat)
      requires conn.Valid() && msg.Valid() && req.Http2? && MayServe(conn.state, req)
      requires conn.flow != null && Placed(req.route.value, arena)
      modifies conn`dirty, conn.flow, msg
      ensures conn.Valid() && msg.Valid() && -2 <= res <= 0
      ensures res == 0 ==>
                var r := req.route.value;
                && RequestLen(req) <= |old(msg.bytes)| && applied == BodyLen(r, req.sid)
                && msg.bytes == Response(r, arena, req.sid) + old(msg.bytes)[RequestLen(req)..]
                && HasRoom(old(conn.flow.View()), ServeStep(req, []).dataLen) && conn.dirty
                && conn.flow.View() == Spend(old(conn.flow.View()), ServeStep(req, []).dataLen)
      ensures res < 0 ==> conn.dirty == old(conn.dirty) && conn.flow.View() == old(conn.flow.View())
      ensures res == -1 ==> msg.bytes == old(msg.bytes)
      ensures msg.Reliable() && |old(msg.bytes)| + MAX_ROUTE_BODY < U32 ==> res >= -1
      ensures msg.Reliable() ==>
                (res == 0 <==> Servable(req.route.value, req.sid, Some(old(conn.flow.View())), |old(msg.bytes)|, RequestLen(req)))
    {
      hide Response;
      res, applied := ServeRoute(msg, conn.flow, req.route.value, arena, req.sid, RequestLen(req));
      if res == 0 {
        conn.dirty := true;
      }
    }

    /**
     `msg_verdict` on a connection that speaks HTTP/2. A request that is answered, a message that is
     handed over and a connection that has to end are each the one step of the system they stand for.
     Only a message that is handed over has to hold no header block behind its first frame: the rest
     of one that was answered runs through the program again.
     */
    method Http2Verdict(conn: Conn, msg: Msg, req: Request, ghost env: Env, ghost h: History, ghost fs: seq<Bytes>)
      returns (v: Verdict, ghost step: Step)
      requires conn.Valid() && conn.state != 0 && msg.Valid() && msg.Opens() && buf.Valid() && env.cap == buf.cap
      requires req.Http2? && (req.route.Some? ==> Placed(req.route.value, arena))
      requires msg.bytes == Concat(fs) && fs != [] && forall f :: f in fs ==> ClientFrame(f)
      requires LookedAt(req, fs[0])
      modifies conn, conn.flow, msg, buf, buf.data
      ensures conn.Valid() && msg.Valid() && buf.Valid() && conn.flow == old(conn.flow)
      ensures conn.state == (if req.kind == 0x04 && req.flags % 2 == 1 && old(conn.state) < 2 then 2 else old(conn.state))
      ensures msg.Reliable() ==> (v.ToClient? <==> Answerable(old(conn.View(req.table)), req, |Concat(fs)|))
      ensures v.ToUserSpace? ==>
                var reach := req.len + (if req.kind == 0x04 || req.kind == 0x08 then 0 else req.body) + (|msg.bytes| - |Concat(fs)|);
                TakesAll(v.applied, |msg.bytes|, reach)
      ensures v.ToUserSpace? && msg.resizes && |msg.bytes| + 13 < U32 ==>
                step.Forward? && step.reportPushed && conn.flow.unreported == 0
      ensures v.ToClient? ==>
                && MayServe(old(conn.state), req) && req.len + req.body <= |Concat(fs)|
                && step == ServeStep(req, fs[0])
                && Took(env, old(conn.View(req.table)), h, step, conn.View(env.dec(req.table, fs[0])), [])
                && msg.bytes == Response(req.route.value, arena, req.sid) + Concat(fs)[req.len + req.body..]
                && v.applied == BodyLen(req.route.value, req.sid)
      ensures v.ToUserSpace? ==>
                && step.Forward? && step.frames == fs && step.syncPushed && !conn.dirty
                && Handed(old(conn.View(req.table)), buf.cap, fs, step.windows, step.reportPushed, msg.bytes, conn.flow.View())
                && (msg.exposes ==> step.windows == Tracked(old(conn.flow.View()), fs))
                && (ClientMessage(env, fs) ==>
                      Took(env, old(conn.View(req.table)), h, step, conn.View(env.dec(req.table, fs[0])), msg.bytes))
      ensures v.Drop? ==>
                && (if step.Cut? then MayServe(old(conn.state), req) else step.Forward? && step.frames == fs && old(conn.dirty))
                && (step.Cut? || ClientMessage(env, fs) ==>
                      Took(env, old(conn.View(req.table)), h, step, old(conn.View(req.table)).(alive := false), []))
      ensures v.Drop? && msg.Reliable() && |Concat(fs)| + MAX_ROUTE_BODY < U32 ==>
                var r := RenderSync(req.table, |req.table|, buf.cap);
                old(conn.dirty) && (r.None? || |Concat(fs)| + FRAME_HEADER_LEN + |r.value| >= U32)
    {
      hide Servable, Answerable, Response, Concat, RenderSync, FcPrefix, MayTrack, Report, Encode, Took, TakesAll, Handed, Tracked, ClientMessage;
      step := Cut;
      ghost var k := conn.View(req.table);
      AnswerableIs(conn.state, k, req, |Concat(fs)|);
      var stale := conn.dirty;
      var mayServe := MayServe(conn.state, req);
      conn.state := StateAfter(conn.state, req);
      if mayServe {
        var served, applied := TryServe(conn, msg, req);
        if served == -2 {
          CutIsStep(env, k, h);
          return Drop, Cut;
        }
        if served == 0 {
          ServedIsStep(env, k, h, req, fs[0]);
          return ToClient(applied), ServeStep(req, fs[0]);
        }
      }
      v, step := HandOver(conn, msg, req, stale, k, env, h, fs);
    }

    // What becomes of a message that is not answered. `k` is the connection before the parser looked at it.
    method HandOver(conn: Conn, msg: Msg, req: Request, stale: bool, ghost k: Kernel, ghost env: Env, ghost h: History, ghost fs: seq<Bytes>)
      returns (v: Verdict, ghost step: Step)
      requires conn.Valid() && conn.flow != null && msg.Valid() && msg.Opens() && buf.Valid() && env.cap == buf.cap
      requires req.Http2? && stale == conn.dirty && k.alive
      requires msg.bytes == Concat(fs) && fs != [] && forall f :: f in fs ==> ClientFrame(f)
      requires conn.View(req.table) == k.(handshaked := k.handshaked || Acks(fs[0]))
      modifies conn`dirty, conn.flow, msg, buf, buf.data
      ensures conn.Valid() && msg.Valid() && buf.Valid() && !v.ToClient? && step.Forward? && step.frames == fs
      ensures v.ToUserSpace? ==>
                && TakesAll(v.applied, |msg.bytes|, RequestLen(req) + (|msg.bytes| - |Concat(fs)|))
                && step.syncPushed && !conn.dirty && (msg.resizes && |msg.bytes| + 13 < U32 ==> step.reportPushed && conn.flow.unreported == 0)
                && Handed(k, buf.cap, fs, step.windows, step.reportPushed, msg.bytes, conn.flow.View())
                && (msg.exposes ==> step.windows == Tracked(k.flow, fs))
                && (ClientMessage(env, fs) ==> Took(env, k, h, step, conn.View(env.dec(req.table, fs[0])), msg.bytes))
      ensures v.Drop? ==> k.dirty && (ClientMessage(env, fs) ==> Took(env, k, h, step, k.(alive := false), []))
      ensures v.Drop? && msg.resizes ==>
                var r := RenderSync(req.table, |req.table|, buf.cap);
                r.None? || |Concat(fs)| + FRAME_HEADER_LEN + |r.value| >= U32
    {
      hide Concat, RenderSync, FcPrefix, MayTrack, Report, Encode, Took, TakesAll, Tracked;
      ghost var fc, reported;
      v, fc, reported := Forward(conn, msg, req.table, stale, RequestLen(req), fs);
      step := Step.Forward(fs, fc, v.ToUserSpace?, v.ToUserSpace? && reported);
      if ClientMessage(env, fs) {
        if v.ToUserSpace? {
          HandedIsStep(env, k, h, fs, fc, reported, msg.bytes, conn.flow.View());
        } else {
          StrandedIsStep(env, k, h, fs, fc);
        }
      }
    }

    /**
     A connection that was upgraded, one message after the other until one is dropped. As long as what
     is handed over holds a header block only in front, that is a run of the system: the kernel side is
     where the run ends, and `sent` is what user space is given behind the preface. Every request that can
     be answered is, if no helper fails on it, and no other.
     */
    method Connection(conn: Conn, env: Env, inputs: seq<Input>)
      returns (verdicts: seq<Verdict>, sent: Bytes, table: Table, ghost steps: seq<Step>)
      requires buf.Valid() && env.cap == buf.cap
      requires conn.Valid() && conn.state == UPGRADED_ONLY && conn.View([]) == UPGRADED.k
      requires forall i :: i in inputs ==> Acceptable(i, arena)
      modifies conn, conn.flow, buf, buf.data
      ensures |verdicts| == |steps| <= |inputs|
      ensures |verdicts| < |inputs| ==> verdicts != [] && verdicts[|verdicts| - 1].Drop?
      ensures HandsOverMessages(env, inputs, verdicts) ==> conn.flow != null && Follows(env, steps, sent, conn.View(table), DroppedLast(verdicts))
      ensures HandsOverMessages(env, inputs, verdicts) ==> JudgedRight(env, inputs, verdicts, steps)
    {
      hide UPGRADED, Possible, After, Took, Follows, HandsOverMessages, Encode, Handed, Servable, Response, MayServe, Answerable, JudgedRight, Tracked;
      verdicts, sent, table, steps := [], [], [], [];
      NothingYet(env, conn.View([]));
      NothingJudged(env, inputs);
      for i := 0 to |inputs|
        invariant conn.Valid() && conn.state != 0 && conn.flow == old(conn.flow) && buf.Valid()
        invariant |verdicts| == |steps| == i && !DroppedLast(verdicts)
        invariant HandsOverMessages(env, inputs, verdicts) ==> Follows(env, steps, sent, conn.View(table), false)
        invariant HandsOverMessages(env, inputs, verdicts) ==> JudgedRight(env, inputs, verdicts, steps)
      {
        var input := inputs[i];
        assert input in inputs && input.frames[0] in input.frames;
        var req := RequestOf(input, table);
        var msg := new Msg(Concat(input.frames), input.resizes, input.exposes, true);
        ghost var k := conn.View(table);
        ghost var step;
        var v;
        v, step := Http2Verdict(conn, msg, req, env, Reached(env, steps).h, input.frames);
        ghost var before, done, given := verdicts, steps, sent;
        verdicts, steps := verdicts + [v], steps + [step];
        if !v.Drop? {
          table := env.dec(table, input.frames[0]);
        }
        if v.ToUserSpace? {
          var n := if v.applied < |msg.bytes| then v.applied else |msg.bytes|;
          sent := sent + msg.bytes[..n];
        }
        if HandsOverMessages(env, inputs, verdicts) {
          OneMoreVerdict(env, inputs, before, v);
          assert RightVerdict(input, v, k, step);
          OneMoreJudged(env, inputs, before, v, done, step, given, k);
          assert v.ToUserSpace? ==> v.applied >= |msg.bytes| && msg.bytes[..|msg.bytes|] == msg.bytes;
          OneMoreStep(env, done, given, k, step, conn.View(table), if v.ToUserSpace? then msg.bytes else [], v.Drop?);
          assert given + [] == given;
        }
        if v.Drop? {
          return;
        }
      }
    }
  }

  /** A message a client sent, what the parser makes of its front, and which helpers work on it. */
  datatype Input = Input(frames: seq<Bytes>, len: nat, body: nat, route: Option<Route>, resizes: bool, exposes: bool)

  ghost predicate Acceptable(i: Input, arena: Bytes) {
    && i.frames != [] && (forall f :: f in i.frames ==> ClientFrame(f)) && |Concat(i.frames)| < U32
    && (i.route.Some? ==> Placed(i.route.value, arena))
  }

  function RequestOf(i: Input, t: Table): Request
    requires i.frames != [] && |i.frames[0]| >= FRAME_HEADER_LEN
  {
    var f := i.frames[0];
    Http2(i.len, i.body, f[3], f[4], SidAt(f), t, i.route)
  }

  predicate DroppedLast(vs: seq<Verdict>) {
    vs != [] && vs[|vs| - 1].Drop?
  }

  /** What was not answered holds a header block only in front. */
  ghost predicate HandsOverMessages(env: Env, inputs: seq<Input>, vs: seq<Verdict>) {
    |vs| <= |inputs| && forall i :: 0 <= i < |vs| ==> vs[i].ToClient? || ClientMessage(env, inputs[i].frames)
  }

  ghost function Reached(env: Env, steps: seq<Step>): Sys {
    if Possible(env, UPGRADED, steps) then After(env, UPGRADED, steps) else UPGRADED
  }

  /** `steps` are a run of the system that hands over `sent` and ends where the kernel is, or with the connection. */
  ghost predicate Follows(env: Env, steps: seq<Step>, sent: Bytes, k: Kernel, over: bool) {
    && Possible(env, UPGRADED, steps)
    && var s := After(env, UPGRADED, steps);
       s.h.stream == Scanning.PREFACE + sent && s.k.alive == !over && (!over ==> s.k == k)
  }

  /**
   Whether `v` is what a connection in state `k` deserves for the message, and `step` what it stands for:
   if no helper fails it is answered exactly if it can be, and only dropped if the table is stale.
   */
  ghost predicate RightVerdict(i: Input, v: Verdict, k: Kernel, step: Step) {
    i.frames != [] && (forall f :: f in i.frames ==> ClientFrame(f)) ==>
      && (v.ToUserSpace? ==>
            step.Forward? && step.frames == i.frames && (i.exposes ==> step.windows == Tracked(k.flow, i.frames)))
      && (i.resizes && i.exposes ==>
            && (v.ToClient? <==> Answerable(k, FirstOf(i, k.table), |Concat(i.frames)|))
            && (v.Drop? && |Concat(i.frames)| + MAX_ROUTE_BODY < U32 ==> k.dirty))
  }

  // The request at the front of a message of whole frames.
  ghost function FirstOf(i: Input, t: Table): (req: Request)
    requires i.frames != [] && forall f :: f in i.frames ==> ClientFrame(f)
    ensures req.Http2?
  {
    assert ClientFrame(i.frames[0]);
    RequestOf(i, t)
  }

  /** Every verdict is right for the state the run was in. */
  ghost predicate JudgedRight(env: Env, inputs: seq<Input>, vs: seq<Verdict>, steps: seq<Step>) {
    && |vs| == |steps| <= |inputs|
    && forall i :: 0 <= i < |vs| ==> RightVerdict(inputs[i], vs[i], Reached(env, steps[..i]).k, steps[i])
  }

  lemma NothingJudged(env: Env, inputs: seq<Input>)
    ensures JudgedRight(env, inputs, [], [])
  {
  }

  lemma OneMoreJudged(env: Env, inputs: seq<Input>, vs: seq<Verdict>, v: Verdict, steps: seq<Step>, step: Step, sent: Bytes, k: Kernel)
    requires |vs| < |inputs| && JudgedRight(env, inputs, vs, steps) && RightVerdict(inputs[|vs|], v, k, step)
    requires Follows(env, steps, sent, k, false)
    ensures JudgedRight(env, inputs, vs + [v], steps + [step])
  {
    hide RightVerdict, Possible, After;
    var more := steps + [step];
    assert more[..|steps|] == steps;
    forall i | 0 <= i < |vs| + 1
      ensures RightVerdict(inputs[i], (vs + [v])[i], Reached(env, more[..i]).k, more[i])
    {
      if i < |vs| {
        assert more[..i] == steps[..i];
      }
    }
  }

  lemma NothingYet(env: Env, k: Kernel)
    requires k == UPGRADED.k
    ensures Follows(env, [], [], k, false)
  {
    assert Scanning.PREFACE + [] == Scanning.PREFACE;
    assert Possible(env, UPGRADED, []) && After(env, UPGRADED, []) == UPGRADED;
  }

  lemma OneMoreStep(env: Env, steps: seq<Step>, sent: Bytes, k: Kernel, step: Step, k': Kernel, more: Bytes, over: bool)
    requires Follows(env, steps, sent, k, false)
    requires step.Forward? ==> step.frames != [] && forall f :: f in step.frames ==> ClientFrame(f)
    requires Took(env, k, Reached(env, steps).h, step, if over then k.(alive := false) else k', more)
    requires !over ==> k'.alive
    ensures Follows(env, steps + [step], sent + more, k', over)
  {
    hide Possible, After, Enabled, Next;
    AfterAppend(env, UPGRADED, steps, step);
    assert Scanning.PREFACE + sent + more == Scanning.PREFACE + (sent + more);
  }

  lemma OneMoreVerdict(env: Env, inputs: seq<Input>, vs: seq<Verdict>, v: Verdict)
    requires |vs| < |inputs| && HandsOverMessages(env, inputs, vs + [v])
    ensures HandsOverMessages(env, inputs, vs) && (v.ToClient? || ClientMessage(env, inputs[|vs|].frames))
  {
    assert (vs + [v])[|vs|] == v;
    assert forall i :: 0 <= i < |vs| ==> (vs + [v])[i] == vs[i];
  }

  lemma ServedIsStep(env: Env, k: Kernel, h: History, req: Request, f: Bytes)
    requires req.Http2? && req.route.Some? && k.alive && k.table == req.table && |k.table| <= MAX_SYNC_ENTRIES
    requires HasRoom(k.flow, ServeStep(req, f).dataLen) && k.handshaked
    ensures Took(env, k, h, ServeStep(req, f),
                 Kernel(env.dec(k.table, f), true, true, Spend(k.flow, ServeStep(req, f).dataLen), true), [])
  {
    assert h.stream + [] == h.stream;
  }
}
