/** One decoder worked out, to show that what `System` asks of its environment can be had. */
module Witness {
  import opened Wire
  import opened Hpack
  import opened DtSync
  import opened FlowControl
  import opened Serving
  import opened System
  import opened Message
  import opened MsgVerdict

  const HEADERS: byte := 0x01
  const TABLE_LIMIT: nat := 4096

  /** Section 4.1 of RFC 7541, for strings spelled out as they are. */
  function Counted(e: Entry): nat {
    32 + |e.name.bytes| + |e.value.bytes|
  }

  /** A header block of one field, which is added to the table with the payload as its value. */
  function FieldOf(f: Bytes): Entry
    requires |f| >= FRAME_HEADER_LEN
  {
    Entry(Str(false, [0x78]), Str(false, f[FRAME_HEADER_LEN..]))
  }

  function Decode(t: Table, f: Bytes): Table {
    if |f| >= FRAME_HEADER_LEN && f[3] == HEADERS then Add(Counted, TABLE_LIMIT, t, FieldOf(f)) else t
  }

  const ENV: Env := Env(Decode, Counted, TABLE_LIMIT, MaxSyncBody(127))

  lemma EnvSound()
    ensures Sound(ENV)
  {
    forall t, f | TableSize(Counted, t) <= TABLE_LIMIT
      ensures TableSize(Counted, Decode(t, f)) <= TABLE_LIMIT
    {
      if |f| >= FRAME_HEADER_LEN && f[3] == HEADERS && Counted(FieldOf(f)) <= TABLE_LIMIT {
        var e := FieldOf(f);
        EvictFits(Counted, t, TABLE_LIMIT - Counted(e));
        var kept := Evict(Counted, t, TABLE_LIMIT - Counted(e));
        assert ([e] + kept)[0] == e && ([e] + kept)[1..] == kept;
      }
    }
  }

  /** A request on stream 1 with one byte of a header block, and a window update behind it. */
  const REQUEST: Bytes := [0, 0, 1, 1, 5, 0, 0, 0, 1, 0x61]
  const UPDATE: Bytes := [0, 0, 4, 8, 0, 0, 0, 0, 0, 0, 0, 1, 0]

  lemma TwoFrames()
    ensures ClientMessage(ENV, [REQUEST, UPDATE])
  {
    assert REQUEST[..3] == [0, 0, 1] && UPDATE[..3] == [0, 0, 4];
    assert LenAt(REQUEST) == 1 && LenAt(UPDATE) == 4;
    assert [REQUEST, UPDATE][1..] == [UPDATE];
  }

  /** The acknowledgement of the server's SETTINGS, before which nothing is answered. */
  const ACK: Bytes := [0, 0, 0, 4, 1, 0, 0, 0, 0]

  lemma AckMessage()
    ensures ClientMessage(ENV, [ACK]) && Acks(ACK) && Decode([], ACK) == []
  {
    assert ACK[..3] == [0, 0, 0];
    assert LenAt(ACK) == 0;
  }

  const GREETING: Step := Step.Forward([ACK], OPENING, true, true)

  /** The connection behind the handshake. */
  lemma Greets()
    ensures Sound(ENV) && Possible(ENV, UPGRADED, [GREETING])
    ensures After(ENV, UPGRADED, [GREETING]) == Next(ENV, UPGRADED, GREETING)
    ensures var s := Next(ENV, UPGRADED, GREETING);
            && s.k == Kernel([], false, true, OPENING, true)
            && s.h.blocks == [] && s.h.handed == [] && s.h.forwarded == ACK
  {
    hide Encode, DecodeLog, Granted, AllParsed, ClientMessage;
    EnvSound();
    AckMessage();
    assert ClientMessage(ENV, [ACK]) ==> forall f :: f in [ACK] ==> ClientFrame(f);
    var none: seq<Step> := [];
    AfterNone(ENV, UPGRADED);
    AfterAppend(ENV, UPGRADED, none, GREETING);
    assert none + [GREETING] == [GREETING];
    assert Concat([ACK]) == ACK by {
      assert [ACK][1..] == [] && ACK + [] == ACK;
    }
    var nothing: Bytes := [];
    assert nothing + ACK == ACK;
  }

  lemma AfterNone(env: Env, s: Sys)
    ensures Possible(env, s, []) && After(env, s, []) == s
  {
  }

  /**
   A run in which the handshake is over, a request is answered, and the next message, of two frames, is
   then handed over behind the table and the report. Nothing about it is dropped.
   */
  lemma TwoFramesGoThrough(dataLen: u32)
    requires 0 < dataLen <= H2_INITIAL_WINDOW
    ensures var fc := Tracked(Spend(OPENING, dataLen), [REQUEST, UPDATE]);
            var steps := [GREETING] + [Serve(REQUEST, dataLen)] + [Step.Forward([REQUEST, UPDATE], fc, true, true)];
            && Sound(ENV) && Possible(ENV, UPGRADED, steps)
            && var s := After(ENV, UPGRADED, steps);
               && s.k.alive && !s.k.dirty && s.k.flow.unreported == 0 && |s.h.blocks| == 1
               && s.h.forwarded == ACK + (REQUEST + UPDATE)
  {
    hide Encode, TrackFrames, DecodeLog, Granted, Possible, After;
    TwoFrames();
    var fc := Spend(OPENING, dataLen);
    var fs := [REQUEST, UPDATE];
    var first, second := Serve(REQUEST, dataLen), Step.Forward(fs, Tracked(fc, fs), true, true);
    Greets();
    OneEntry();
    TrackedBounds(fc, fs);
    AfterAppend(ENV, UPGRADED, [GREETING], first);
    AfterAppend(ENV, UPGRADED, [GREETING] + [first], second);
    ConcatTwo(REQUEST, UPDATE);
  }

  lemma ConcatTwo(a: Bytes, b: Bytes)
    ensures Concat([a, b]) == a + b
  {
    assert [a, b][1..] == [b] && [b][1..] == [];
    assert Concat([b]) == b + Concat([]) == b;
  }

  lemma OneEntry()
    ensures Decode([], REQUEST) == [FieldOf(REQUEST)]
    ensures RenderSync([FieldOf(REQUEST)], 1, ENV.cap).Some?
  {
    var e := FieldOf(REQUEST);
    assert REQUEST[FRAME_HEADER_LEN..] == [0x61];
    var none: Table := [];
    assert Evict(Counted, none, TABLE_LIMIT - Counted(e)) == none && [e] + none == [e];
    RenderTableBound([e]);
    assert [e][..1] == [e];
  }

  /** What handing the second message over as it is would come to. */
  lemma RawGoesWrongHere(dataLen: u32)
    requires dataLen <= H2_INITIAL_WINDOW
    ensures var steps := [GREETING] + [Serve(REQUEST, dataLen)];
            && Sound(ENV) && Possible(ENV, UPGRADED, steps)
            && var s := After(ENV, UPGRADED, steps);
               CaughtUp(ENV, s.h.stream + (REQUEST + UPDATE)).decoded
               != s.h.decoded + DecodeLog(ENV, s.k.table, [REQUEST, UPDATE])
  {
    hide Possible, After, CaughtUp, DecodeLog, Encode;
    TwoFrames();
    Greets();
    OneEntry();
    RawGoesWrong(ENV, [GREETING], REQUEST, dataLen, [REQUEST, UPDATE]);
    ConcatTwo(REQUEST, UPDATE);
  }
  /** A response of one HEADERS frame and one DATA frame of two bytes. */
  const RESPONSE: Bytes := [0, 0, 1, 1, 4, 0, 0, 0, 0, 0x88, 0, 0, 2, 0, 1, 0, 0, 0, 0, 0x6F, 0x6B]
  const ROUTE: Route := Route(0, 0, 0, |RESPONSE|, [5, 15], 2)

  const ACKING: Input := Input([ACK], |ACK|, 0, None, true, true)
  const ASKING: Input := Input([REQUEST], |REQUEST|, 0, Some(ROUTE), true, true)

  /** The program upgrades a connection, hands the acknowledgement over and answers the request behind it. */
  method AnswersARequest() returns (verdicts: seq<Verdict>)
    ensures |verdicts| == 2 && verdicts[0].ToUserSpace? && verdicts[1].ToClient?
  {
    var program := new Program(RESPONSE, 127);
    var conn := new Conn();
    var hello := new Msg(Scanning.PREFACE, true, true, true);
    var v := program.OtherVerdict(conn, hello, Http1(24, true, 0, None));
    Inputs();
    var sent, table;
    ghost var steps;
    verdicts, sent, table, steps := program.Connection(conn, ENV, [ACKING, ASKING]);
    BothJudged(verdicts, steps, sent, conn.View(table));
  }

  lemma Inputs()
    ensures forall i :: i in [ACKING, ASKING] ==> Acceptable(i, RESPONSE)
    ensures ClientMessage(ENV, [ACK]) && ClientMessage(ENV, [REQUEST])
  {
    AckMessage();
    TwoFrames();
    assert ClientFrame(REQUEST) && [REQUEST][1..] == [];
    ConcatOne(ACK);
    ConcatOne(REQUEST);
  }

  lemma ConcatOne(b: Bytes)
    ensures Concat([b]) == b
  {
    assert [b][1..] == [] && b + [] == b;
  }

  lemma BothJudged(vs: seq<Verdict>, steps: seq<Step>, sent: Bytes, k: Kernel)
    requires |vs| == |steps| <= 2 && (|vs| < 2 ==> vs != [] && vs[|vs| - 1].Drop?)
    requires HandsOverMessages(ENV, [ACKING, ASKING], vs) ==>
               Follows(ENV, steps, sent, k, DroppedLast(vs)) && JudgedRight(ENV, [ACKING, ASKING], vs, steps)
    ensures |vs| == 2 && vs[0].ToUserSpace? && vs[1].ToClient?
  {
    hide Follows, RightVerdict, Possible, After, Tracked;
    Inputs();
    var inputs := [ACKING, ASKING];
    assert inputs[0] == ACKING && inputs[1] == ASKING && ACKING.frames == [ACK] && ASKING.frames == [REQUEST];
    assert HandsOverMessages(ENV, inputs, vs);
    AfterNone(ENV, UPGRADED);
    assert steps[..0] == [] && Reached(ENV, steps[..0]) == UPGRADED;
    AckGoesOver(vs[0], steps[0]);
    assert |vs| == 2;
    SecondState(steps, sent, k, DroppedLast(vs));
    RequestIsAnswered(Reached(ENV, steps[..1]).k, vs[1], steps[1]);
  }

  // The first message is handed over, as it is no request and nothing is stale.
  lemma AckGoesOver(v: Verdict, step: Step)
    requires RightVerdict(ACKING, v, UPGRADED.k, step)
    ensures v.ToUserSpace? && step.Forward? && step.frames == [ACK] && step.windows == OPENING
  {
    AckMessage();
    ConcatOne(ACK);
    AckTracks();
  }

  lemma AckTracks()
    requires ClientFrame(ACK)
    ensures Tracked(OPENING, [ACK]) == OPENING
  {
    assert [ACK][1..] == [];
    assert AllParsed([ACK]) == [Parsed(ACK)];
    assert [Parsed(ACK)][1..] == [];
    assert TrackFrames(OPENING, [Parsed(ACK)]) == TrackFrames(TrackFrame(OPENING, Parsed(ACK)), []);
  }

  // The state behind it.
  lemma SecondState(steps: seq<Step>, sent: Bytes, k: Kernel, over: bool)
    requires |steps| == 2 && Follows(ENV, steps, sent, k, over)
    requires steps[0].Forward? && steps[0].frames == [ACK] && steps[0].windows == OPENING
    ensures Reached(ENV, steps[..1]).k == Kernel([], false, true, OPENING, true)
  {
    hide Encode, DecodeLog, Granted, FcPrefix, AllParsed;
    AckMessage();
    var first := steps[0];
    assert steps == steps[..1] + [steps[1]] && steps[..1] == [first];
    LastEnabled(ENV, UPGRADED, steps[..1], steps[1]);
    AfterNone(ENV, UPGRADED);
    AfterAppend(ENV, UPGRADED, [], first);
    var none: seq<Step> := [];
    assert none + [first] == [first];
  }

  lemma RequestIsAnswered(k: Kernel, v: Verdict, step: Step)
    requires k == Kernel([], false, true, OPENING, true) && RightVerdict(ASKING, v, k, step)
    ensures v.ToClient?
  {
    TwoFrames();
    ConcatOne(REQUEST);
    assert ClientFrame(REQUEST);
    assert SidAt(REQUEST) == 1 by {
      assert REQUEST[5..9] == [0, 0, 0, 1];
    }
  }
}
