/**
 What the scanner of `listener.rs` computes, one byte at a time.

 `StepByte` is the reference machine: it knows neither chunks nor the barrier. `Scan` is what one
 call of the scanner amounts to: the reference machine, run up to the first table update.
 */
module Scanning {
  import opened Wire

  const FC_BODY_LEN: nat := 4
  const MAX_SYNC_FRAME: nat := 64 * 1024

  // "PRI * HTTP/2.0\r\n\r\nSM\r\n\r\n", section 3.5 of RFC 7540
  const PREFACE: Bytes := [
    0x50, 0x52, 0x49, 0x20, 0x2A, 0x20, 0x48, 0x54, 0x54, 0x50, 0x2F, 0x32,
    0x2E, 0x30, 0x0D, 0x0A, 0x0D, 0x0A, 0x53, 0x4D, 0x0D, 0x0A, 0x0D, 0x0A]
  const PREFACE_LEN: nat := 24

  lemma PrefaceText()
    ensures var text := "PRI * HTTP/2.0\r\n\r\nSM\r\n\r\n";
            |PREFACE| == |text| == PREFACE_LEN && forall i :: 0 <= i < |text| ==> PREFACE[i] == text[i] as int
  {
  }

  datatype State =
    | Preface(matched: nat)
    | Header(buf: Bytes)
    | Payload(remaining: nat)
    | Sync(block: Bytes, remaining: nat)
    | Flow(body: Bytes)
    | Blind
  {
    ghost predicate Valid() {
      match this
      case Preface(m) => m < PREFACE_LEN
      case Header(b) => |b| < FRAME_HEADER_LEN
      case Payload(n) => n < MAX_PAYLOAD
      case Sync(b, n) => |b| + n <= MAX_SYNC_FRAME
      case Flow(b) => |b| < FC_BODY_LEN
      case Blind => true
    }
  }

  /** What scanning does with a byte: pass it on, hand over a table update, or report bytes served. */
  datatype Event = Out(b: byte) | Block(block: Bytes) | Report(sent: u32)

  function Outs(b: Bytes): (ev: seq<Event>)
    ensures |ev| == |b| && forall i :: 0 <= i < |b| ==> ev[i] == Out(b[i])
  {
    seq(|b|, i requires 0 <= i < |b| => Out(b[i]))
  }

  function Blocks(bs: seq<Bytes>): (ev: seq<Event>)
    ensures |ev| == |bs| && forall i :: 0 <= i < |bs| ==> ev[i] == Block(bs[i])
  {
    seq(|bs|, i requires 0 <= i < |bs| => Block(bs[i]))
  }

  // The three projections of an event stream.
  function OutOf(ev: seq<Event>): Bytes {
    if ev == [] then [] else (if ev[0].Out? then [ev[0].b] else []) + OutOf(ev[1..])
  }

  function BlocksOf(ev: seq<Event>): seq<Bytes> {
    if ev == [] then [] else (if ev[0].Block? then [ev[0].block] else []) + BlocksOf(ev[1..])
  }

  function Sum(ev: seq<Event>): nat {
    if ev == [] then 0 else (if ev[0].Report? then ev[0].sent else 0) + Sum(ev[1..])
  }

  datatype Stepped = Stepped(state: State, events: seq<Event>)

  /** The state a complete frame header puts the scanner in, and the bytes it passes on. */
  function OnHeader(h: Bytes): Stepped
    requires |h| >= FRAME_HEADER_LEN
  {
    var len := LenAt(h);
    if h[3] == FC_SYNC then
      if len != FC_BODY_LEN then Stepped(Blind, []) else Stepped(Flow([]), [])
    else if h[3] != DT_SYNC then Stepped(Payload(len), Outs(h))
    else if len > MAX_SYNC_FRAME then Stepped(Blind, [])
    else Stepped(Sync([], len), [])
  }

  function HeaderByte(buf: Bytes, b: byte): Stepped {
    if |buf| + 1 < FRAME_HEADER_LEN then Stepped(Header(buf + [b]), []) else OnHeader(buf + [b])
  }

  /** The reference machine. A payload of no bytes is only over once the next byte arrives. */
  function StepByte(st: State, b: byte): Stepped {
    match st
    case Preface(m) =>
      if m >= PREFACE_LEN || b != PREFACE[m] then Stepped(Blind, [Out(b)])
      else Stepped(if m + 1 == PREFACE_LEN then Header([]) else Preface(m + 1), [Out(b)])
    case Header(buf) => HeaderByte(buf, b)
    case Payload(n) =>
      if n == 0 then HeaderByte([], b)
      else Stepped(if n == 1 then Header([]) else Payload(n - 1), [Out(b)])
    case Sync(blk, n) =>
      if n == 0 then Stepped(HeaderByte([], b).state, [Block(blk)] + HeaderByte([], b).events)
      else if n == 1 then Stepped(Header([]), [Block(blk + [b])])
      else Stepped(Sync(blk + [b], n - 1), [])
    case Flow(buf) =>
      if |buf| + 1 == FC_BODY_LEN then Stepped(Header([]), [Report(Val32(buf + [b]))])
      else Stepped(Flow(buf + [b]), [])
    case Blind => Stepped(Blind, [Out(b)])
  }

  function Run(st: State, s: Bytes): Stepped
    decreases |s|
  {
    if s == [] then Stepped(st, [])
    else
      var a := StepByte(st, s[0]);
      var b := Run(a.state, s[1..]);
      Stepped(b.state, a.events + b.events)
  }

  datatype Scanned = Scanned(state: State, events: seq<Event>, rest: Bytes)

  /** One call of the scanner with no update pending: what it emits and what it holds back. */
  function Scan(st: State, s: Bytes): Scanned
    decreases |s|
  {
    if s == [] then Scanned(st, [], [])
    else if st.Sync? && st.remaining == 0 then Scanned(Header([]), [Block(st.block)], s)
    else
      var a := StepByte(st, s[0]);
      if st.Sync? && st.remaining == 1 then Scanned(a.state, a.events, s[1..])
      else
        var r := Scan(a.state, s[1..]);
        r.(events := a.events + r.events)
  }

  lemma StepValid(st: State, b: byte)
    requires st.Valid()
    ensures StepByte(st, b).state.Valid()
  {
  }

  lemma {:induction false} ScanValid(st: State, s: Bytes)
    requires st.Valid()
    ensures Scan(st, s).state.Valid()
    decreases |s|
  {
    if s != [] && !(st.Sync? && st.remaining == 0) {
      StepValid(st, s[0]);
      if !(st.Sync? && st.remaining == 1) {
        ScanValid(StepByte(st, s[0]).state, s[1..]);
      }
    }
  }

  lemma StepWithoutBlock(st: State, b: byte)
    requires !(st.Sync? && st.remaining <= 1)
    ensures BlocksOf(StepByte(st, b).events) == []
  {
    var buf := if st.Header? then st.buf else [];
    OutsHaveNoBlock(buf + [b]);
  }

  lemma StepsToBlock(st: State, b: byte)
    requires st.Sync? && st.remaining <= 1
    ensures BlocksOf(StepByte(st, b).events) != []
  {
  }

  lemma {:induction false} OutsHaveNoBlock(b: Bytes)
    ensures BlocksOf(Outs(b)) == [] && OutOf(Outs(b)) == b && Sum(Outs(b)) == 0
  {
    if b != [] {
      assert Outs(b)[1..] == Outs(b[1..]);
      OutsHaveNoBlock(b[1..]);
    }
  }

  lemma {:induction false} OutConcat(a: seq<Event>, b: seq<Event>)
    ensures OutOf(a + b) == OutOf(a) + OutOf(b)
  {
    if a == [] {
      assert a + b == b;
    } else {
      assert (a + b)[0] == a[0] && (a + b)[1..] == a[1..] + b;
      OutConcat(a[1..], b);
    }
  }

  lemma {:induction false} BlocksConcat(a: seq<Event>, b: seq<Event>)
    ensures BlocksOf(a + b) == BlocksOf(a) + BlocksOf(b)
  {
    if a == [] {
      assert a + b == b;
    } else {
      assert (a + b)[0] == a[0] && (a + b)[1..] == a[1..] + b;
      BlocksConcat(a[1..], b);
    }
  }

  lemma {:induction false} SumConcat(a: seq<Event>, b: seq<Event>)
    ensures Sum(a + b) == Sum(a) + Sum(b)
  {
    if a == [] {
      assert a + b == b;
    } else {
      assert (a + b)[0] == a[0] && (a + b)[1..] == a[1..] + b;
      SumConcat(a[1..], b);
    }
  }

  lemma ProjectionsConcat(a: seq<Event>, b: seq<Event>)
    ensures OutOf(a + b) == OutOf(a) + OutOf(b)
    ensures BlocksOf(a + b) == BlocksOf(a) + BlocksOf(b)
    ensures Sum(a + b) == Sum(a) + Sum(b)
  {
    OutConcat(a, b);
    BlocksConcat(a, b);
    SumConcat(a, b);
  }

  lemma OneBlock(blk: Bytes)
    ensures OutOf([Block(blk)]) == [] && BlocksOf([Block(blk)]) == [blk] && Sum([Block(blk)]) == 0
  {
    var ev := [Block(blk)];
    assert ev[1..] == [];
  }

  /** The reference machine does not depend on how its input is split. */
  lemma {:induction false} RunConcat(st: State, a: Bytes, b: Bytes)
    ensures Run(st, a + b).state == Run(Run(st, a).state, b).state
    ensures Run(st, a + b).events == Run(st, a).events + Run(Run(st, a).state, b).events
    decreases |a|
  {
    hide StepByte;
    if a == [] {
      assert a + b == b;
    } else {
      assert (a + b)[1..] == a[1..] + b;
      RunConcat(StepByte(st, a[0]).state, a[1..], b);
    }
  }

  /** Scanning and then running on what was held back is running on the whole input. */
  lemma {:induction false} ScanThenRun(st: State, s: Bytes)
    ensures var r := Scan(st, s);
            Run(st, s).state == Run(r.state, r.rest).state && Run(st, s).events == r.events + Run(r.state, r.rest).events
    decreases |s|
  {
    if s != [] && !(st.Sync? && st.remaining <= 1) {
      hide StepByte;
      var Stepped(st1, ev1) := StepByte(st, s[0]);
      assert Run(st, s) == Stepped(Run(st1, s[1..]).state, ev1 + Run(st1, s[1..]).events);
      ScanOn(st, s);
      hide Run, Scan;
      ScanThenRun(st1, s[1..]);
      var r := Scan(st1, s[1..]);
      EventsTogether(ev1, r.events, Run(r.state, r.rest).events);
    }
  }

  /** The updates of `ev` are none, or one that is its last event. */
  ghost predicate EndsAtBlock(ev: seq<Event>) {
    || BlocksOf(ev) == []
    || (ev != [] && ev[|ev| - 1].Block? && BlocksOf(ev) == [ev[|ev| - 1].block] && BlocksOf(ev[..|ev| - 1]) == [])
  }

  lemma PrependWithoutBlock(a: seq<Event>, b: seq<Event>)
    requires BlocksOf(a) == [] && EndsAtBlock(b)
    ensures EndsAtBlock(a + b)
  {
    ProjectionsConcat(a, b);
    if BlocksOf(b) != [] {
      assert (a + b)[..|a + b| - 1] == a + b[..|b| - 1];
      ProjectionsConcat(a, b[..|b| - 1]);
    }
  }

  /** A scan emits at most one update, and emits nothing behind it. */
  lemma {:induction false} ScanStopsAtBlock(st: State, s: Bytes)
    ensures EndsAtBlock(Scan(st, s).events)
    decreases |s|
  {
    if s != [] && !(st.Sync? && st.remaining <= 1) {
      var Stepped(st1, ev1) := StepByte(st, s[0]);
      ScanStopsAtBlock(st1, s[1..]);
      StepWithoutBlock(st, s[0]);
      PrependWithoutBlock(ev1, Scan(st1, s[1..]).events);
    }
  }

  /** A stretch of input the machine emits no update on can be scanned ahead of the rest. */
  lemma {:induction false} ScanAhead(st: State, p: Bytes, q: Bytes)
    requires BlocksOf(Run(st, p).events) == []
    ensures var r := Scan(Run(st, p).state, q);
            Scan(st, p + q) == r.(events := Run(st, p).events + r.events)
    decreases |p|
  {
    hide StepByte, BlocksOf;
    if p == [] {
      assert p + q == q;
    } else {
      var Stepped(st1, ev1) := StepByte(st, p[0]);
      var ev2 := Run(st1, p[1..]).events;
      assert (p + q)[0] == p[0] && (p + q)[1..] == p[1..] + q;
      assert Run(st, p) == Stepped(Run(st1, p[1..]).state, ev1 + ev2);
      ProjectionsConcat(ev1, ev2);
      if st.Sync? && st.remaining <= 1 {
        StepsToBlock(st, p[0]);
      }
      hide Run;
      ScanOn(st, p + q);
      hide Scan;
      ScanAhead(st1, p[1..], q);
      EventsTogether(ev1, ev2, Scan(Run(st, p).state, q).events);
    }
  }

  lemma EventsTogether(a: seq<Event>, b: seq<Event>, c: seq<Event>)
    ensures a + (b + c) == a + b + c
  {
  }

  lemma ScanOn(st: State, s: Bytes)
    requires s != [] && !(st.Sync? && st.remaining <= 1)
    ensures var Stepped(st1, ev1) := StepByte(st, s[0]);
            Scan(st, s) == Scan(st1, s[1..]).(events := ev1 + Scan(st1, s[1..]).events)
  {
  }

  // What the machine does on a stretch that lies within one part of a frame, which is how much the
  // scanner moves at once.

  // A step that passes a byte on.
  lemma RunPassing(st: State, p: Bytes)
    requires p != [] && StepByte(st, p[0]).events == [Out(p[0])]
    requires Run(StepByte(st, p[0]).state, p[1..]).events == Outs(p[1..])
    ensures Run(st, p) == Stepped(Run(StepByte(st, p[0]).state, p[1..]).state, Outs(p))
  {
    hide StepByte;
    assert Outs(p) == [Out(p[0])] + Outs(p[1..]);
  }

  lemma RunNone(st: State)
    ensures Run(st, []) == Stepped(st, Outs([]))
  {
  }

  lemma {:induction false} RunPreface(m: nat, p: Bytes)
    requires m + |p| <= PREFACE_LEN && m < PREFACE_LEN && p == PREFACE[m..m + |p|]
    ensures Run(Preface(m), p) ==
            Stepped(if m + |p| == PREFACE_LEN then Header([]) else Preface(m + |p|), Outs(p))
    decreases |p|
  {
    hide Run, Outs;
    if p == [] {
      RunNone(Preface(m));
    } else {
      assert p[1..] == PREFACE[m + 1..m + 1 + |p[1..]|];
      if m + 1 < PREFACE_LEN {
        RunPreface(m + 1, p[1..]);
      } else {
        RunNone(Header([]));
      }
      RunPassing(Preface(m), p);
    }
  }

  lemma {:induction false} RunBlind(p: Bytes)
    ensures Run(Blind, p) == Stepped(Blind, Outs(p))
  {
    hide Run, Outs;
    if p == [] {
      RunNone(Blind);
    } else {
      RunBlind(p[1..]);
      RunPassing(Blind, p);
    }
  }

  lemma DivergesLater(pre: Bytes, m: nat, p: Bytes, n: nat)
    requires 0 < n <= |p| && m + n <= |pre| && p[..n] != pre[m..m + n] && p[0] == pre[m]
    ensures n > 1 && p[1..][..n - 1] != pre[m + 1..m + n]
  {
    assert p[..n] == [p[0]] + p[1..][..n - 1];
    assert pre[m..m + n] == [pre[m]] + pre[m + 1..m + n];
  }

  /** A preface that diverges anywhere leaves the whole input passed on. */
  lemma {:induction false} RunBadPreface(m: nat, p: Bytes, n: nat)
    requires m < PREFACE_LEN && n <= |p| && m + n <= PREFACE_LEN && p[..n] != PREFACE[m..m + n]
    ensures Run(Preface(m), p) == Stepped(Blind, Outs(p))
    decreases |p|
  {
    hide Run, Outs;
    if p != [] && n > 0 {
      if p[0] != PREFACE[m] {
        RunBlind(p[1..]);
      } else {
        DivergesLater(PREFACE, m, p, n);
        RunBadPreface(m + 1, p[1..], n - 1);
      }
      RunPassing(Preface(m), p);
    }
  }

  lemma RunOne(st: State, b: byte)
    ensures Run(st, [b]) == StepByte(st, b)
  {
    var Stepped(st1, ev1) := StepByte(st, b);
    assert Run(st1, []) == Stepped(st1, []) && [b][1..] == [];
    assert ev1 + [] == ev1;
  }

  // A step that emits nothing.
  lemma RunSilent(st: State, p: Bytes)
    requires p != [] && StepByte(st, p[0]).events == []
    ensures Run(st, p) == Run(StepByte(st, p[0]).state, p[1..])
  {
    var later := Run(StepByte(st, p[0]).state, p[1..]).events;
    assert [] + later == later;
  }

  lemma {:induction false} RunHeader(buf: Bytes, p: Bytes)
    requires |buf| < FRAME_HEADER_LEN && |buf| + |p| <= FRAME_HEADER_LEN
    ensures Run(Header(buf), p) ==
            (if |buf| + |p| < FRAME_HEADER_LEN then Stepped(Header(buf + p), []) else OnHeader(buf + p))
    decreases |p|
  {
    if p == [] {
      assert buf + p == buf;
    } else {
      assert buf + [p[0]] + p[1..] == buf + p;
      if |p| == 1 {
        assert p == [p[0]];
        RunOne(Header(buf), p[0]);
      } else {
        RunSilent(Header(buf), p);
        RunHeader(buf + [p[0]], p[1..]);
      }
    }
  }

  lemma {:induction false} RunPayload(n: nat, p: Bytes)
    requires 0 < n < MAX_PAYLOAD && |p| <= n
    ensures Run(Payload(n), p) == Stepped(if |p| == n then Header([]) else Payload(n - |p|), Outs(p))
    decreases |p|
  {
    hide Run, Outs;
    if p == [] {
      RunNone(Payload(n));
    } else {
      if n > 1 {
        RunPayload(n - 1, p[1..]);
      } else {
        RunNone(Header([]));
      }
      RunPassing(Payload(n), p);
    }
  }

  lemma {:induction false} RunSync(blk: Bytes, n: nat, p: Bytes)
    requires |blk| + n <= MAX_SYNC_FRAME && |p| <= n && 0 < n
    ensures Run(Sync(blk, n), p) ==
            (if |p| == n then Stepped(Header([]), [Block(blk + p)]) else Stepped(Sync(blk + p, n - |p|), []))
    decreases |p|
  {
    if p == [] {
      assert blk + p == blk;
    } else {
      assert blk + [p[0]] + p[1..] == blk + p;
      if n > 1 {
        RunSilent(Sync(blk, n), p);
        RunSync(blk + [p[0]], n - 1, p[1..]);
      } else {
        assert p == [p[0]];
        RunOne(Sync(blk, n), p[0]);
      }
    }
  }

  lemma {:induction false} RunFlow(buf: Bytes, p: Bytes)
    requires |buf| < FC_BODY_LEN && |buf| + |p| <= FC_BODY_LEN
    ensures Run(Flow(buf), p) ==
            (if |buf| + |p| < FC_BODY_LEN then Stepped(Flow(buf + p), []) else Stepped(Header([]), [Report(Val32(buf + p))]))
    decreases |p|
  {
    if p == [] {
      assert buf + p == buf;
    } else {
      assert buf + [p[0]] + p[1..] == buf + p;
      if |p| == 1 {
        assert p == [p[0]];
        RunOne(Flow(buf), p[0]);
      } else {
        RunSilent(Flow(buf), p);
        RunFlow(buf + [p[0]], p[1..]);
      }
    }
  }

  /** A whole update held in the input ends the scan right behind it. */
  lemma {:induction false} ScanSync(blk: Bytes, n: nat, p: Bytes, q: Bytes)
    requires |blk| + n <= MAX_SYNC_FRAME && |p| == n && p + q != []
    ensures Scan(Sync(blk, n), p + q) == Scanned(Header([]), [Block(blk + p)], q)
    decreases |p|
  {
    if n == 0 {
      assert p + q == q && blk + p == blk;
    } else if n == 1 {
      assert (p + q)[1..] == q && p == [p[0]];
    } else {
      assert (p + q)[1..] == p[1..] + q;
      assert blk + [p[0]] + p[1..] == blk + p;
      ScanSync(blk + [p[0]], n - 1, p[1..], q);
    }
  }
  // ---- what a whole frame comes to ----

  /** What the machine makes of `f` with `later` behind it, spelled out by what kind of frame it is. */
  function Treated(f: Frame, rest: Bytes, later: Stepped): Stepped {
    if f.kind == 0xFA then
      if |f.payload| == 4 then Stepped(later.state, [Report(Val32(f.payload))] + later.events)
      else Stepped(Blind, Outs(f.payload + rest))
    else if f.kind == 0xFB then
      if |f.payload| <= 65536 then Stepped(later.state, [Block(f.payload)] + later.events)
      else Stepped(Blind, Outs(f.payload + rest))
    else Stepped(later.state, Outs(Encode(f)) + later.events)
  }

  /**
   Frame by frame: a report of four bytes is taken out and counted, an update of up to 64 KB is taken out
   and handed over, and everything else passes. A frame of either kind that is too long or not of four
   bytes loses its header, and from then on everything passes for good.
   */
  lemma FrameMeans(f: Frame, rest: Bytes)
    requires Encodable(f) && rest != []
    ensures Run(Header([]), Encode(f) + rest) == Treated(f, rest, Run(Header([]), rest))
  {
    hide Run, StepByte, OnHeader;
    var h := FrameHeader(|f.payload|, f.kind, f.flags, f.sid);
    var body := f.payload + rest;
    assert Encode(f) + rest == h + body;
    assert [] + h == h;
    RunHeader([], h);
    RunConcat(Header([]), h, body);
    HeaderFields(|f.payload|, f.kind, f.flags, f.sid, []);
    assert h + [] == h;
    BodyMeans(f, h, rest);
  }

  // The same behind the header.
  lemma BodyMeans(f: Frame, h: Bytes, rest: Bytes)
    requires |h| == FRAME_HEADER_LEN && LenAt(h) == |f.payload| && h[3] == f.kind && rest != [] && Encode(f) == h + f.payload
    ensures var x := OnHeader(h); var y := Run(x.state, f.payload + rest);
            Stepped(y.state, x.events + y.events) == Treated(f, rest, Run(Header([]), rest))
  {
    hide Run, StepByte, Encode;
    var x := OnHeader(h);
    var y := Run(x.state, f.payload + rest);
    assert [] + y.events == y.events;
    if x.state == Blind {
      RunBlind(f.payload + rest);
    } else if f.kind == 0xFA {
      RunFlow([], f.payload);
      assert [] + f.payload == f.payload;
      RunConcat(x.state, f.payload, rest);
    } else if f.kind == 0xFB {
      UpdateMeans(f.payload, rest);
    } else {
      PayloadMeans(f.payload, rest);
      OutsTogether(h, f.payload);
      EventsTogether(x.events, Outs(f.payload), Run(Header([]), rest).events);
    }
  }

  lemma OutsTogether(a: Bytes, b: Bytes)
    ensures Outs(a + b) == Outs(a) + Outs(b)
  {
  }

  lemma PayloadMeans(p: Bytes, rest: Bytes)
    requires |p| < MAX_PAYLOAD && rest != []
    ensures var x := Run(Header([]), rest);
            Run(Payload(|p|), p + rest) == Stepped(x.state, Outs(p) + x.events)
  {
    var x := Run(Header([]), rest);
    if p == [] {
      assert p + rest == rest && Outs(p) + x.events == x.events;
      assert StepByte(Payload(0), rest[0]) == StepByte(Header([]), rest[0]);
    } else {
      hide Run, StepByte;
      RunPayload(|p|, p);
      RunConcat(Payload(|p|), p, rest);
    }
  }

  lemma UpdateMeans(p: Bytes, rest: Bytes)
    requires |p| <= MAX_SYNC_FRAME && rest != []
    ensures var x := Run(Header([]), rest);
            Run(Sync([], |p|), p + rest) == Stepped(x.state, [Block(p)] + x.events)
  {
    if p == [] {
      assert p + rest == rest;
      var a := StepByte(Header([]), rest[0]);
      assert StepByte(Sync([], 0), rest[0]) == Stepped(a.state, [Block([])] + a.events);
      EventsTogether([Block([])], a.events, Run(a.state, rest[1..]).events);
    } else {
      hide Run, StepByte;
      RunSync([], |p|, p);
      assert [] + p == p;
      RunConcat(Sync([], |p|), p, rest);
    }
  }
}
