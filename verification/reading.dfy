/**
 The reader of `listener.rs` as a value, and what every one of its moves preserves.

 `Trace` is what a stream means to whoever reads it: bytes and reported spending, divided by the
 table updates. A report may be handed over ahead of bytes it arrived behind, but never across an
 update, which is exactly what `Trace` tells apart.
 */
module Reading {
  import opened Wire
  import opened Scanning

  datatype Reader = Reader(state: State, out: Bytes, hold: Bytes, blocks: seq<Bytes>, sent: u32)

  const INITIAL: Reader := Reader(Preface(0), [], [], [], 0)

  ghost predicate Valid(r: Reader) {
    && r.state.Valid()
    && |r.blocks| <= 1
    && (r.state.Preface? ==> r.hold == [] && r.blocks == [])
  }

  /** `Scanner::scan`. */
  function Ingest(r: Reader, input: Bytes): Reader {
    if r.blocks != [] then r.(hold := r.hold + input)
    else
      var x := Scan(r.state, input);
      Reader(x.state, r.out + OutOf(x.events), r.hold + x.rest, BlocksOf(x.events), (r.sent + Sum(x.events)) % U32)
  }

  datatype Poll = Ready(data: Bytes) | Pending | Eof | Failed
  datatype Polled = Polled(reader: Reader, chunks: seq<Bytes>, poll: Poll)

  function Min(a: nat, b: nat): nat { if a < b then a else b }

  /**
   `BeeperStream::poll_read` into a buffer with `cap` bytes left. `chunks` is what the reads of the
   socket return until it has nothing more for now, where a read of no bytes is the end of the stream.
   */
  function PollRead(r: Reader, chunks: seq<Bytes>, cap: nat): Polled
    decreases |chunks|, if r.blocks != [] then 0 else if r.hold == [] then 1 else 2
  {
    if r.out != [] then
      var n := Min(|r.out|, cap);
      Polled(r.(out := r.out[n..]), chunks, Ready(r.out[..n]))
    else if r.blocks != [] then Polled(r, chunks, Pending)
    else if r.hold != [] then
      ScanHoldsOnlyBehindBlock(r.state, r.hold);
      PollRead(Ingest(r.(hold := []), r.hold), chunks, cap)
    else if chunks == [] then Polled(r, chunks, Pending)
    else if chunks[0] == [] then Polled(r, chunks, Eof)
    else PollRead(Ingest(r, chunks[0]), chunks[1..], cap)
  }

  /** What is held back is held back by an update. */
  lemma {:induction false} ScanHoldsOnlyBehindBlock(st: State, s: Bytes)
    ensures BlocksOf(Scan(st, s).events) == [] ==> Scan(st, s).rest == []
    decreases |s|
  {
    if s != [] && !(st.Sync? && st.remaining <= 1) {
      var a := StepByte(st, s[0]);
      ScanHoldsOnlyBehindBlock(a.state, s[1..]);
      ProjectionsConcat(a.events, Scan(a.state, s[1..]).events);
    }
  }

  datatype Trace =
    | End(data: Bytes, sent: u32)
    | Update(data: Bytes, sent: u32, block: Bytes, next: Trace)

  // Addition as `fetch_add` of an `AtomicU32` does it.
  function Add32(a: u32, b: u32): u32 {
    (a + b) % U32
  }

  function Prepend(data: Bytes, sent: u32, t: Trace): Trace {
    match t
    case End(d, n) => End(data + d, Add32(sent, n))
    case Update(d, n, blk, next) => Update(data + d, Add32(sent, n), blk, next)
  }

  function View(ev: seq<Event>): Trace {
    if ev == [] then End([], 0)
    else
      match ev[0]
      case Out(b) => Prepend([b], 0, View(ev[1..]))
      case Report(n) => Prepend([], n, View(ev[1..]))
      case Block(blk) => Update([], 0, blk, View(ev[1..]))
  }

  function Join(a: Trace, b: Trace): Trace {
    match a
    case End(d, n) => Prepend(d, n, b)
    case Update(d, n, blk, next) => Update(d, n, blk, Join(next, b))
  }

  lemma Add32Associative(a: u32, b: u32, c: u32)
    ensures Add32(Add32(a, b), c) == Add32(a, Add32(b, c)) == (a + b + c) % U32
  {
    ModAdd(c, a + b);
    ModAdd(a, b + c);
  }

  lemma PrependTwice(d1: Bytes, n1: u32, d2: Bytes, n2: u32, t: Trace)
    ensures Prepend(d1, n1, Prepend(d2, n2, t)) == Prepend(d1 + d2, Add32(n1, n2), t)
  {
    hide Add32;
    Add32Associative(n1, n2, t.sent);
    assert d1 + d2 + t.data == d1 + (d2 + t.data);
  }

  lemma JoinPrepend(d: Bytes, n: u32, a: Trace, b: Trace)
    ensures Join(Prepend(d, n, a), b) == Prepend(d, n, Join(a, b))
  {
    hide Add32;
    if a.End? {
      PrependTwice(d, n, a.data, a.sent, b);
    }
  }

  lemma PrependNothing(t: Trace)
    ensures Prepend([], 0, t) == t
  {
    assert [] + t.data == t.data;
  }

  lemma {:induction false} ViewConcat(a: seq<Event>, b: seq<Event>)
    ensures View(a + b) == Join(View(a), View(b))
  {
    hide Prepend;
    if a == [] {
      assert a + b == b;
      PrependNothing(View(b));
    } else {
      assert (a + b)[0] == a[0] && (a + b)[1..] == a[1..] + b;
      ViewConcat(a[1..], b);
      match a[0]
      case Out(c) => JoinPrepend([c], 0, View(a[1..]), View(b));
      case Report(n) => JoinPrepend([], n, View(a[1..]), View(b));
      case Block(_) =>
    }
  }

  lemma {:induction false} JoinAssociative(a: Trace, b: Trace, c: Trace)
    ensures Join(Join(a, b), c) == Join(a, Join(b, c))
  {
    hide Prepend;
    match a
    case End(d, n) => JoinPrepend(d, n, b, c);
    case Update(_, _, _, next) => JoinAssociative(next, b, c);
  }

  lemma AddSum(n: u32, sum: nat)
    ensures Add32(n, sum % U32) == (n + sum) % U32
  {
    ModAdd(n, sum);
  }

  /** Between updates only the bytes in order and the total reported are told apart. */
  lemma {:induction false} ViewWithoutBlock(ev: seq<Event>)
    requires BlocksOf(ev) == []
    ensures View(ev) == End(OutOf(ev), Sum(ev) % U32)
  {
    hide Add32;
    if ev != [] {
      ViewWithoutBlock(ev[1..]);
      var n := if ev[0].Report? then ev[0].sent else 0;
      assert Add32(n, Sum(ev[1..]) % U32) == (n + Sum(ev[1..])) % U32 by {
        AddSum(n, Sum(ev[1..]));
      }
    }
  }

  /** Everything `r` has yet to hand over, if `wire` is what the socket has yet to return. */
  function Future(r: Reader, wire: Bytes): Trace {
    Join(Waiting(r), View(Run(r.state, r.hold + wire).events))
  }

  function EndState(r: Reader, wire: Bytes): State {
    Run(r.state, r.hold + wire).state
  }

  function Waiting(r: Reader): Trace {
    Join(End(r.out, r.sent), View(Blocks(r.blocks)))
  }

  /** Scanning a chunk changes nothing about what is still to come. */
  lemma IngestFuture(r: Reader, c: Bytes, wire: Bytes)
    requires r.hold == [] || r.blocks != []
    ensures Future(Ingest(r, c), wire) == Future(r, c + wire)
    ensures EndState(Ingest(r, c), wire) == EndState(r, c + wire)
  {
    hide Prepend, View, Scan, Run;
    if r.blocks != [] {
      assert r.hold + c + wire == r.hold + (c + wire);
    } else {
      var x := Scan(r.state, c);
      assert r.hold + (c + wire) == c + wire && r.hold + x.rest == x.rest;
      ScanThenRunOn(r.state, c, wire);
      ViewConcat(x.events, Run(x.state, x.rest + wire).events);
      IngestWaiting(r, c);
      JoinAssociative(Waiting(r), View(x.events), View(Run(x.state, x.rest + wire).events));
    }
  }

  lemma RescanFuture(r: Reader, wire: Bytes)
    requires r.blocks == []
    ensures Future(Ingest(r.(hold := []), r.hold), wire) == Future(r, wire)
  {
    hide Prepend, View, Scan, Run, Ingest;
    var r0 := r.(hold := []);
    IngestFuture(r0, r.hold, wire);
    assert r0.hold + (r.hold + wire) == r.hold + wire;
  }

  lemma ScanThenRunOn(st: State, c: Bytes, wire: Bytes)
    ensures var x := Scan(st, c);
            Run(st, c + wire) == Stepped(Run(x.state, x.rest + wire).state, x.events + Run(x.state, x.rest + wire).events)
  {
    hide Scan, Run, StepByte;
    var x := Scan(st, c);
    ScanThenRun(st, c);
    RunConcat(st, c, wire);
    RunConcat(x.state, x.rest, wire);
    var mid, end := Run(x.state, x.rest), Run(Run(st, c).state, wire);
    assert x.events + mid.events + end.events == x.events + (mid.events + end.events);
  }

  // Handing bytes, reports and an update over separately does not change what they mean.
  lemma WaitingWith(out: Bytes, sent: u32, ev: seq<Event>)
    requires BlocksOf(ev) == []
    ensures Join(End(out, sent), View(ev)) == End(out + OutOf(ev), (sent + Sum(ev)) % U32)
  {
    hide Sum, OutOf, View;
    ViewWithoutBlock(ev);
    ModAdd(sent, Sum(ev));
  }

  lemma ModAdd(a: nat, b: nat)
    ensures (a + b % U32) % U32 == (a + b) % U32
  {
    assert b == b / U32 * U32 + b % U32;
    ModTimes(a + b % U32, b / U32);
  }

  lemma {:induction false} ModTimes(a: nat, k: nat)
    ensures (a + k * U32) % U32 == a % U32
  {
  }

  lemma IngestWaiting(r: Reader, c: Bytes)
    requires r.hold == [] && r.blocks == []
    ensures Waiting(Ingest(r, c)) == Join(Waiting(r), View(Scan(r.state, c).events))
  {
    hide Scan, Add32, Prepend, View, Sum, OutOf;
    var ev := Scan(r.state, c).events;
    var r' := Ingest(r, c);
    WaitingWithoutBlock(r);
    ScanStopsAtBlock(r.state, c);
    if BlocksOf(ev) == [] {
      WaitingWith(r.out, r.sent, ev);
      WaitingWithoutBlock(r');
    } else {
      var front, blk := ev[..|ev| - 1], ev[|ev| - 1].block;
      assert front + [Block(blk)] == ev;
      assert r'.blocks == [blk];
      BlockWaiting(r, front, blk, r');
    }
  }

  lemma BlockWaiting(r: Reader, front: seq<Event>, blk: Bytes, r': Reader)
    requires r.blocks == [] && BlocksOf(front) == [] && r'.blocks == [blk]
    requires var ev := front + [Block(blk)]; r'.out == r.out + OutOf(ev) && r'.sent == (r.sent + Sum(ev)) % U32
    ensures Waiting(r') == Join(Waiting(r), View(front + [Block(blk)]))
  {
    hide Prepend, View, OutOf, BlocksOf, Sum, Join;
    var last := [Block(blk)];
    OneBlock(blk);
    ProjectionsConcat(front, last);
    assert OutOf(front) + [] == OutOf(front);
    assert Blocks([blk]) == last;
    ViewConcat(front, last);
    WaitingWithoutBlock(r);
    WaitingWith(r.out, r.sent, front);
    JoinAssociative(Waiting(r), View(front), View(last));
  }

  lemma WaitingWithoutBlock(r: Reader)
    requires r.blocks == []
    ensures Waiting(r) == End(r.out, r.sent)
  {
    assert r.out + [] == r.out;
  }

  /** Bytes handed over are the front of what was to come. */
  lemma DeliverFuture(r: Reader, n: nat, wire: Bytes)
    requires n <= |r.out|
    ensures Future(r, wire) == Join(End(r.out[..n], 0), Future(r.(out := r.out[n..]), wire))
  {
    hide View, Run;
    var r' := r.(out := r.out[n..]);
    assert End(r.out, r.sent) == Join(End(r.out[..n], 0), End(r'.out, r.sent)) by {
      assert r.out == r.out[..n] + r.out[n..];
    }
    var head := End(r.out[..n], 0);
    JoinAssociative(head, End(r'.out, r.sent), View(Blocks(r.blocks)));
    JoinAssociative(head, Waiting(r'), View(Run(r.state, r.hold + wire).events));
  }

  /**
   Whatever the buffer and however the bytes were split into reads: a poll hands over the front of
   what was to come and leaves the rest of it to come.
   */
  lemma {:induction false} PollFuture(r: Reader, chunks: seq<Bytes>, cap: nat, wire: Bytes)
    ensures var p := PollRead(r, chunks, cap);
            var data := if p.poll.Ready? then p.poll.data else [];
            && Future(r, Concat(chunks) + wire) == Join(End(data, 0), Future(p.reader, Concat(p.chunks) + wire))
            && EndState(r, Concat(chunks) + wire) == EndState(p.reader, Concat(p.chunks) + wire)
    decreases |chunks|, if r.blocks != [] then 0 else if r.hold == [] then 1 else 2
  {
    if r.out != [] {
      DeliverFuture(r, Min(|r.out|, cap), Concat(chunks) + wire);
    } else if r.blocks != [] {
      JoinEmpty(Future(r, Concat(chunks) + wire));
    } else if r.hold != [] {
      ScanHoldsOnlyBehindBlock(r.state, r.hold);
      var w := Concat(chunks) + wire;
      IngestFuture(r.(hold := []), r.hold, w);
      assert [] + (r.hold + w) == r.hold + w;
      PollFuture(Ingest(r.(hold := []), r.hold), chunks, cap, wire);
    } else if chunks == [] || chunks[0] == [] {
      JoinEmpty(Future(r, Concat(chunks) + wire));
    } else {
      assert Concat(chunks) + wire == chunks[0] + (Concat(chunks[1..]) + wire);
      IngestFuture(r, chunks[0], Concat(chunks[1..]) + wire);
      PollFuture(Ingest(r, chunks[0]), chunks[1..], cap, wire);
    }
  }

  lemma JoinEmpty(t: Trace)
    ensures Join(End([], 0), t) == t
  {
    assert [] + t.data == t.data;
  }

  lemma IngestValid(r: Reader, c: Bytes)
    requires Valid(r) && (r.hold == [] || r.blocks != [])
    ensures Valid(Ingest(r, c))
  {
    if r.blocks == [] {
      ScanValid(r.state, c);
      ScanStopsAtBlock(r.state, c);
      ScanPreface(r.state, c);
    }
  }

  /** Nothing is emitted or held back but bytes while the preface is still being matched. */
  lemma StepPreface(st: State, b: byte)
    ensures StepByte(st, b).state.Preface? ==> st.Preface? && BlocksOf(StepByte(st, b).events) == []
  {
  }

  lemma {:induction false} ScanPreface(st: State, s: Bytes)
    ensures Scan(st, s).state.Preface? ==> st.Preface? && BlocksOf(Scan(st, s).events) == [] && Scan(st, s).rest == []
    decreases |s|
  {
    if s != [] && !(st.Sync? && st.remaining <= 1) {
      var a := StepByte(st, s[0]);
      StepPreface(st, s[0]);
      ScanOn(st, s);
      hide StepByte, Scan, BlocksOf;
      ScanPreface(a.state, s[1..]);
      ProjectionsConcat(a.events, Scan(a.state, s[1..]).events);
    }
  }

  lemma {:induction false} PollValid(r: Reader, chunks: seq<Bytes>, cap: nat)
    requires Valid(r)
    ensures Valid(PollRead(r, chunks, cap).reader)
    decreases |chunks|, if r.blocks != [] then 0 else if r.hold == [] then 1 else 2
  {
    if r.out == [] && r.blocks == [] {
      if r.hold != [] {
        ScanHoldsOnlyBehindBlock(r.state, r.hold);
        IngestValid(r.(hold := []), r.hold);
        PollValid(Ingest(r.(hold := []), r.hold), chunks, cap);
      } else if chunks != [] && chunks[0] != [] {
        IngestValid(r, chunks[0]);
        PollValid(Ingest(r, chunks[0]), chunks[1..], cap);
      }
    }
  }

  /**
   The barrier: a pending poll leaves nothing scanned behind, and if it is an update that stopped
   it then the update is all there is to hand over before it is taken.
   */
  lemma {:induction false} PendingMeansDrained(r: Reader, chunks: seq<Bytes>, cap: nat)
    requires Valid(r)
    ensures var p := PollRead(r, chunks, cap);
            p.poll == Pending ==>
              p.reader.out == [] && (p.reader.blocks != [] || (p.reader.hold == [] && p.chunks == []))
    decreases |chunks|, if r.blocks != [] then 0 else if r.hold == [] then 1 else 2
  {
    if r.out == [] && r.blocks == [] {
      if r.hold != [] {
        ScanHoldsOnlyBehindBlock(r.state, r.hold);
        IngestValid(r.(hold := []), r.hold);
        PendingMeansDrained(Ingest(r.(hold := []), r.hold), chunks, cap);
      } else if chunks != [] && chunks[0] != [] {
        IngestValid(r, chunks[0]);
        PendingMeansDrained(Ingest(r, chunks[0]), chunks[1..], cap);
      }
    }
  }

  /**
   What each answer of a poll tells the codec, which takes an answer of no bytes for the end. Bytes are
   at least one, it is only told to wait for an update that is pending or for a socket that has nothing
   more, and it is only told that the stream is over once the socket says so and nothing is left.
   */
  lemma {:induction false} PollAnswers(r: Reader, chunks: seq<Bytes>, cap: nat)
    requires Valid(r)
    ensures var p := PollRead(r, chunks, cap);
            match p.poll
            case Ready(data) => |data| <= cap && (cap > 0 ==> data != [])
            case Pending => p.reader.out == [] && (p.reader.blocks != [] || (p.reader.hold == [] && p.chunks == []))
            case Eof => p.reader.out == [] && p.reader.blocks == [] && p.reader.hold == [] && p.chunks != [] && p.chunks[0] == []
            case Failed => false
    ensures r.out != [] ==> PollRead(r, chunks, cap).poll == Ready(if |r.out| <= cap then r.out else r.out[..cap])
    decreases |chunks|, if r.blocks != [] then 0 else if r.hold == [] then 1 else 2
  {
    hide Scan;
    if r.out != [] {
      assert r.out[..|r.out|] == r.out;
    } else if r.blocks == [] {
      if r.hold != [] {
        ScanHoldsOnlyBehindBlock(r.state, r.hold);
        IngestValid(r.(hold := []), r.hold);
        PollAnswers(Ingest(r.(hold := []), r.hold), chunks, cap);
      } else if chunks != [] && chunks[0] != [] {
        IngestValid(r, chunks[0]);
        PollAnswers(Ingest(r, chunks[0]), chunks[1..], cap);
      }
    }
  }

  /** A poll takes chunks off the front and no others. */
  lemma {:induction false} PollTakesChunks(r: Reader, chunks: seq<Bytes>, cap: nat)
    ensures var rest := PollRead(r, chunks, cap).chunks; |rest| <= |chunks| && rest == chunks[|chunks| - |rest|..]
    decreases |chunks|, if r.blocks != [] then 0 else if r.hold == [] then 1 else 2
  {
    hide Scan;
    if r.out == [] && r.blocks == [] {
      if r.hold != [] {
        ScanHoldsOnlyBehindBlock(r.state, r.hold);
        PollTakesChunks(Ingest(r.(hold := []), r.hold), chunks, cap);
      } else if chunks != [] && chunks[0] != [] {
        PollTakesChunks(Ingest(r, chunks[0]), chunks[1..], cap);
      }
    }
  }

  /** A poll that brings nothing leaves nothing scanned behind. */
  lemma {:induction false} PollEndsDrained(r: Reader, chunks: seq<Bytes>, cap: nat)
    ensures !PollRead(r, chunks, cap).poll.Ready? ==> PollRead(r, chunks, cap).reader.out == []
    decreases |chunks|, if r.blocks != [] then 0 else if r.hold == [] then 1 else 2
  {
    if r.out == [] && r.blocks == [] {
      if r.hold != [] {
        ScanHoldsOnlyBehindBlock(r.state, r.hold);
        PollEndsDrained(Ingest(r.(hold := []), r.hold), chunks, cap);
      } else if chunks != [] && chunks[0] != [] {
        PollEndsDrained(Ingest(r, chunks[0]), chunks[1..], cap);
      }
    }
  }

  // ---- the bytes a reader can still hand over are bounded by the bytes it was given ----

  function Buffered(st: State): nat {
    if st.Header? then |st.buf| else 0
  }

  function Backlog(r: Reader, chunks: seq<Bytes>): nat {
    |r.out| + Buffered(r.state) + |r.hold| + |Concat(chunks)|
  }

  lemma StepBuffered(st: State, b: byte)
    ensures |OutOf(StepByte(st, b).events)| + Buffered(StepByte(st, b).state) <= Buffered(st) + 1
  {
    var buf := if st.Header? then st.buf else [];
    OutsHaveNoBlock(buf + [b]);
    if st.Sync? && st.remaining == 0 {
      ProjectionsConcat([Block(st.block)], HeaderByte([], b).events);
      assert OutOf([Block(st.block)]) == [];
    }
  }

  lemma {:induction false} ScanBuffered(st: State, s: Bytes)
    ensures var x := Scan(st, s);
            |OutOf(x.events)| + Buffered(x.state) + |x.rest| <= Buffered(st) + |s|
    decreases |s|
  {
    hide StepByte;
    if s != [] {
      StepBuffered(st, s[0]);
      var a := StepByte(st, s[0]);
      if st.Sync? && st.remaining == 0 {
        assert [Block(st.block)][1..] == [] && OutOf([Block(st.block)][1..]) == [];
      } else if !(st.Sync? && st.remaining == 1) {
        ScanBuffered(a.state, s[1..]);
        ProjectionsConcat(a.events, Scan(a.state, s[1..]).events);
      }
    }
  }

  lemma IngestBacklog(r: Reader, c: Bytes, chunks: seq<Bytes>)
    requires r.hold == [] || r.blocks != []
    ensures Backlog(Ingest(r, c), chunks) <= Backlog(r, [c] + chunks)
  {
    assert ([c] + chunks)[1..] == chunks;
    if r.blocks == [] {
      ScanBuffered(r.state, c);
    }
  }

  /** A poll that makes progress leaves less to hand over, so a reader of a buffer of any size ends up pending. */
  lemma {:induction false} PollBacklog(r: Reader, chunks: seq<Bytes>, cap: nat)
    requires cap > 0
    ensures var p := PollRead(r, chunks, cap);
            Backlog(p.reader, p.chunks) <= Backlog(r, chunks) - (if p.poll.Ready? then 1 else 0)
    decreases |chunks|, if r.blocks != [] then 0 else if r.hold == [] then 1 else 2
  {
    hide Backlog, Scan;
    if r.out != [] {
      assert Backlog(r.(out := r.out[Min(|r.out|, cap)..]), chunks) < Backlog(r, chunks) by { PollDelivers(r, chunks, cap); }
    } else if r.blocks == [] {
      if r.hold != [] {
        ScanHoldsOnlyBehindBlock(r.state, r.hold);
        RescanBacklog(r, chunks);
        PollBacklog(Ingest(r.(hold := []), r.hold), chunks, cap);
      } else if chunks != [] && chunks[0] != [] {
        assert chunks == [chunks[0]] + chunks[1..];
        IngestBacklog(r, chunks[0], chunks[1..]);
        PollBacklog(Ingest(r, chunks[0]), chunks[1..], cap);
      }
    }
  }

  lemma PollDelivers(r: Reader, chunks: seq<Bytes>, cap: nat)
    requires cap > 0 && r.out != []
    ensures Backlog(r.(out := r.out[Min(|r.out|, cap)..]), chunks) < Backlog(r, chunks)
  {
  }

  lemma RescanBacklog(r: Reader, chunks: seq<Bytes>)
    requires r.blocks == []
    ensures Backlog(Ingest(r.(hold := []), r.hold), chunks) <= Backlog(r, chunks)
  {
    IngestBacklog(r.(hold := []), r.hold, chunks);
    assert ([r.hold] + chunks)[1..] == chunks;
  }

  // ---- telling the two protocols apart ----

  /** A stream is followed as HTTP/2 only behind the whole preface; one that diverges is passed on untouched. */
  lemma PrefaceDecides(s: Bytes)
    ensures s < PREFACE ==> Run(Preface(0), s) == Stepped(Preface(|s|), Outs(s))
    ensures PREFACE <= s ==> !Run(Preface(0), s).state.Preface?
                             && Run(Preface(0), PREFACE) == Stepped(Header([]), Outs(PREFACE))
    ensures !(s < PREFACE) && !(PREFACE <= s) ==> Run(Preface(0), s) == Stepped(Blind, Outs(s))
  {
    hide Run, StepByte, Outs, Min;
    WholePreface();
    if s < PREFACE {
      FrontOf(PREFACE, s);
      RunPreface(0, s);
    } else if PREFACE <= s {
      StaysDecided(s);
    } else {
      var n := Min(|s|, PREFACE_LEN);
      NeitherFront(PREFACE, s);
      RunBadPreface(0, s, n);
    }
  }

  lemma FrontOf(pre: Bytes, s: Bytes)
    requires s <= pre
    ensures s == pre[0..0 + |s|]
  {
  }

  lemma NeitherFront(pre: Bytes, s: Bytes)
    requires !(s < pre) && !(pre <= s)
    ensures var n := Min(|s|, |pre|); n <= |s| && n <= |pre| && s[..n] != pre[0..0 + n]
  {
    assert |s| <= |pre| ==> s[..|s|] == s;
  }

  lemma StaysDecided(s: Bytes)
    requires PREFACE <= s
    ensures !Run(Preface(0), s).state.Preface?
  {
    hide Run, StepByte, Outs;
    WholePreface();
    var rest := s[PREFACE_LEN..];
    assert s == PREFACE + rest;
    RunConcat(Preface(0), PREFACE, rest);
    NeverBackToPreface(Header([]), rest);
  }

  lemma WholePreface()
    ensures Run(Preface(0), PREFACE) == Stepped(Header([]), Outs(PREFACE))
  {
    hide Run, StepByte, Outs;
    assert PREFACE == PREFACE[0..0 + PREFACE_LEN];
    RunPreface(0, PREFACE);
  }

  lemma {:induction false} NeverBackToPreface(st: State, s: Bytes)
    requires !st.Preface?
    ensures !Run(st, s).state.Preface?
    decreases |s|
  {
    if s != [] {
      NeverBackToPreface(StepByte(st, s[0]).state, s[1..]);
    }
  }
}
