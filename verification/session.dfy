/**
 Whole runs of the user space side: what arrives, the polls of the codec and the drains of
 `serve_h2`, in any order and split in any way.
 */
module Session {
  import opened Wire
  import opened Scanning
  import opened Reading

  /** `seen` is everything the reader has handed over so far, in the order it did. */
  datatype Session = Session(reader: Reader, chunks: seq<Bytes>, seen: Trace)

  const START: Session := Session(INITIAL, [], End([], 0))

  /**
   Bytes arrive, the protocol is being found out, the codec polls, the handles are drained. A drain
   takes the spending off its handle first and the updates second, as `serve_h2` does.
   */
  datatype Move = Arrive(chunk: Bytes) | Look | Poll(cap: nat) | Drain

  function Updates(blocks: seq<Bytes>): Trace {
    View(Blocks(blocks))
  }

  function TakeFlow(s: Session): Session {
    s.(reader := s.reader.(sent := 0), seen := Join(s.seen, End([], s.reader.sent)))
  }

  function TakeSync(s: Session): Session {
    s.(reader := s.reader.(blocks := []), seen := Join(s.seen, Updates(s.reader.blocks)))
  }

  function Apply(s: Session, m: Move): Session {
    match m
    case Arrive(c) => s.(chunks := s.chunks + [c])
    case Poll(cap) =>
      var p := PollRead(s.reader, s.chunks, cap);
      Session(p.reader, p.chunks, if p.poll.Ready? then Join(s.seen, End(p.poll.data, 0)) else s.seen)
    case Look =>
      if s.reader.state.Preface? && s.chunks != [] && s.chunks[0] != []
      then Session(Ingest(s.reader, s.chunks[0]), s.chunks[1..], s.seen) else s
    case Drain => TakeSync(TakeFlow(s))
  }

  function ApplyAll(s: Session, ms: seq<Move>): Session
    decreases |ms|
  {
    if ms == [] then s else ApplyAll(Apply(s, ms[0]), ms[1..])
  }

  function Brought(m: Move): Bytes {
    if m.Arrive? then m.chunk else []
  }

  function Arrived(ms: seq<Move>): Bytes {
    if ms == [] then [] else Brought(ms[0]) + Arrived(ms[1..])
  }

  /** Nothing scanned is waiting ahead of an update. */
  predicate Level(s: Session) {
    s.reader.out == [] || s.reader.blocks == []
  }

  /** No drain takes an update ahead of what it arrived behind. */
  ghost predicate Ordered(s: Session, ms: seq<Move>)
    decreases |ms|
  {
    ms == [] || ((ms[0].Drain? ==> Level(s)) && Ordered(Apply(s, ms[0]), ms[1..]))
  }

  /** All there is to a session: what it handed over, and what it has yet to. */
  function Whole(s: Session, wire: Bytes): Trace {
    Join(s.seen, Future(s.reader, Concat(s.chunks) + wire))
  }

  // ---- moves that keep the order ----

  /**
   Why a drain starts with the spending and why it must not run ahead of the codec: taking an
   update keeps the order exactly if no byte and no report ahead of it is left behind.
   */
  lemma TakeKeepsOrder(s: Session, blk: Bytes, wire: Bytes)
    requires s.reader.blocks == [blk]
    ensures Join(Updates([blk]), Future(TakeSync(s).reader, wire)) == Future(s.reader, wire)
            <==> s.reader.out == [] && s.reader.sent == 0
  {
    hide Run;
    var r := s.reader;
    var ev := [Block(blk)];
    assert Blocks([blk]) == ev && ev[0] == Block(blk) && ev[1..] == [];
    assert View(ev[1..]) == End([], 0);
    assert Updates([blk]) == Update([], 0, blk, End([], 0));
    var rest := View(Run(r.state, r.hold + wire).events);
    assert Waiting(r) == Update(r.out, r.sent, blk, End([], 0)) by {
      assert r.out + [] == r.out;
    }
    JoinEmpty(rest);
    assert Future(r, wire) == Update(r.out, r.sent, blk, rest);
    var r' := r.(blocks := []);
    WaitingWithoutBlock(r');
    assert Future(r', wire) == Prepend(r.out, r.sent, rest);
    JoinEmpty(Future(r', wire));
    assert Join(Updates([blk]), Future(r', wire)) == Update([], 0, blk, Future(r', wire));
    if r.out == [] && r.sent == 0 {
      PrependNothing(rest);
    }
  }

  lemma TakeFlowWhole(s: Session, wire: Bytes)
    ensures Whole(TakeFlow(s), wire) == Whole(s, wire)
  {
    hide Run, View;
    var r, r' := s.reader, s.reader.(sent := 0);
    var w := Concat(s.chunks) + wire;
    var rest := View(Run(r.state, r.hold + w).events);
    assert Waiting(r) == Join(End([], r.sent), Waiting(r')) by {
      assert [] + r.out == r.out;
      PrependTwice([], r.sent, r.out, 0, View(Blocks(r.blocks)));
    }
    JoinAssociative(End([], r.sent), Waiting(r'), rest);
    JoinAssociative(s.seen, End([], r.sent), Future(r', w));
  }

  lemma TakeSyncWhole(s: Session, wire: Bytes)
    requires |s.reader.blocks| <= 1
    requires s.reader.blocks == [] || (s.reader.out == [] && s.reader.sent == 0)
    ensures Whole(TakeSync(s), wire) == Whole(s, wire)
  {
    hide Run;
    var w := Concat(s.chunks) + wire;
    if s.reader.blocks == [] {
      JoinNothing(s.seen);
    } else {
      TakeKeepsOrder(s, s.reader.blocks[0], w);
      JoinAssociative(s.seen, Updates(s.reader.blocks), Future(TakeSync(s).reader, w));
    }
  }

  lemma {:induction false} JoinNothing(t: Trace)
    ensures Join(t, End([], 0)) == t
  {
    match t
    case End(d, n) => assert d + [] == d;
    case Update(_, _, _, next) => JoinNothing(next);
  }

  // What a move other than a drain leaves the same, if `wire` is what is yet to arrive behind it.
  ghost predicate Same(s: Session, s': Session, brought: Bytes, wire: Bytes) {
    && Valid(s'.reader)
    && Whole(s', wire) == Whole(s, brought + wire)
    && EndState(s'.reader, Concat(s'.chunks) + wire) == EndState(s.reader, Concat(s.chunks) + (brought + wire))
  }

  lemma ArriveSame(s: Session, c: Bytes, wire: Bytes)
    requires Valid(s.reader)
    ensures Same(s, Apply(s, Arrive(c)), c, wire)
  {
    hide Run, View;
    ConcatConcat(s.chunks, [c]);
    assert Concat([c]) == c;
    assert Concat(s.chunks) + c + wire == Concat(s.chunks) + (c + wire);
  }

  lemma LookSame(s: Session, wire: Bytes)
    requires Valid(s.reader)
    ensures Same(s, Apply(s, Look), [], wire)
  {
    hide Run, View, Ingest;
    assert [] + wire == wire;
    if s.reader.state.Preface? && s.chunks != [] && s.chunks[0] != [] {
      var c, rest := s.chunks[0], Concat(s.chunks[1..]);
      assert Concat(s.chunks) == c + rest && c + rest + wire == c + (rest + wire);
      IngestFuture(s.reader, c, rest + wire);
      IngestValid(s.reader, c);
    }
  }

  lemma PollSame(s: Session, cap: nat, wire: Bytes)
    requires Valid(s.reader)
    ensures Same(s, Apply(s, Poll(cap)), [], wire)
  {
    hide Run, View, PollRead;
    assert [] + wire == wire;
    PollValid(s.reader, s.chunks, cap);
    PollFuture(s.reader, s.chunks, cap, wire);
    var p := PollRead(s.reader, s.chunks, cap);
    var rest := Future(p.reader, Concat(p.chunks) + wire);
    if p.poll.Ready? {
      JoinAssociative(s.seen, End(p.poll.data, 0), rest);
    } else {
      JoinEmpty(rest);
    }
  }

  /**
   No move loses, invents or doubles anything, drains at any time included. All of them keep the order
   too, unless it is a drain that takes an update while something scanned is waiting ahead of it.
   */
  lemma MoveSame(s: Session, m: Move, wire: Bytes)
    requires Valid(s.reader)
    ensures var s', w := Apply(s, m), Brought(m) + wire;
            && Valid(s'.reader)
            && EndState(s'.reader, Concat(s'.chunks) + wire) == EndState(s.reader, Concat(s.chunks) + w)
            && SameTotals(Whole(s', wire), Whole(s, w))
            && (!m.Drain? || Level(s) ==> Whole(s', wire) == Whole(s, w))
  {
    hide Run, View, Whole, DataOf, UpdatesOf, SentOf, PollRead, Ingest, Concat;
    match m
    case Arrive(c) => ArriveSame(s, c, wire);
    case Look => LookSame(s, wire);
    case Poll(cap) => PollSame(s, cap, wire);
    case Drain =>
      assert [] + wire == wire;
      TakeFlowWhole(s, wire);
      TakeSyncTotals(TakeFlow(s), wire);
      if Level(s) {
        TakeSyncWhole(TakeFlow(s), wire);
      }
  }

  lemma {:induction false} RunSame(s: Session, ms: seq<Move>, wire: Bytes)
    requires Valid(s.reader) && Ordered(s, ms)
    ensures Valid(ApplyAll(s, ms).reader)
    ensures Whole(ApplyAll(s, ms), wire) == Whole(s, Arrived(ms) + wire)
    decreases |ms|
  {
    hide Run, View, Apply, Whole, EndState, Concat, Reading.Valid, Brought, SameTotals;
    if ms == [] {
      assert [] + wire == wire;
    } else {
      MoveSame(s, ms[0], Arrived(ms[1..]) + wire);
      RunSame(Apply(s, ms[0]), ms[1..], wire);
      assert Arrived(ms) + wire == Brought(ms[0]) + (Arrived(ms[1..]) + wire);
    }
  }

  lemma OrderedInOrder(ms: seq<Move>)
    requires Ordered(START, ms)
    ensures var s := ApplyAll(START, ms);
            Join(s.seen, Future(s.reader, Concat(s.chunks))) == View(Run(Preface(0), Arrived(ms)).events)
  {
    hide Run, View, Apply;
    RunSame(START, ms, []);
    var s := ApplyAll(START, ms);
    assert Concat(s.chunks) + [] == Concat(s.chunks) && Arrived(ms) + [] == Arrived(ms);
    StartFuture(Arrived(ms));
  }

  lemma StartFuture(input: Bytes)
    ensures Whole(START, input) == View(Run(Preface(0), input).events)
  {
    assert Concat(START.chunks) + input == input && INITIAL.hold + input == input;
    WaitingWithoutBlock(INITIAL);
    var t := View(Run(Preface(0), input).events);
    JoinEmpty(t);
  }

  // ---- drains at any time ----

  function DataOf(t: Trace): Bytes {
    t.data + if t.Update? then DataOf(t.next) else []
  }

  function UpdatesOf(t: Trace): seq<Bytes> {
    if t.Update? then [t.block] + UpdatesOf(t.next) else []
  }

  function SentOf(t: Trace): u32 {
    if t.Update? then Add32(t.sent, SentOf(t.next)) else t.sent
  }

  lemma {:induction false} DataJoin(a: Trace, b: Trace)
    ensures DataOf(Join(a, b)) == DataOf(a) + DataOf(b)
  {
    hide Add32;
    match a
    case End(d, _) =>
      var more := if b.Update? then DataOf(b.next) else [];
      assert d + b.data + more == d + [] + (b.data + more);
    case Update(d, _, _, next) => DataJoin(next, b);
  }

  lemma {:induction false} UpdatesJoin(a: Trace, b: Trace)
    ensures UpdatesOf(Join(a, b)) == UpdatesOf(a) + UpdatesOf(b)
  {
    hide Add32;
    if a.Update? {
      UpdatesJoin(a.next, b);
    } else {
      var none: seq<Bytes> := [];
      assert none + UpdatesOf(b) == UpdatesOf(b);
    }
  }

  lemma {:induction false} SentJoin(a: Trace, b: Trace)
    ensures SentOf(Join(a, b)) == Add32(SentOf(a), SentOf(b))
  {
    hide Add32;
    match a
    case End(_, n) =>
      if b.Update? {
        Add32Associative(n, b.sent, SentOf(b.next));
      }
    case Update(_, n, _, next) =>
      SentJoin(next, b);
      Add32Associative(n, SentOf(next), SentOf(b));
  }

  lemma TotalsJoin(a: Trace, b: Trace)
    ensures DataOf(Join(a, b)) == DataOf(a) + DataOf(b)
    ensures UpdatesOf(Join(a, b)) == UpdatesOf(a) + UpdatesOf(b)
    ensures SentOf(Join(a, b)) == Add32(SentOf(a), SentOf(b))
  {
    DataJoin(a, b);
    UpdatesJoin(a, b);
    SentJoin(a, b);
  }

  lemma {:induction false} TotalsView(ev: seq<Event>)
    ensures DataOf(View(ev)) == OutOf(ev) && UpdatesOf(View(ev)) == BlocksOf(ev) && SentOf(View(ev)) == Sum(ev) % U32
  {
    hide DataOf, UpdatesOf, SentOf, Prepend, Add32, View, OutOf, BlocksOf, Sum;
    if ev == [] {
      ViewNothing();
    } else {
      TotalsView(ev[1..]);
      ViewHead(ev);
      match ev[0]
      case Out(b) =>
        TotalsPrepend([b], 0, View(ev[1..]));
        AddSum(0, Sum(ev[1..]));
      case Report(n) =>
        TotalsPrepend([], n, View(ev[1..]));
        AddSum(n, Sum(ev[1..]));
      case Block(blk) => TotalsUpdate(blk, View(ev[1..]));
    }
  }

  lemma ViewNothing()
    ensures View([]) == End([], 0) && DataOf(View([])) == OutOf([]) && UpdatesOf(View([])) == BlocksOf([]) && SentOf(View([])) == 0 == Sum([])
  {
  }

  lemma ViewHead(ev: seq<Event>)
    requires ev != []
    ensures var rest := ev[1..];
            match ev[0]
            case Out(b) =>
              View(ev) == Prepend([b], 0, View(rest)) && OutOf(ev) == [b] + OutOf(rest) && BlocksOf(ev) == BlocksOf(rest) && Sum(ev) == Sum(rest)
            case Report(n) =>
              View(ev) == Prepend([], n, View(rest)) && OutOf(ev) == [] + OutOf(rest) && BlocksOf(ev) == BlocksOf(rest) && Sum(ev) == n + Sum(rest)
            case Block(blk) =>
              View(ev) == Update([], 0, blk, View(rest)) && OutOf(ev) == OutOf(rest) && BlocksOf(ev) == [blk] + BlocksOf(rest) && Sum(ev) == Sum(rest)
  {
    hide Prepend;
  }

  lemma TotalsPrepend(d: Bytes, n: u32, t: Trace)
    ensures var p := Prepend(d, n, t);
            DataOf(p) == d + DataOf(t) && UpdatesOf(p) == UpdatesOf(t) && SentOf(p) == Add32(n, SentOf(t))
  {
    TotalsJoin(End(d, n), t);
    assert d + [] == d;
    var none: seq<Bytes> := [];
    assert none + UpdatesOf(t) == UpdatesOf(t);
  }

  lemma TotalsUpdate(blk: Bytes, t: Trace)
    ensures var u := Update([], 0, blk, t);
            DataOf(u) == DataOf(t) && UpdatesOf(u) == [blk] + UpdatesOf(t) && SentOf(u) == SentOf(t)
  {
    var none: Bytes := [];
    assert none + DataOf(t) == DataOf(t);
  }

  /** What a session amounts to once the order between bytes and updates is forgotten. */
  ghost predicate SameTotals(a: Trace, b: Trace) {
    DataOf(a) == DataOf(b) && UpdatesOf(a) == UpdatesOf(b) && SentOf(a) == SentOf(b)
  }

  lemma TakeSyncTotals(s: Session, wire: Bytes)
    ensures SameTotals(Whole(TakeSync(s), wire), Whole(s, wire))
  {
    hide Run, View, Join, Add32, DataOf, UpdatesOf, SentOf;
    var r, r', w := s.reader, TakeSync(s).reader, Concat(s.chunks) + wire;
    var rest, up, head := View(Run(r.state, r.hold + w).events), Updates(r.blocks), End(r.out, r.sent);
    WaitingWithoutBlock(r');
    assert Future(r, w) == Join(Join(head, up), rest) && Future(r', w) == Join(head, rest);
    MoveUpdateAhead(s.seen, head, r.blocks, rest);
  }

  lemma MoveUpdateAhead(seen: Trace, head: Trace, bs: seq<Bytes>, rest: Trace)
    requires head.End?
    ensures SameTotals(Join(Join(seen, Updates(bs)), Join(head, rest)), Join(seen, Join(Join(head, Updates(bs)), rest)))
  {
    hide Join, View, DataOf, UpdatesOf, SentOf;
    var up := Updates(bs);
    TotalsView(Blocks(bs));
    BlocksAreBlocks(bs);
    TotalsJoin(head, up);
    TotalsJoin(Join(head, up), rest);
    TotalsJoin(head, rest);
    TotalsJoin(seen, up);
    TotalsJoin(Join(seen, up), Join(head, rest));
    TotalsJoin(seen, Join(Join(head, up), rest));
    assert DataOf(up) == [] && UpdatesOf(up) == bs && SentOf(up) == 0;
    calc {
      DataOf(seen) + [] + (DataOf(head) + DataOf(rest));
      DataOf(seen) + (DataOf(head) + [] + DataOf(rest));
    }
    NoUpdates(head);
    calc {
      UpdatesOf(seen) + bs + ([] + UpdatesOf(rest));
      UpdatesOf(seen) + ([] + bs + UpdatesOf(rest));
    }
    assert Add32(SentOf(seen), 0) == SentOf(seen) && Add32(SentOf(head), 0) == SentOf(head);
  }

  lemma NoUpdates(t: Trace)
    requires t.End?
    ensures UpdatesOf(t) == []
  {
  }

  lemma {:induction false} BlocksAreBlocks(bs: seq<Bytes>)
    ensures OutOf(Blocks(bs)) == [] && BlocksOf(Blocks(bs)) == bs && Sum(Blocks(bs)) == 0
  {
    if bs != [] {
      assert Blocks(bs)[1..] == Blocks(bs[1..]);
      BlocksAreBlocks(bs[1..]);
    }
  }

  lemma {:induction false} RunTotals(s: Session, ms: seq<Move>, wire: Bytes)
    requires Valid(s.reader)
    ensures var s' := ApplyAll(s, ms);
            && Valid(s'.reader)
            && SameTotals(Whole(s', wire), Whole(s, Arrived(ms) + wire))
            && EndState(s'.reader, Concat(s'.chunks) + wire) == EndState(s.reader, Concat(s.chunks) + (Arrived(ms) + wire))
    decreases |ms|
  {
    hide Run, View, Whole, DataOf, UpdatesOf, SentOf, PollRead, Apply, EndState, Concat, Reading.Valid, Brought;
    if ms == [] {
      assert [] + wire == wire;
    } else {
      MoveSame(s, ms[0], Arrived(ms[1..]) + wire);
      RunTotals(Apply(s, ms[0]), ms[1..], wire);
      assert Arrived(ms) + wire == Brought(ms[0]) + (Arrived(ms[1..]) + wire);
    }
  }

  /** Nothing is left in the reader or the socket. */
  ghost predicate Quiet(s: Session) {
    s.reader.out == [] && s.reader.hold == [] && s.reader.blocks == [] && s.reader.sent == 0 && Concat(s.chunks) == []
  }

  /**
   The scanner refines the byte at a time machine on every stream, well formed or not: however it is
   split, however it is polled and whenever it is drained, the bytes passed on, the updates, the
   spending and the final state are those of the reference machine.
   */
  lemma SplitDoesNotMatter(ms: seq<Move>)
    ensures var s, all := ApplyAll(START, ms), Run(Preface(0), Arrived(ms));
            && SameTotals(Join(s.seen, Future(s.reader, Concat(s.chunks))), View(all.events))
            && (Quiet(s) ==>
                  && DataOf(s.seen) == OutOf(all.events)
                  && UpdatesOf(s.seen) == BlocksOf(all.events)
                  && SentOf(s.seen) == Sum(all.events) % U32
                  && s.reader.state == all.state)
  {
    RunTotals(START, ms, []);
    var s := ApplyAll(START, ms);
    assert Concat(s.chunks) + [] == Concat(s.chunks) && Arrived(ms) + [] == Arrived(ms);
    StartFuture(Arrived(ms));
    assert Concat(START.chunks) + Arrived(ms) == Arrived(ms) && INITIAL.hold + Arrived(ms) == Arrived(ms);
    TotalsView(Run(Preface(0), Arrived(ms)).events);
    if Quiet(s) {
      assert s.reader.hold + Concat(s.chunks) == [];
      WaitingWithoutBlock(s.reader);
      assert Future(s.reader, []) == End([], 0);
      JoinNothing(s.seen);
    }
  }

  // ---- the end of the stream ----

  /** The socket has not come to its end. */
  predicate Going(chunks: seq<Bytes>) {
    forall c :: c in chunks ==> c != []
  }

  lemma MoveGoes(s: Session, m: Move)
    requires Going(s.chunks) && (m.Arrive? ==> m.chunk != [])
    ensures Going(Apply(s, m).chunks)
  {
    hide PollRead, Ingest;
    match m
    case Arrive(_) =>
    case Look =>
      if s.chunks != [] {
        TailGoes(s.chunks, s.chunks[1..], 1);
      }
    case Poll(cap) =>
      PollTakesChunks(s.reader, s.chunks, cap);
      var rest := PollRead(s.reader, s.chunks, cap).chunks;
      TailGoes(s.chunks, rest, |s.chunks| - |rest|);
    case Drain =>
  }

  lemma TailGoes(chunks: seq<Bytes>, rest: seq<Bytes>, k: nat)
    requires Going(chunks) && k <= |chunks| && rest == chunks[k..]
    ensures Going(rest)
  {
    assert forall c :: c in rest ==> c in chunks;
  }

  lemma {:induction false} MovesGo(s: Session, ms: seq<Move>)
    requires Going(s.chunks) && forall m :: m in ms && m.Arrive? ==> m.chunk != []
    ensures Going(ApplyAll(s, ms).chunks)
    decreases |ms|
  {
    hide Apply, Going;
    if ms != [] {
      assert ms[0] in ms;
      MoveGoes(s, ms[0]);
      MovesGo(Apply(s, ms[0]), ms[1..]);
    }
  }

  /** As long as the client has not ended the stream no poll says so, whatever updates are waiting. */
  lemma NoFalseEnd(ms: seq<Move>, cap: nat)
    requires forall m :: m in ms && m.Arrive? ==> m.chunk != []
    ensures var s := ApplyAll(START, ms); PollRead(s.reader, s.chunks, cap).poll != Eof
  {
    hide PollRead, Apply, Run, View, Whole, DataOf, UpdatesOf, SentOf;
    var s := ApplyAll(START, ms);
    RunTotals(START, ms, []);
    MovesGo(START, ms);
    PollAnswers(s.reader, s.chunks, cap);
    MoveGoes(s, Poll(cap));
    var rest := Apply(s, Poll(cap)).chunks;
    assert rest == PollRead(s.reader, s.chunks, cap).chunks by { PollChunks(s, cap); }
    assert rest != [] ==> rest[0] in rest;
  }

  lemma PollChunks(s: Session, cap: nat)
    ensures Apply(s, Poll(cap)).chunks == PollRead(s.reader, s.chunks, cap).chunks
  {
  }

  // ---- the barrier ----

  /** The bytes ahead of the update number `k`. */
  function DataAhead(t: Trace, k: nat): Bytes {
    t.data + if k > 0 && t.Update? then DataAhead(t.next, k - 1) else []
  }

  lemma PrependAhead(d: Bytes, n: u32, t: Trace, j: nat)
    ensures DataAhead(Prepend(d, n, t), j) == d + DataAhead(t, j)
  {
    hide Add32;
  }

  /** The bytes ahead of the update number `j` of those to come, behind all that were handed over. */
  function AheadOf(s: Session, wire: Bytes, j: nat): Bytes {
    DataOf(s.seen) + DataAhead(Future(s.reader, Concat(s.chunks) + wire), j)
  }

  lemma {:induction false} DataJoinEnd(t: Trace, d: Bytes, n: u32)
    ensures DataOf(Join(t, End(d, n))) == DataOf(t) + d && UpdatesOf(Join(t, End(d, n))) == UpdatesOf(t)
  {
    hide Add32;
    TotalsJoin(t, End(d, n));
    assert d + [] == d && UpdatesOf(t) + [] == UpdatesOf(t);
  }

  lemma PendingAhead(r: Reader, blk: Bytes, rest: Trace)
    requires r.blocks == [blk]
    ensures Join(Waiting(r), rest) == Update(r.out, r.sent, blk, rest)
  {
    var ev := [Block(blk)];
    assert Blocks([blk]) == ev && ev[0] == Block(blk) && ev[1..] == [];
    assert View(ev[1..]) == End([], 0);
    assert r.out + [] == r.out;
    JoinEmpty(rest);
  }

  lemma TakeFlowAhead(s: Session, wire: Bytes, j: nat)
    ensures AheadOf(TakeFlow(s), wire, j) == AheadOf(s, wire, j)
    ensures UpdatesOf(TakeFlow(s).seen) == UpdatesOf(s.seen)
  {
    hide Run, View, DataOf, UpdatesOf;
    var r, r', w := s.reader, TakeFlow(s).reader, Concat(s.chunks) + wire;
    var rest, bs := View(Run(r.state, r.hold + w).events), View(Blocks(r.blocks));
    DataJoinEnd(s.seen, [], r.sent);
    assert DataOf(s.seen) + [] == DataOf(s.seen);
    JoinPrepend(r.out, r.sent, bs, rest);
    JoinPrepend(r'.out, 0, bs, rest);
    PrependAhead(r.out, r.sent, Join(bs, rest), j);
    PrependAhead(r.out, 0, Join(bs, rest), j);
  }

  // Taking an update, early or not, counts it as handed over and moves no byte across it.
  lemma TakeSyncAhead(s: Session, wire: Bytes, j: nat)
    requires |s.reader.blocks| <= 1
    ensures |UpdatesOf(TakeSync(s).seen)| == |UpdatesOf(s.seen)| + |s.reader.blocks|
    ensures AheadOf(TakeSync(s), wire, j) == AheadOf(s, wire, |s.reader.blocks| + j)
  {
    hide Run;
    var r, r', w := s.reader, TakeSync(s).reader, Concat(s.chunks) + wire;
    if r.blocks == [] {
      JoinNothing(s.seen);
    } else {
      var blk, rest := r.blocks[0], View(Run(r.state, r.hold + w).events);
      assert r.blocks == [blk];
      PendingAhead(r, blk, rest);
      WaitingWithoutBlock(r');
      PrependAhead(r.out, r.sent, rest, j);
      TakenTotals(s.seen, blk);
    }
  }

  lemma TakenTotals(t: Trace, blk: Bytes)
    ensures DataOf(Join(t, Updates([blk]))) == DataOf(t) && UpdatesOf(Join(t, Updates([blk]))) == UpdatesOf(t) + [blk]
  {
    TotalsView(Blocks([blk]));
    BlocksAreBlocks([blk]);
    TotalsJoin(t, Updates([blk]));
    assert DataOf(t) + [] == DataOf(t);
  }

  lemma PollAhead(s: Session, cap: nat, wire: Bytes, j: nat)
    requires Valid(s.reader)
    ensures var s' := Apply(s, Poll(cap)); UpdatesOf(s'.seen) == UpdatesOf(s.seen) && AheadOf(s', wire, j) == AheadOf(s, wire, j)
  {
    hide Run, View, PollRead, Future;
    PollFuture(s.reader, s.chunks, cap, wire);
    var p := PollRead(s.reader, s.chunks, cap);
    var rest := Future(p.reader, Concat(p.chunks) + wire);
    if p.poll.Ready? {
      DataJoinEnd(s.seen, p.poll.data, 0);
      PrependAhead(p.poll.data, 0, rest, j);
      assert DataOf(s.seen) + p.poll.data + DataAhead(rest, j) == DataOf(s.seen) + (p.poll.data + DataAhead(rest, j));
    } else {
      JoinEmpty(rest);
    }
  }

  lemma MoveAhead(s: Session, m: Move, wire: Bytes, j: nat)
    requires Valid(s.reader)
    ensures var s' := Apply(s, m);
            var taken := |UpdatesOf(s'.seen)| - |UpdatesOf(s.seen)|;
            taken >= 0 && AheadOf(s', wire, j) == AheadOf(s, Brought(m) + wire, taken + j)
  {
    hide Run, View, DataOf, UpdatesOf, PollRead, Ingest, Concat, DataAhead, Future, TakeSync, TakeFlow;
    match m
    case Arrive(c) =>
      hide Whole, EndState;
      ConcatConcat(s.chunks, [c]);
      assert Concat([c]) == c by { ConcatOne(c); }
      assert Concat(s.chunks) + c + wire == Concat(s.chunks) + (c + wire);
    case Look =>
      assert [] + wire == wire;
      LookFuture(s, wire);
    case Poll(cap) =>
      assert [] + wire == wire;
      PollAhead(s, cap, wire, j);
    case Drain =>
      assert [] + wire == wire;
      var t := TakeFlow(s);
      FlowLeavesBlocks(s);
      TakeSyncAhead(t, wire, j);
      TakeFlowAhead(s, wire, |s.reader.blocks| + j);
  }

  lemma ConcatOne(c: Bytes)
    ensures Concat([c]) == c
  {
  }

  lemma FlowLeavesBlocks(s: Session)
    ensures TakeFlow(s).reader.blocks == s.reader.blocks && TakeFlow(s).chunks == s.chunks
  {
  }

  lemma LookFuture(s: Session, wire: Bytes)
    requires Valid(s.reader)
    ensures var s' := Apply(s, Look);
            s'.seen == s.seen && Future(s'.reader, Concat(s'.chunks) + wire) == Future(s.reader, Concat(s.chunks) + wire)
  {
    hide Run, View, Ingest, Future;
    if s.reader.state.Preface? && s.chunks != [] && s.chunks[0] != [] {
      var c, rest := s.chunks[0], Concat(s.chunks[1..]);
      assert Concat(s.chunks) == c + rest && c + rest + wire == c + (rest + wire);
      IngestFuture(s.reader, c, rest + wire);
    }
  }

  lemma {:induction false} MovesAhead(s: Session, ms: seq<Move>, wire: Bytes, j: nat)
    requires Valid(s.reader)
    ensures var s' := ApplyAll(s, ms);
            var taken := |UpdatesOf(s'.seen)| - |UpdatesOf(s.seen)|;
            taken >= 0 && AheadOf(s', wire, j) == AheadOf(s, Arrived(ms) + wire, taken + j)
    decreases |ms|
  {
    hide Run, View, Apply, AheadOf, UpdatesOf, Brought, Reading.Valid;
    if ms == [] {
      assert [] + wire == wire;
    } else {
      var s1, later := Apply(s, ms[0]), Arrived(ms[1..]) + wire;
      MoveSame(s, ms[0], later);
      MovesAhead(s1, ms[1..], wire, j);
      MoveAhead(s, ms[0], later, |UpdatesOf(ApplyAll(s, ms).seen)| - |UpdatesOf(s1.seen)| + j);
      assert Arrived(ms) + wire == Brought(ms[0]) + later;
    }
  }

  /**
   The barrier, in every state a session gets to, drains at any time included. The update that is
   pending is the next one of the stream, and the bytes handed over or ready to be are exactly the
   ones ahead of it: none behind it gets out before it is taken, and none ahead of it is kept back.
   */
  lemma BarrierHolds(ms: seq<Move>)
    requires ApplyAll(START, ms).reader.blocks != []
    ensures var s, all := ApplyAll(START, ms), View(Run(Preface(0), Arrived(ms)).events);
            var k := |UpdatesOf(s.seen)|;
            && k < |UpdatesOf(all)| && s.reader.blocks == [UpdatesOf(all)[k]]
            && DataOf(s.seen) + s.reader.out == DataAhead(all, k)
  {
    hide Run, Apply, View, Future, DataAhead, DataOf, UpdatesOf, SentOf, Concat;
    var s, all := ApplyAll(START, ms), View(Run(Preface(0), Arrived(ms)).events);
    RunTotals(START, ms, []);
    NothingYet();
    MovesAhead(START, ms, [], 0);
    assert Arrived(ms) + [] == Arrived(ms) && Concat(s.chunks) + [] == Concat(s.chunks);
    StartFuture(Arrived(ms));
    TotalsJoin(s.seen, Future(s.reader, Concat(s.chunks)));
    StartAhead(Arrived(ms), |UpdatesOf(s.seen)|);
    assert s.reader.blocks == [s.reader.blocks[0]];
    NextIsPending(s.reader, s.reader.blocks[0], Concat(s.chunks));
  }

  lemma NothingYet()
    ensures DataOf(START.seen) == [] && UpdatesOf(START.seen) == []
  {
  }

  // What is yet to come from a reader that waits for `blk` to be taken.
  lemma NextIsPending(r: Reader, blk: Bytes, wire: Bytes)
    requires r.blocks == [blk]
    ensures var f := Future(r, wire);
            DataAhead(f, 0) == r.out && UpdatesOf(f) != [] && UpdatesOf(f)[0] == blk
  {
    hide Run, View;
    PendingAhead(r, blk, View(Run(r.state, r.hold + wire).events));
    assert r.out + [] == r.out;
  }

  lemma StartAhead(input: Bytes, k: nat)
    ensures AheadOf(START, input, k) == DataAhead(View(Run(Preface(0), input).events), k)
  {
    hide Run;
    StartFuture(input);
    var f := Future(INITIAL, Concat(START.chunks) + input);
    JoinEmpty(f);
    assert [] + DataAhead(f, k) == DataAhead(f, k);
  }

  // ---- what `serve_h2` does is in order ----

  /**
   One round of the connection loop: bytes arrive, the handles are drained, and the codec reads,
   while more may arrive, until its last poll brings nothing more.
   */
  datatype Round = Round(arrivals: seq<Move>, polls: seq<Move>, cap: nat)

  function Begun(r: Round): seq<Move> {
    r.arrivals + ([Drain] + r.polls)
  }

  function MovesOf(r: Round): seq<Move> {
    Begun(r) + [Poll(r.cap)]
  }

  ghost predicate Shaped(r: Round) {
    (forall m :: m in r.arrivals ==> m.Arrive?) && (forall m :: m in r.polls ==> !m.Drain?)
  }

  /** The codec has been told that there is nothing more for it. */
  ghost predicate Complete(s: Session, r: Round) {
    && Shaped(r)
    && var s' := ApplyAll(s, Begun(r)); !PollRead(s'.reader, s'.chunks, r.cap).poll.Ready?
  }

  function AllMoves(rs: seq<Round>): seq<Move> {
    if rs == [] then [] else MovesOf(rs[0]) + AllMoves(rs[1..])
  }

  ghost predicate AllComplete(s: Session, rs: seq<Round>)
    decreases |rs|
  {
    rs == [] || (Complete(s, rs[0]) && AllComplete(ApplyAll(s, MovesOf(rs[0])), rs[1..]))
  }

  /**
   The life of a connection so far: the protocol is found out and the handshake reads, then round
   follows round, and the last one may be under way.
   */
  datatype Life = Life(opening: seq<Move>, rounds: seq<Round>, last: Option<Round>)

  function Moves(life: Life): seq<Move> {
    life.opening + (AllMoves(life.rounds) + if life.last.Some? then Begun(life.last.value) else [])
  }

  /** Nothing is drained in the opening, and every round but the last is complete. */
  ghost predicate Lived(life: Life) {
    && (forall m :: m in life.opening ==> !m.Drain?)
    && AllComplete(ApplyAll(START, life.opening), life.rounds)
    && (life.last.Some? ==> Shaped(life.last.value))
  }

  lemma {:induction false} OrderedConcat(s: Session, a: seq<Move>, b: seq<Move>)
    ensures ApplyAll(s, a + b) == ApplyAll(ApplyAll(s, a), b)
    ensures Ordered(s, a) && Ordered(ApplyAll(s, a), b) ==> Ordered(s, a + b)
    decreases |a|
  {
    hide Apply, Level;
    if a == [] {
      assert a + b == b;
    } else {
      assert (a + b)[0] == a[0] && (a + b)[1..] == a[1..] + b;
      OrderedConcat(Apply(s, a[0]), a[1..], b);
    }
  }

  lemma {:induction false} WithoutDrainsOrdered(s: Session, ms: seq<Move>)
    requires forall m :: m in ms ==> !m.Drain?
    ensures Ordered(s, ms)
    decreases |ms|
  {
    hide Apply;
    if ms != [] {
      WithoutDrainsOrdered(Apply(s, ms[0]), ms[1..]);
    }
  }

  lemma {:induction false} ArrivalsLeaveReader(s: Session, ms: seq<Move>)
    requires forall m :: m in ms ==> m.Arrive?
    ensures ApplyAll(s, ms).reader == s.reader
    decreases |ms|
  {
    if ms != [] {
      ArrivalsLeaveReader(Apply(s, ms[0]), ms[1..]);
    }
  }

  lemma BegunOrdered(s: Session, r: Round)
    requires Level(s) && Shaped(r)
    ensures Ordered(s, Begun(r))
  {
    hide Apply;
    WithoutDrainsOrdered(s, r.arrivals);
    ArrivalsLeaveReader(s, r.arrivals);
    var s1 := ApplyAll(s, r.arrivals);
    assert ([Drain] + r.polls)[0] == Drain && ([Drain] + r.polls)[1..] == r.polls;
    WithoutDrainsOrdered(Apply(s1, Drain), r.polls);
    OrderedConcat(s, r.arrivals, [Drain] + r.polls);
  }

  /** A complete round is in order, and leaves nothing scanned that the next drain could overtake. */
  lemma RoundOrdered(s: Session, r: Round)
    requires Level(s) && Complete(s, r)
    ensures Ordered(s, MovesOf(r)) && ApplyAll(s, MovesOf(r)).reader.out == []
  {
    hide PollRead, Level;
    BegunOrdered(s, r);
    var s1, last := ApplyAll(s, Begun(r)), [Poll(r.cap)];
    assert last[0] == Poll(r.cap) && last[1..] == [];
    assert ApplyAll(s1, last) == ApplyAll(Apply(s1, Poll(r.cap)), []);
    OrderedConcat(s, Begun(r), last);
    PollEndsDrained(s1.reader, s1.chunks, r.cap);
    assert Ordered(Apply(s1, Poll(r.cap)), []);
  }

  lemma {:induction false} RoundsOrdered(s: Session, rs: seq<Round>)
    requires Level(s) && AllComplete(s, rs)
    ensures Ordered(s, AllMoves(rs)) && Level(ApplyAll(s, AllMoves(rs)))
    decreases |rs|
  {
    hide Complete, MovesOf, Ordered;
    if rs == [] {
      assert Ordered(s, []) by { WithoutDrainsOrdered(s, []); }
    } else {
      RoundOrdered(s, rs[0]);
      RoundsOrdered(ApplyAll(s, MovesOf(rs[0])), rs[1..]);
      OrderedConcat(s, MovesOf(rs[0]), AllMoves(rs[1..]));
    }
  }

  /** A connection whose opening leaves nothing ahead of an update never takes one early. */
  lemma LifeOrdered(life: Life)
    requires Lived(life) && Level(ApplyAll(START, life.opening))
    ensures Ordered(START, Moves(life))
  {
    hide Apply, Complete, Shaped, Begun, Level;
    var first := ApplyAll(START, life.opening);
    WithoutDrainsOrdered(START, life.opening);
    RoundsOrdered(first, life.rounds);
    var last := if life.last.Some? then Begun(life.last.value) else [];
    if life.last.Some? {
      BegunOrdered(ApplyAll(first, AllMoves(life.rounds)), life.last.value);
    }
    OrderedConcat(first, AllMoves(life.rounds), last);
    OrderedConcat(START, life.opening, AllMoves(life.rounds) + last);
  }

  /** An opening in which no update arrives lets none overtake anything. */
  lemma QuietOpening(opening: seq<Move>)
    requires BlocksOf(Run(Preface(0), Arrived(opening)).events) == []
    ensures Level(ApplyAll(START, opening))
  {
    hide Run, Apply;
    var s := ApplyAll(START, opening);
    if s.reader.blocks != [] {
      BarrierHolds(opening);
      TotalsView(Run(Preface(0), Arrived(opening)).events);
    }
  }

  /**
   Order, for every connection in whose opening no update arrives: what was handed over, followed by
   what is still to come, is what the reference machine makes of everything that arrived.
   */
  lemma HandsOverInOrder(life: Life)
    requires Lived(life) && BlocksOf(Run(Preface(0), Arrived(life.opening)).events) == []
    ensures var s := ApplyAll(START, Moves(life));
            Join(s.seen, Future(s.reader, Concat(s.chunks))) == View(Run(Preface(0), Arrived(Moves(life))).events)
  {
    hide Run, View, Apply;
    QuietOpening(life.opening);
    LifeOrdered(life);
    OrderedInOrder(Moves(life));
  }
}
