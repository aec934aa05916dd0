/** The stream wrapper of `listener.rs` and the connection loop of `server.rs` that drives it. */
module Listener {
  import opened Wire
  import opened Scanning
  import opened Reading
  import opened Session

  /** The updates waiting to be applied, shared between the stream and the connection loop. */
  class SyncHandle {
    var blocks: seq<Bytes>

    constructor ()
      ensures blocks == []
    {
      blocks := [];
    }

    method Take() returns (taken: seq<Bytes>)
      modifies this
      ensures taken == old(blocks) && blocks == []
    {
      taken := blocks;
      blocks := [];
    }

    predicate IsPending()
      reads this
    {
      blocks != []
    }

    method Push(block: Bytes)
      modifies this
      ensures blocks == old(blocks) + [block]
    {
      blocks := blocks + [block];
    }
  }

  /** The spending the codec has not been told of, an `AtomicU32` that wraps around. */
  class FlowHandle {
    var sent: u32

    constructor ()
      ensures sent == 0
    {
      sent := 0;
    }

    method Take() returns (taken: u32)
      modifies this
      ensures taken == old(sent) && sent == 0
    {
      taken := sent;
      sent := 0;
    }

    method Add(n: u32)
      modifies this
      ensures sent == Add32(old(sent), n)
    {
      sent := (sent + n) % U32;
    }
  }

  // What each part of the scanner's loop leaves of the whole scan: `p` is dealt with, `q` is next.

  lemma IngestNothing(r: Reader)
    ensures Ingest(r, []) == r
  {
    assert r.out + [] == r.out && r.hold + [] == r.hold;
  }

  lemma IngestAhead(r: Reader, p: Bytes, q: Bytes)
    requires r.blocks == [] && BlocksOf(Run(r.state, p).events) == []
    ensures var x := Run(r.state, p);
            Ingest(r, p + q) == Ingest(r.(state := x.state, out := r.out + OutOf(x.events),
                                          sent := (r.sent + Sum(x.events)) % U32), q)
  {
    hide Scan, Run, OutOf, Sum, BlocksOf;
    var x := Run(r.state, p);
    var y := Scan(x.state, q);
    ScanAhead(r.state, p, q);
    ProjectionsConcat(x.events, y.events);
    assert r.out + (OutOf(x.events) + OutOf(y.events)) == r.out + OutOf(x.events) + OutOf(y.events);
    ModAdd(Sum(y.events), r.sent + Sum(x.events));
    assert [] + BlocksOf(y.events) == BlocksOf(y.events);
  }

  lemma IngestPassed(r: Reader, p: Bytes, q: Bytes)
    requires r.blocks == [] && Run(r.state, p).events == Outs(p)
    ensures Ingest(r, p + q) == Ingest(r.(state := Run(r.state, p).state, out := r.out + p), q)
  {
    hide Scan, Run, Ingest;
    OutsHaveNoBlock(p);
    IngestAhead(r, p, q);
  }

  lemma IngestAll(r: Reader, p: Bytes)
    requires r.blocks == [] && Run(r.state, p) == Stepped(Blind, Outs(p))
    ensures Ingest(r, p) == r.(state := Blind, out := r.out + p)
  {
    IngestPassed(r, p, []);
    assert p + [] == p;
    IngestNothing(r.(state := Blind, out := r.out + p));
  }

  // A header is passed on as it is or dropped.
  lemma HeaderPasses(hdr: Bytes)
    requires |hdr| == FRAME_HEADER_LEN
    ensures var ev := OnHeader(hdr).events;
            BlocksOf(ev) == [] && Sum(ev) == 0 && OutOf(ev) == if ev == [] then [] else hdr
  {
    OutsHaveNoBlock(hdr);
  }

  lemma NoEvents()
    ensures OutOf([]) == [] && BlocksOf([]) == [] && Sum([]) == 0
  {
  }

  lemma IngestHeader(r: Reader, buf: Bytes, p: Bytes, q: Bytes)
    requires r.blocks == [] && r.state == Header(buf) && |buf| < FRAME_HEADER_LEN && |buf| + |p| <= FRAME_HEADER_LEN
    ensures var hdr := buf + p;
            var x := if |hdr| < FRAME_HEADER_LEN then Stepped(Header(hdr), []) else OnHeader(hdr);
            Ingest(r, p + q) == Ingest(r.(state := x.state, out := r.out + if x.events == [] then [] else hdr), q)
  {
    hide Scan, Run, Ingest, StepByte, OnHeader, OutOf, BlocksOf, Sum, Outs;
    RunHeader(buf, p);
    NoEvents();
    if |buf + p| == FRAME_HEADER_LEN {
      HeaderPasses(buf + p);
    }
    assert r.out + [] == r.out;
    IngestAhead(r, p, q);
  }

  // A payload of no bytes gives way to the next header without taking any input.
  lemma IngestEmptyPayload(r: Reader, q: Bytes)
    requires r.blocks == [] && r.state == Payload(0) && q != []
    ensures Ingest(r, q) == Ingest(r.(state := Header([])), q)
  {
    assert Scan(Payload(0), q) == Scan(Header([]), q);
  }

  lemma IngestFlow(r: Reader, body: Bytes, p: Bytes, q: Bytes)
    requires r.blocks == [] && r.state == Flow(body) && |body| < FC_BODY_LEN && |body| + |p| <= FC_BODY_LEN
    ensures var got := body + p;
            Ingest(r, p + q) ==
            Ingest(if |got| < FC_BODY_LEN then r.(state := Flow(got))
                   else r.(state := Header([]), sent := Add32(r.sent, Val32(got))), q)
  {
    hide Scan, Run, StepByte, Ingest;
    RunFlow(body, p);
    assert r.out + [] == r.out;
    var ev := Run(r.state, p).events;
    assert ev != [] ==> ev[1..] == [] && Sum(ev[1..]) == 0;
    IngestAhead(r, p, q);
  }

  lemma IngestWholeSync(r: Reader, block: Bytes, n: nat, p: Bytes, q: Bytes)
    requires r.blocks == [] && r.state == Sync(block, n) && |p| == n && |block| + n <= MAX_SYNC_FRAME && p + q != []
    ensures Ingest(r, p + q) == r.(state := Header([]), hold := r.hold + q, blocks := [block + p])
  {
    hide Scan, OutOf, BlocksOf, Sum;
    ScanSync(block, n, p, q);
    OneBlock(block + p);
    assert r.out + [] == r.out;
  }

  lemma IngestSync(r: Reader, block: Bytes, n: nat, p: Bytes, q: Bytes)
    requires r.blocks == [] && r.state == Sync(block, n) && |p| <= n && |block| + n <= MAX_SYNC_FRAME && p + q != []
    ensures Ingest(r, p + q) ==
            if |p| == n then r.(state := Header([]), hold := r.hold + q, blocks := [block + p])
            else Ingest(r.(state := Sync(block + p, n - |p|)), q)
  {
    hide Scan, Run, StepByte;
    assert r.out + [] == r.out;
    if |p| == n {
      IngestWholeSync(r, block, n, p, q);
    } else {
      hide Ingest;
      RunSync(block, n, p);
      IngestAhead(r, p, q);
    }
  }

  class Scanner {
    var state: State
    var out: Bytes
    var hold: Bytes
    const sync: SyncHandle
    const flow: FlowHandle

    constructor (sync: SyncHandle, flow: FlowHandle)
      requires sync.blocks == [] && flow.sent == 0
      ensures View() == INITIAL && this.sync == sync && this.flow == flow
    {
      state, out, hold := Preface(0), [], [];
      this.sync, this.flow := sync, flow;
    }

    function View(): Reader
      reads this, sync, flow
    {
      Reader(state, out, hold, sync.blocks, flow.sent)
    }

    // One turn of the scanner's loop, by the state it is in: takes care of the front of `rest` and
    // returns what is left to scan. The arms that end the scan leave nothing.

    ghost predicate Scanning()
      reads this, sync
    {
      state.Valid() && sync.blocks == []
    }

    twostate predicate Advanced(rest: Bytes, rest': Bytes)
      reads this, sync, flow
    {
      && Ingest(View(), rest') == Ingest(old(View()), rest)
      && state.Valid() && (rest' != [] ==> sync.blocks == [])
      && (|rest'| < |rest| || (rest' == rest && old(state) == Payload(0) && state == Header([])))
    }

    method ScanBlind(rest: Bytes) returns (rest': Bytes)
      requires Scanning() && rest != [] && state == Blind
      modifies this
      ensures Advanced(rest, rest')
    {
      RunBlind(rest);
      IngestAll(View(), rest);
      out, rest' := out + rest, [];
      IngestNothing(View());
    }

    method ScanPreface(rest: Bytes) returns (rest': Bytes)
      requires Scanning() && rest != [] && state.Preface?
      modifies this
      ensures Advanced(rest, rest')
    {
      hide Ingest, Run;
      var matched := state.matched;
      var n := Min(PREFACE_LEN - matched, |rest|);
      if rest[..n] != PREFACE[matched..matched + n] {
        RunBadPreface(matched, rest, n);
        IngestAll(View(), rest);
        out, state, rest' := out + rest, Blind, [];
        IngestNothing(View());
      } else {
        assert rest == rest[..n] + rest[n..];
        RunPreface(matched, rest[..n]);
        IngestPassed(View(), rest[..n], rest[n..]);
        out, rest' := out + rest[..n], rest[n..];
        state := if matched + n == PREFACE_LEN then Header([]) else Preface(matched + n);
      }
    }

    method ScanHeader(rest: Bytes) returns (rest': Bytes)
      requires Scanning() && rest != [] && state.Header?
      modifies this
      ensures Advanced(rest, rest')
    {
      hide Ingest;
      var n := Min(FRAME_HEADER_LEN - |state.buf|, |rest|);
      var hdr := state.buf + rest[..n];
      assert rest == rest[..n] + rest[n..] && out + [] == out;
      IngestHeader(View(), state.buf, rest[..n], rest[n..]);
      rest' := rest[n..];
      if |hdr| < FRAME_HEADER_LEN {
        state := Header(hdr);
        return;
      }
      var len := LenAt(hdr);
      var kind := hdr[3];
      if kind == FC_SYNC {
        if len != FC_BODY_LEN {
          state := Blind;
        } else {
          state := Flow([]);
        }
      } else if kind != DT_SYNC {
        out := out + hdr;
        state := Payload(len);
      } else if len > MAX_SYNC_FRAME {
        state := Blind;
      } else {
        state := Sync([], len);
      }
    }

    method ScanPayload(rest: Bytes) returns (rest': Bytes)
      requires Scanning() && rest != [] && state.Payload?
      modifies this
      ensures Advanced(rest, rest')
    {
      hide Ingest, Run;
      var remaining := state.remaining;
      var n := Min(remaining, |rest|);
      assert rest == rest[..n] + rest[n..];
      if remaining == 0 {
        assert out + rest[..n] == out;
        IngestEmptyPayload(View(), rest);
      } else {
        RunPayload(remaining, rest[..n]);
        IngestPassed(View(), rest[..n], rest[n..]);
      }
      out, rest' := out + rest[..n], rest[n..];
      state := if remaining == n then Header([]) else Payload(remaining - n);
    }

    method ScanFlow(rest: Bytes) returns (rest': Bytes)
      requires Scanning() && rest != [] && state.Flow?
      modifies this, flow
      ensures Advanced(rest, rest')
    {
      hide Ingest;
      var n := Min(FC_BODY_LEN - |state.body|, |rest|);
      var got := state.body + rest[..n];
      assert rest == rest[..n] + rest[n..];
      IngestFlow(View(), state.body, rest[..n], rest[n..]);
      rest' := rest[n..];
      if |got| == FC_BODY_LEN {
        flow.Add(Val32(got));
        state := Header([]);
      } else {
        state := Flow(got);
      }
    }

    method ScanSyncBody(rest: Bytes) returns (rest': Bytes)
      requires Scanning() && rest != [] && state.Sync?
      modifies this, sync
      ensures Advanced(rest, rest')
    {
      hide Ingest;
      var block, remaining := state.block, state.remaining;
      var n := Min(remaining, |rest|);
      assert rest == rest[..n] + rest[n..];
      IngestSync(View(), block, remaining, rest[..n], rest[n..]);
      if remaining == n {
        sync.Push(block + rest[..n]);
        hold := hold + rest[n..];
        state, rest' := Header([]), [];
        IngestNothing(View());
      } else {
        state, rest' := Sync(block + rest[..n], remaining - n), rest[n..];
      }
    }

    method Scan(input: Bytes)
      requires Valid(View())
      modifies this, sync, flow
      ensures View() == Ingest(old(View()), input)
    {
      if sync.IsPending() {
        hold := hold + input;
        return;
      }
      hide Ingest;
      var rest := input;
      while rest != []
        invariant state.Valid() && (rest != [] ==> sync.blocks == [])
        invariant Ingest(View(), rest) == Ingest(old(View()), input)
        decreases |rest|, state == Payload(0)
      {
        match state
        case Blind => rest := ScanBlind(rest);
        case Preface(_) => rest := ScanPreface(rest);
        case Header(_) => rest := ScanHeader(rest);
        case Payload(_) => rest := ScanPayload(rest);
        case Flow(_) => rest := ScanFlow(rest);
        case Sync(_, _) => rest := ScanSyncBody(rest);
      }
      IngestNothing(View());
    }
  }

  /** A socket, as the reads it has data for. A read of no bytes is the end of the stream. */
  class Socket {
    var chunks: seq<Bytes>

    // whether a read has failed
    var broken: bool

    method Arrive(arriving: seq<Bytes>)
      modifies this`chunks
      ensures chunks == old(chunks) + arriving
    {
      chunks := chunks + arriving;
    }

    method Read() returns (p: Poll)
      modifies this
      ensures broken == (old(broken) || p.Failed?)
      ensures !p.Failed? ==>
                p == if old(chunks) == [] then Pending else if old(chunks)[0] == [] then Eof else Ready(old(chunks)[0])
      ensures chunks == if p.Ready? then old(chunks)[1..] else old(chunks)
    {
      var fails: bool := *;
      if fails {
        p, broken := Failed, true;
      } else if chunks == [] {
        p := Pending;
      } else if chunks[0] == [] {
        p := Eof;
      } else {
        p := Ready(chunks[0]);
        chunks := chunks[1..];
      }
    }
  }

  datatype Protocol = Http1 | Http2

  class BeeperStream {
    const inner: Socket
    const scanner: Scanner

    // whether a poll has asked to be called again
    var woken: bool

    constructor (inner: Socket)
      ensures this.inner == inner && scanner.View() == INITIAL
      ensures fresh(scanner) && fresh(scanner.sync) && fresh(scanner.flow)
    {
      var sync := new SyncHandle();
      var flow := new FlowHandle();
      this.inner, woken := inner, false;
      scanner := new Scanner(sync, flow);
    }

    ghost predicate Good()
      reads scanner, scanner.sync, scanner.flow
    {
      Valid(scanner.View())
    }

    /** Moves as much of the scanned output as fits into a buffer with `cap` bytes left. */
    method DrainInto(cap: nat) returns (data: Bytes)
      modifies scanner
      ensures data == old(scanner.out)[..Min(|old(scanner.out)|, cap)]
      ensures scanner.View() == old(scanner.View()).(out := old(scanner.out)[|data|..])
    {
      var n := Min(|scanner.out|, cap);
      data := scanner.out[..n];
      scanner.out := scanner.out[n..];
    }

    /**
     `poll_read`. If the socket fails that is passed on, and nothing is lost: `wire` is whatever was
     still to arrive. A poll that waits for an update to be taken asks to be called again, as nothing
     else would.
     */
    method PollRead(cap: nat, ghost wire: Bytes) returns (p: Poll)
      requires Good()
      modifies this, inner, scanner, scanner.sync, scanner.flow
      ensures Good()
      ensures inner.broken == (old(inner.broken) || p.Failed?)
      ensures match p
              case Ready(data) => |data| <= cap && (cap > 0 ==> data != [])
              case Pending => scanner.out == [] && if scanner.sync.blocks != [] then woken else scanner.hold == [] && inner.chunks == []
              case Eof => scanner.out == [] && scanner.sync.blocks == [] && scanner.hold == [] && inner.chunks != [] && inner.chunks[0] == []
              case Failed => scanner.out == [] && scanner.sync.blocks == [] && scanner.hold == []
      ensures old(scanner.out) != [] ==> p == Ready(if |old(scanner.out)| <= cap then old(scanner.out) else old(scanner.out)[..cap])
      ensures !p.Failed? ==>
                Polled(scanner.View(), inner.chunks, p) == Reading.PollRead(old(scanner.View()), old(inner.chunks), cap)
      ensures p.Failed? ==>
                Future(scanner.View(), Concat(inner.chunks) + wire)
                   == Future(old(scanner.View()), Concat(old(inner.chunks)) + wire)
    {
      hide Scan, Future, Ingest;
      PollAnswers(scanner.View(), inner.chunks, cap);
      while true
        invariant Good()
        invariant Reading.PollRead(scanner.View(), inner.chunks, cap)
               == Reading.PollRead(old(scanner.View()), old(inner.chunks), cap)
        invariant Future(scanner.View(), Concat(inner.chunks) + wire)
               == Future(old(scanner.View()), Concat(old(inner.chunks)) + wire)
        invariant old(scanner.out) != [] ==> scanner.out == old(scanner.out)
        invariant inner.broken == old(inner.broken)
        decreases |inner.chunks|, if scanner.sync.blocks != [] then 0 else if scanner.hold == [] then 1 else 2
      {
        if scanner.out != [] {
          var data := DrainInto(cap);
          return Ready(data);
        }
        if scanner.sync.IsPending() {
          woken := true;
          return Pending;
        }
        if scanner.hold != [] {
          var held := scanner.hold;
          RescanFuture(scanner.View(), Concat(inner.chunks) + wire);
          RescanHoldsLess(scanner.View());
          scanner.hold := [];
          IngestValid(scanner.View(), held);
          scanner.Scan(held);
          continue;
        }
        ghost var r, chunks := scanner.View(), inner.chunks;
        var read := inner.Read();
        if !read.Ready? {
          return read;
        }
        ReadFuture(r, chunks, wire);
        IngestValid(r, read.data);
        scanner.Scan(read.data);
      }
    }

    /**
     `protocol`: reads until the protocol is known, or gives up if the socket has nothing more or
     fails. What is read is kept: all that happened are looks at what arrived, which change nothing
     about what the stream will hand over.
     */
    method Protocol(ghost seen: Trace, ghost wire: Bytes) returns (p: Option<Protocol>, ghost looks: seq<Move>)
      requires Good()
      modifies inner, scanner, scanner.sync, scanner.flow
      ensures Good()
      ensures (forall m :: m in looks ==> m == Look)
      ensures Session(scanner.View(), inner.chunks, seen) == ApplyAll(old(Session(scanner.View(), inner.chunks, seen)), looks)
      ensures Future(scanner.View(), Concat(inner.chunks) + wire)
           == Future(old(scanner.View()), Concat(old(inner.chunks)) + wire)
      ensures p == Some(Http2) <==> !scanner.state.Preface? && scanner.state != Blind
      ensures scanner.state == Blind ==> p == Some(Http1)
      ensures p == Some(Http1) && scanner.state != Blind ==> inner.chunks != [] && inner.chunks[0] == []
      ensures p == None ==> scanner.state.Preface? && (inner.broken || inner.chunks == [])
      ensures p != Some(Http2) && scanner.state != Blind ==>
                scanner.state.Preface? && (inner.broken || inner.chunks == [] || inner.chunks[0] == [])
      ensures old(inner.broken) ==> inner.broken
      ensures OnPreface(old(scanner.View())) ==> OnPreface(scanner.View())
    {
      hide Scan, Future, Ingest, ApplyAll, OnPreface;
      ghost var start := Session(scanner.View(), inner.chunks, seen);
      looks := [];
      NoMoves(start);
      while scanner.state.Preface?
        invariant Good()
        invariant forall m :: m in looks ==> m == Look
        invariant Session(scanner.View(), inner.chunks, seen) == ApplyAll(start, looks)
        invariant Future(scanner.View(), Concat(inner.chunks) + wire)
               == Future(old(scanner.View()), Concat(old(inner.chunks)) + wire)
        invariant OnPreface(old(scanner.View())) ==> OnPreface(scanner.View())
        invariant old(inner.broken) ==> inner.broken
        decreases |inner.chunks|
      {
        ghost var r, chunks := scanner.View(), inner.chunks;
        IngestOnPreface(r);
        var read := inner.Read();
        match read
        case Failed => return None, looks;
        case Pending => return None, looks;
        case Eof => return Some(Http1), looks;
        case Ready(chunk) =>
          ReadFuture(r, chunks, wire);
          IngestValid(r, chunk);
          scanner.Scan(chunk);
          ApplyAllAppend(start, looks, Look);
          looks := looks + [Look];
      }
      p := Some(if scanner.state == Blind then Http1 else Http2);
    }
  }

  /** While the preface is being matched, and until anything is handed out, it is what the output starts with. */
  predicate OnPreface(r: Reader) {
    if r.state.Preface? then r.state.matched < PREFACE_LEN && r.out == PREFACE[..r.state.matched]
    else r.state != Blind ==> PREFACE <= r.out
  }

  lemma IngestOnPreface(r: Reader)
    requires Valid(r) && r.state.Preface?
    ensures OnPreface(r) ==> forall c :: OnPreface(Ingest(r, c))
  {
    hide Ingest, OnPreface;
    if OnPreface(r) {
      forall c ensures OnPreface(Ingest(r, c)) {
        IngestMatches(r, c);
      }
    }
  }

  lemma IngestMatches(r: Reader, c: Bytes)
    requires Valid(r) && r.state.Preface? && OnPreface(r)
    ensures OnPreface(Ingest(r, c))
  {
    hide Ingest, Run;
    var m := r.state.matched;
    var n := Min(PREFACE_LEN - m, |c|);
    if c == [] {
      IngestNothing(r);
    } else if c[..n] != PREFACE[m..m + n] {
      RunBadPreface(m, c, n);
      IngestAll(r, c);
    } else {
      var front, behind := c[..n], c[n..];
      assert c == front + behind;
      RunPreface(m, front);
      IngestPassed(r, front, behind);
      var st := if m + n == PREFACE_LEN then Header([]) else Preface(m + n);
      var r' := r.(state := st, out := r.out + front);
      MatchedMore(PREFACE, m, n);
      if m + n == PREFACE_LEN {
        IngestOnlyAdds(r', behind);
        NeverBack(r', behind);
      } else {
        assert behind == [];
        IngestNothing(r');
      }
    }
  }

  lemma MatchedMore(pre: Bytes, m: nat, n: nat)
    requires m + n <= |pre|
    ensures pre[..m] + pre[m..m + n] == pre[..m + n]
    ensures m + n == |pre| ==> pre[..m + n] == pre
  {
  }

  lemma IngestOnlyAdds(r: Reader, c: Bytes)
    ensures r.out <= Ingest(r, c).out
  {
    hide Scan;
  }

  lemma NeverBack(r: Reader, c: Bytes)
    requires !r.state.Preface?
    ensures !Ingest(r, c).state.Preface?
  {
    hide Scan;
    if r.blocks == [] {
      ScanPreface(r.state, c);
    }
  }

  lemma RescanHoldsLess(r: Reader)
    ensures var r' := Ingest(r.(hold := []), r.hold); r.blocks == [] && r'.blocks == [] ==> r'.hold == []
  {
    ScanHoldsOnlyBehindBlock(r.state, r.hold);
  }

  lemma ReadFuture(r: Reader, chunks: seq<Bytes>, wire: Bytes)
    requires chunks != [] && (r.hold == [] || r.blocks != [])
    ensures Future(Ingest(r, chunks[0]), Concat(chunks[1..]) + wire) == Future(r, Concat(chunks) + wire)
  {
    hide Future, Ingest;
    IngestFuture(r, chunks[0], Concat(chunks[1..]) + wire);
    assert Concat(chunks) == chunks[0] + Concat(chunks[1..]);
    assert chunks[0] + (Concat(chunks[1..]) + wire) == Concat(chunks) + wire;
  }

  lemma NoMoves(s: Session)
    ensures ApplyAll(s, []) == s
  {
  }

  /** The connection loop of `serve_h2`. `seen` is everything the codec was told, in the order it was. */
  class ConnectionLoop {
    const stream: BeeperStream
    const sync: SyncHandle
    const flow: FlowHandle
    var seen: Trace

    // whether the codec ever turns down spending or an update
    const refuses: bool

    constructor (stream: BeeperStream, refuses: bool)
      ensures this.stream == stream && sync == stream.scanner.sync && flow == stream.scanner.flow
      ensures seen == End([], 0) && this.refuses == refuses
    {
      this.stream, sync, flow := stream, stream.scanner.sync, stream.scanner.flow;
      seen, this.refuses := End([], 0), refuses;
    }

    // `consume_send_capacity` or `prime_dynamic_table`, as far as they can fail
    method Accepts() returns (ok: bool)
      ensures !refuses ==> ok
    {
      ok := true;
      if refuses {
        ok := *;
      }
    }

    ghost predicate Good()
      reads this, stream.scanner, stream.scanner.sync, stream.scanner.flow
    {
      sync == stream.scanner.sync && flow == stream.scanner.flow && stream.Good()
    }

    ghost function State(): Session
      reads this, stream.inner, stream.scanner, stream.scanner.sync, stream.scanner.flow
    {
      Session(stream.scanner.View(), stream.inner.chunks, seen)
    }

    /**
     Applies what the fast path did behind the codec's back: spending first, updates second. If the
     codec turns one of them down the connection ends, and it is told nothing more.
     */
    method Drain() returns (ok: bool)
      requires Good()
      modifies this, sync, flow
      ensures Good()
      ensures !refuses ==> ok
      ensures ok ==> State() == Apply(old(State()), Move.Drain)
      ensures !ok ==> seen == old(seen) || seen == TakeFlow(old(State())).seen
    {
      ok := true;
      var sent := flow.Take();
      JoinNothing(seen);
      if sent > 0 {
        ok := Accepts();
        if !ok {
          return;
        }
        seen := Join(seen, End([], sent));
      }
      var blocks := sync.Take();
      ghost var before := seen;
      JoinNothing(seen);
      for i := 0 to |blocks|
        invariant ok && seen == Join(before, Updates(blocks[..i]))
        invariant sync.blocks == [] && flow.sent == 0
      {
        ok := Accepts();
        if !ok {
          return;
        }
        seen := Join(seen, Update([], 0, blocks[i], End([], 0)));
        ViewOfOneMore(before, blocks[..i], blocks[i]);
        assert blocks[..i + 1] == blocks[..i] + [blocks[i]];
      }
      assert blocks[..|blocks|] == blocks;
    }

    /**
     Lets the codec read, with buffers of whatever size, until the stream has nothing more for it.
     That is the poll the last size is for. It only stops before if the socket fails.
     */
    method Read() returns (ok: bool, ghost polls: seq<Move>, ghost last: nat)
      requires Good()
      modifies this, stream, stream.inner, stream.scanner, sync, flow
      ensures Good()
      ensures forall m :: m in polls ==> m.Poll?
      ensures ok || stream.inner.broken
      ensures ok ==>
                var s := ApplyAll(old(State()), polls);
                && !Reading.PollRead(s.reader, s.chunks, last).poll.Ready?
                && State() == Apply(s, Move.Poll(last))
    {
      hide Reading.PollRead, Ingest, Apply, ApplyAll;
      ghost var start := State();
      ok, polls, last := true, [], 1;
      NoMoves(start);
      while true
        invariant ok && Good()
        invariant forall m :: m in polls ==> m.Poll?
        invariant State() == ApplyAll(start, polls)
        decreases Backlog(stream.scanner.View(), stream.inner.chunks)
      {
        var size: int := *;
        var cap := if size < 1 then 1 else size;
        ghost var s := State();
        PollBacklog(s.reader, s.chunks, cap);
        ApplyPoll(s, cap);
        var p := stream.PollRead(cap, []);
        if p.Failed? {
          ok := false;
          return;
        }
        if !p.Ready? {
          last := cap;
          return;
        }
        seen := Join(seen, End(p.data, 0));
        ApplyAllAppend(start, polls, Move.Poll(cap));
        polls := polls + [Move.Poll(cap)];
      }
    }

    /** One run of the closure, on what arrived since the one before: a complete round, unless the connection ends. */
    method Turn(arriving: seq<Bytes>) returns (ok: bool, ghost round: Round)
      requires Good()
      modifies this, stream, stream.inner, stream.scanner, sync, flow
      ensures Good()
      ensures !refuses && !stream.inner.broken ==> ok
      ensures ok ==>
                && Complete(old(State()), round) && round.arrivals == Arrivals(arriving)
                && State() == ApplyAll(old(State()), MovesOf(round))
    {
      ghost var start := State();
      round := Round(Arrivals(arriving), [], 1);
      stream.inner.Arrive(arriving);
      ArrivalsApply(start, arriving);
      ok := Drain();
      if !ok {
        return;
      }
      ghost var polls, last;
      ok, polls, last := Read();
      round := Round(Arrivals(arriving), polls, last);
      if ok {
        RoundApplies(start, round);
      }
    }

    /** The handshake reads the preface, which was scanned already: it never touches the socket. */
    method Handshake()
      requires Good() && PREFACE <= stream.scanner.out
      modifies this, stream, stream.inner, stream.scanner, sync, flow
      ensures Good() && State() == Apply(old(State()), Move.Poll(PREFACE_LEN))
      ensures seen == Join(old(seen), End(PREFACE, 0)) && stream.inner.chunks == old(stream.inner.chunks)
    {
      ghost var s := State();
      PrefaceIsThere(s.reader, s.chunks);
      ApplyPoll(s, PREFACE_LEN);
      var p := stream.PollRead(PREFACE_LEN, []);
      assert !p.Failed?;
      seen := Join(seen, End(p.data, 0));
    }

    /**
     The opening of a connection: what arrived first tells the protocol, and the handshake reads the
     preface. Unless the socket fails it comes to the loop exactly if what arrived first brings the
     reference machine past the preface and into the framing.
     */
    method Open(first: seq<Bytes>) returns (ok: bool, ghost opening: seq<Move>)
      requires Good() && State() == START
      modifies this, stream, stream.inner, stream.scanner, sync, flow
      ensures Good() && Arrived(opening) == Concat(first) && forall m :: m in opening ==> !m.Drain?
      ensures ok ==> State() == ApplyAll(START, opening)
      ensures !stream.inner.broken && Going(first) && !ok ==>
                var st := Run(Preface(0), Concat(first)).state; st.Preface? || st == Blind
    {
      hide Apply, ApplyAll, OnPreface, Going, Future, Run;
      ghost var looks;
      opening := Arrivals(first);
      ArrivalsBring(first, []);
      assert Arrivals(first) + [] == Arrivals(first);
      stream.inner.Arrive(first);
      ArrivalsApply(START, first);
      OnPrefaceAtFirst();
      var p;
      p, looks := stream.Protocol(seen, []);
      ok := p == Some(Http2);
      if !ok {
        if !stream.inner.broken && Going(first) {
          NotFraming(first, looks, State());
        }
        return;
      }
      OutputStarts(stream.scanner.View());
      Handshake();
      ghost var polls := looks + [Move.Poll(PREFACE_LEN)];
      opening := Arrivals(first) + polls;
      ApplyAllAppend(ApplyAll(START, Arrivals(first)), looks, Move.Poll(PREFACE_LEN));
      OrderedConcat(START, Arrivals(first), polls);
      ArrivalsBring(first, polls);
    }

    /**
     `serve_connection`, on a connection that speaks HTTP/2: the opening and then the loop. All of it is
     the life of a connection, which only ends early if the socket fails or the codec turns something
     down.
     */
    method ServeConnection(first: seq<Bytes>, arriving: seq<seq<Bytes>>) returns (ok: bool, ghost life: Life)
      requires Good() && State() == START
      modifies this, stream, stream.inner, stream.scanner, sync, flow
      ensures Good() && Lived(life) && Arrived(life.opening) == Concat(first)
      ensures ok ==> State() == ApplyAll(START, Moves(life)) && |life.rounds| == |arriving|
      ensures !refuses && !stream.inner.broken && Going(first) && !ok ==>
                var st := Run(Preface(0), Concat(first)).state; st.Preface? || st == Blind
    {
      hide Complete, Apply, ApplyAll, MovesOf, AllComplete, Going, Run;
      ghost var opening, rounds;
      ok, opening := Open(first);
      life := Life(opening, [], None);
      NothingDone(ApplyAll(START, opening));
      if !ok {
        return;
      }
      ok, rounds := Serve(arriving);
      life := Life(opening, rounds, None);
      OrderedConcat(START, opening, AllMoves(rounds));
      assert AllMoves(rounds) + [] == AllMoves(rounds);
    }

    /**
     The loop, over as many turns as `arriving` has. Without any it is done; the connection may also
     end before. Until then it is one complete round after the other.
     */
    method Serve(arriving: seq<seq<Bytes>>) returns (ok: bool, ghost rounds: seq<Round>)
      requires Good()
      modifies this, stream, stream.inner, stream.scanner, sync, flow
      ensures Good()
      ensures AllComplete(old(State()), rounds)
      ensures !refuses && !stream.inner.broken ==> ok
      ensures ok ==> |rounds| == |arriving| && State() == ApplyAll(old(State()), AllMoves(rounds))
    {
      hide Complete, Apply, ApplyAll, MovesOf;
      ghost var start := State();
      ok, rounds := true, [];
      NoMoves(start);
      for i := 0 to |arriving|
        invariant ok && Good() && |rounds| == i
        invariant AllComplete(start, rounds) && State() == ApplyAll(start, AllMoves(rounds))
      {
        ghost var round;
        ok, round := Turn(arriving[i]);
        if !ok {
          return;
        }
        OneMoreRound(start, rounds, round);
        rounds := rounds + [round];
      }
    }
  }

  function Arrivals(arriving: seq<Bytes>): (ms: seq<Move>)
    ensures |ms| == |arriving| && forall i :: 0 <= i < |ms| ==> ms[i] == Arrive(arriving[i])
  {
    seq(|arriving|, i requires 0 <= i < |arriving| => Arrive(arriving[i]))
  }

  lemma {:induction false} ArrivalsBring(arriving: seq<Bytes>, polls: seq<Move>)
    requires forall m :: m in polls ==> !m.Arrive?
    ensures Arrived(Arrivals(arriving) + polls) == Concat(arriving)
    decreases |arriving|, |polls|
  {
    var ms := Arrivals(arriving) + polls;
    if arriving != [] {
      assert ms[1..] == Arrivals(arriving[1..]) + polls;
      ArrivalsBring(arriving[1..], polls);
    } else if polls != [] {
      assert ms == polls && polls[1..] == Arrivals([]) + polls[1..];
      ArrivalsBring([], polls[1..]);
    }
  }

  // Where finding out the protocol leaves off without HTTP/2 the reference machine is no further.
  lemma NotFraming(first: seq<Bytes>, looks: seq<Move>, s: Session)
    requires Going(first) && (forall m :: m in looks ==> m == Look)
    requires s == ApplyAll(ApplyAll(START, Arrivals(first)), looks)
    requires if s.reader.state.Preface? then s.chunks == [] || s.chunks[0] == [] else s.reader.state == Blind
    ensures var st := Run(Preface(0), Concat(first)).state; st.Preface? || st == Blind
  {
    hide Run, Apply, View, Whole, DataOf, UpdatesOf, SentOf, Going;
    var ms := Arrivals(first) + looks;
    OrderedConcat(START, Arrivals(first), looks);
    ArrivalsBring(first, looks);
    RunTotals(START, ms, []);
    ChunksGo(first, looks);
    var w := Concat(s.chunks);
    assert w + [] == w && Concat(first) + [] == Concat(first);
    assert INITIAL.hold + (Concat(START.chunks) + Concat(first)) == Concat(first);
    if s.reader.state == Blind {
      RunBlind(s.reader.hold + (w + []));
    } else {
      assert s.reader.hold + (w + []) == [];
      RunNone(s.reader.state);
    }
  }

  lemma ChunksGo(first: seq<Bytes>, looks: seq<Move>)
    requires Going(first) && forall m :: m in looks ==> m == Look
    ensures var chunks := ApplyAll(START, Arrivals(first) + looks).chunks; chunks == [] || chunks[0] != []
  {
    hide Apply;
    var ms := Arrivals(first) + looks;
    forall m | m in ms && m.Arrive? ensures m.chunk != [] {
      var i :| 0 <= i < |ms| && ms[i] == m;
      assert i < |first| && m.chunk == first[i] && first[i] in first;
    }
    MovesGo(START, ms);
    var chunks := ApplyAll(START, ms).chunks;
    assert chunks != [] ==> chunks[0] in chunks;
  }

  lemma NothingDone(s: Session)
    ensures AllComplete(s, [])
  {
  }

  lemma OnPrefaceAtFirst()
    ensures OnPreface(INITIAL)
  {
  }

  lemma OutputStarts(r: Reader)
    requires OnPreface(r) && !r.state.Preface? && r.state != Blind
    ensures PREFACE <= r.out
  {
  }

  lemma PrefaceIsThere(r: Reader, chunks: seq<Bytes>)
    requires PREFACE <= r.out
    ensures var p := PollRead(r, chunks, PREFACE_LEN);
            p == Polled(r.(out := r.out[PREFACE_LEN..]), chunks, Ready(PREFACE))
  {
    assert r.out[..PREFACE_LEN] == PREFACE;
  }

  lemma {:induction false} ArrivalsApply(s: Session, arriving: seq<Bytes>)
    ensures ApplyAll(s, Arrivals(arriving)) == s.(chunks := s.chunks + arriving)
    decreases |arriving|
  {
    var ms := Arrivals(arriving);
    if arriving == [] {
      assert s.chunks + [] == s.chunks;
    } else {
      assert ms[1..] == Arrivals(arriving[1..]);
      assert s.chunks + [arriving[0]] + arriving[1..] == s.chunks + arriving;
      ArrivalsApply(Apply(s, ms[0]), arriving[1..]);
    }
  }

  lemma RoundApplies(s: Session, r: Round)
    ensures var s1 := ApplyAll(Apply(ApplyAll(s, r.arrivals), Move.Drain), r.polls);
            ApplyAll(s, Begun(r)) == s1 && ApplyAll(s, MovesOf(r)) == Apply(s1, Move.Poll(r.cap))
  {
    hide Apply;
    var drains := [Move.Drain] + r.polls;
    assert drains[0] == Move.Drain && drains[1..] == r.polls;
    OrderedConcat(s, r.arrivals, drains);
    ApplyAllAppend(s, Begun(r), Move.Poll(r.cap));
  }

  lemma {:induction false} OneMoreRound(s: Session, rs: seq<Round>, r: Round)
    requires AllComplete(s, rs) && Complete(ApplyAll(s, AllMoves(rs)), r)
    ensures AllComplete(s, rs + [r])
    ensures ApplyAll(s, AllMoves(rs + [r])) == ApplyAll(ApplyAll(s, AllMoves(rs)), MovesOf(r))
    decreases |rs|
  {
    hide Complete, MovesOf, Apply;
    if rs == [] {
      assert rs + [r] == [r] && [r][1..] == [];
      assert AllMoves([r]) == MovesOf(r) + [] == MovesOf(r);
      assert AllComplete(ApplyAll(s, MovesOf(r)), []);
    } else {
      var s1 := ApplyAll(s, MovesOf(rs[0]));
      assert (rs + [r])[0] == rs[0] && (rs + [r])[1..] == rs[1..] + [r];
      OrderedConcat(s, MovesOf(rs[0]), AllMoves(rs[1..]));
      OrderedConcat(s, MovesOf(rs[0]), AllMoves(rs[1..] + [r]));
      OneMoreRound(s1, rs[1..], r);
    }
  }

  lemma ApplyPoll(s: Session, cap: nat)
    ensures var p := PollRead(s.reader, s.chunks, cap);
            Apply(s, Move.Poll(cap)) ==
            Session(p.reader, p.chunks, if p.poll.Ready? then Join(s.seen, End(p.poll.data, 0)) else s.seen)
  {
  }

  lemma ViewOfOneMore(t: Trace, bs: seq<Bytes>, b: Bytes)
    ensures Join(Join(t, Updates(bs)), Update([], 0, b, End([], 0))) == Join(t, Updates(bs + [b]))
  {
    assert Blocks(bs + [b]) == Blocks(bs) + [Block(b)];
    ViewConcat(Blocks(bs), [Block(b)]);
    assert [Block(b)][1..] == [] && View([Block(b)][1..]) == End([], 0);
    JoinAssociative(t, Updates(bs), View([Block(b)]));
  }

  lemma {:induction false} ApplyAllAppend(s: Session, ms: seq<Move>, m: Move)
    ensures ApplyAll(s, ms + [m]) == Apply(ApplyAll(s, ms), m)
    decreases |ms|
  {
    hide Apply;
    if ms == [] {
      assert [] + [m] == [m] && [m][1..] == [];
    } else {
      assert (ms + [m])[1..] == ms[1..] + [m];
      ApplyAllAppend(Apply(s, ms[0]), ms[1..], m);
    }
  }
  /**
   A chunk that holds the preface and, right behind it, an update of one byte. Once the codec has read
   a first byte of it, the update is pending while the rest of the preface is not yet handed out. A
   drain at that point would hand the update over too early.
   */
  const HASTY: Bytes := PREFACE + (FrameHeader(1, DT_SYNC, 0, 0) + [0x40])

  lemma DrainOvertakes()
    ensures var s := ApplyAll(START, [Arrive(HASTY), Move.Poll(1)]);
            && s.reader.out == PREFACE[1..] && s.reader.blocks == [[0x40]]
            && !Level(s)
            && Join(Updates([[0x40]]), Future(TakeSync(s).reader, [])) != Future(s.reader, [])
  {
    hide Ingest, Run, Future, TakeSync, Updates, Join;
    HastyIngested();
    var moves := [Arrive(HASTY), Move.Poll(1)];
    var s1 := Apply(START, moves[0]);
    assert s1 == Session(INITIAL, [HASTY], End([], 0));
    assert moves[1..] == [Move.Poll(1)] && [Move.Poll(1)][1..] == [];
    var r := Ingest(INITIAL, HASTY);
    assert [HASTY][1..] == [] && HASTY != [];
    assert PollRead(INITIAL, [HASTY], 1) == PollRead(r, [], 1) == Polled(r.(out := r.out[1..]), [], Ready(r.out[..1]));
    var s := Apply(s1, Move.Poll(1));
    assert ApplyAll(s, []) == s && ApplyAll(s1, [Move.Poll(1)]) == ApplyAll(s, []);
    TakeKeepsOrder(s, [0x40], []);
  }

  lemma HastyIngested()
    ensures var r := Ingest(INITIAL, HASTY);
            r.out == PREFACE && r.blocks == [[0x40]] && r.state == Header([]) && r.hold == []
  {
    hide Ingest, Run, OnHeader;
    var h, body: Bytes := FrameHeader(1, DT_SYNC, 0, 0), [0x40];
    WholePreface();
    IngestPassed(INITIAL, PREFACE, h + body);
    var r1 := INITIAL.(state := Header([]), out := [] + PREFACE);
    assert [] + PREFACE == PREFACE;
    IngestHeader(r1, [], h, body);
    SyncHeaderOf(h);
    assert [] + h == h && r1.out + [] == r1.out;
    var r2 := r1.(state := Sync([], 1));
    IngestSync(r2, [], 1, body, []);
    assert body + [] == body && [] + body == body;
  }

  lemma SyncHeaderOf(h: Bytes)
    requires h == FrameHeader(1, DT_SYNC, 0, 0)
    ensures OnHeader(h) == Stepped(Sync([], 1), [])
  {
    HeaderFields(1, DT_SYNC, 0, 0, []);
    assert h + [] == h;
  }
}
