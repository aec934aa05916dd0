/**
 The dummy sockets the fast path runs on: lent to a connection, taken back when it closes, left alone
 for a while, reset and lent again.

 `Next` is what one run of a kernel program or one call of the recycler does to the maps. A reset is
 several calls, between which the kernel may run, so it is a step for each of them.
 */
module DummyPool {
  import opened Wire

  const MAX_DUMMIES: nat := 16384
  const QUARANTINE: nat := 100

  datatype Address = Address(ip: u32, port: u32)

  /** `struct ip4_conn`. */
  datatype Key = Key(local: Address, remote: Address)

  /** `struct dummy_owner`. */
  datatype Owner = Owner(conn: Key, active: bool)

  /** What a client sent, on the backlog of a dummy, and when the dummy was lent to that client. */
  datatype Sent = Sent(conn: Key, lending: nat)

  datatype Aged = Aged(dummy: nat, at: nat)

  /** A dummy that is being reset, and how many of the calls that takes have been made. */
  datatype Resetting = Resetting(dummy: nat, stage: nat)

  datatype Pool = Pool(
    n: nat,
    // `free_dummies`, `conn_dummy`, `dummy_owners` and `dummy_map`
    free: seq<nat>, conns: map<Key, nat>, owners: map<nat, Owner>, mapped: set<nat>,
    // who `upgraded_conns`, `flow_ctl` and `dt_dirty` have an entry for
    upgraded: set<Key>, flow: set<Key>, dirty: set<Key>,
    // `released_dummies`, and the deque they are moved to
    ring: seq<nat>, aging: seq<Aged>, reset: Option<Resetting>, lost: seq<nat>,
    // dummies whose psock has been used, those whose socket may hold an error of a send that was given
    // up on, and those the parser has an entry for
    worn: set<nat>, erred: set<nat>, parsed: set<nat>,
    queue: map<nat, seq<Sent>>,
    // the number of the lending each connection holds its dummy by
    current: map<Key, nat>, lendings: nat,
    now: nat)

  function UpTo(n: nat): (s: seq<nat>)
    ensures |s| == n && forall i :: 0 <= i < n ==> s[i] == i
  {
    seq(n, i => i)
  }

  function Opened(n: nat): Pool {
    Pool(n, UpTo(n), map[], map[], set d | d in UpTo(n), {}, {}, {}, [], [], None, [], {}, {}, {}, map[], map[], 0, 0)
  }

  function Queued(p: Pool, d: nat): seq<Sent> {
    if d in p.queue then p.queue[d] else []
  }

  /** `add_conn`. Whichever helper fails, what came before it is rolled back the same way. */
  function Lend(p: Pool, key: Key, fails: bool): Pool {
    if p.free == [] then p
    else
      var d := p.free[0];
      if fails then p.(free := p.free[1..] + [d], owners := p.owners[d := Owner(key, false)], conns := p.conns - {key})
      else p.(free := p.free[1..], owners := p.owners[d := Owner(key, true)], conns := p.conns[key := d],
              current := p.current[key := p.lendings], lendings := p.lendings + 1)
  }

  /** The kernel forgets a connection. What its dummy still has queued is dropped from here on. */
  function Detach(p: Pool, key: Key): Pool
    requires key in p.conns
  {
    p.(conns := p.conns - {key}, current := p.current - {key}, owners := p.owners[p.conns[key] := Owner(key, false)],
       upgraded := p.upgraded - {key}, flow := p.flow - {key}, dirty := p.dirty - {key})
  }

  /** `remove_conn`. */
  function Release(p: Pool, key: Key, ringFull: bool): Pool {
    if key !in p.conns then p
    else
      var q, d := Detach(p, key), p.conns[key];
      if ringFull then q.(lost := q.lost + [d]) else q.(ring := q.ring + [d])
  }

  /** `skb_verdict`. The end of a stream goes to user space directly. */
  function Redirect(p: Pool, key: Key, len: nat): Pool {
    if key !in p.conns || len == 0 || p.conns[key] !in p.mapped || key !in p.current then p
    else
      var d := p.conns[key];
      p.(queue := p.queue[d := Queued(p, d) + [Sent(key, p.current[key])]], worn := p.worn + {d}, erred := p.erred + {d})
  }

  datatype Recovered = Dropped | From(conn: Key)

  /** The connection `msg_verdict` takes what is sent on `d` to come from. */
  function Recover(p: Pool, d: nat): Recovered {
    if d in p.owners && p.owners[d].active then From(p.owners[d].conn) else Dropped
  }

  /** What running `msg_verdict` on a message leaves in the maps. */
  datatype Marks = Marks(upgraded: bool, dirty: bool, parsed: bool)

  function Mark(p: Pool, c: Key, d: nat, marks: Marks): Pool {
    p.(upgraded := if marks.upgraded then p.upgraded + {c} else p.upgraded,
       flow := if marks.upgraded then p.flow + {c} else p.flow,
       dirty := if marks.dirty then p.dirty + {c} else p.dirty,
       parsed := if marks.parsed then p.parsed + {d} else p.parsed)
  }

  function Process(p: Pool, d: nat, marks: Marks): Pool {
    if Queued(p, d) == [] then p
    else
      var q := p.(queue := p.queue[d := Queued(p, d)[1..]]);
      match Recover(p, d)
      case Dropped => q
      case From(c) => Mark(q, c, d, marks)
  }

  function Collect(p: Pool, now: nat): Pool {
    if p.ring == [] then p.(now := now)
    else p.(ring := p.ring[1..], aging := p.aging + [Aged(p.ring[0], now)], now := now)
  }

  function Begin(p: Pool, now: nat): Pool {
    if p.aging == [] || p.reset.Some? then p.(now := now)
    else p.(aging := p.aging[1..], reset := Some(Resetting(p.aging[0].dummy, 0)), now := now)
  }

  const STAGES: nat := 5

  /**
   The next call of a reset: out of `dummy_map`, read the socket's error, back into `dummy_map`, drop
   the parser's entry, back to the pool. If one fails the dummy is never returned.
   */
  function Advance(p: Pool, ok: bool): Pool {
    if p.reset.None? then p
    else
      var d, stage := p.reset.value.dummy, p.reset.value.stage;
      if !ok then p.(reset := None, lost := p.lost + [d])
      else
        p.(reset := if stage + 1 < STAGES then Some(Resetting(d, stage + 1)) else None,
           mapped := if stage == 0 then p.mapped - {d} else if stage == 2 then p.mapped + {d} else p.mapped,
           erred := if stage == 1 then p.erred - {d} else p.erred,
           worn := if stage == 2 then p.worn - {d} else p.worn,
           parsed := if stage == 3 then p.parsed - {d} else p.parsed,
           free := if stage + 1 < STAGES then p.free else p.free + [d])
  }

  datatype Step =
    | Establish(key: Key, fails: bool)
    | Close(key: Key, ringFull: bool)
    | Receive(key: Key, len: nat)
    | Deliver(dummy: nat, marks: Marks)
    | Collecting(now: nat)
    | Wait(now: nat)
    | Beginning(now: nat)
    | Advancing(ok: bool)

  function Next(p: Pool, step: Step): Pool {
    match step
    case Establish(key, fails) => Lend(p, key, fails)
    case Close(key, ringFull) => Release(p, key, ringFull)
    case Receive(key, len) => Redirect(p, key, len)
    case Deliver(d, marks) => Process(p, d, marks)
    case Collecting(now) => Collect(p, now)
    case Wait(now) => p.(now := now)
    case Beginning(now) => Begin(p, now)
    case Advancing(ok) => Advance(p, ok)
  }

  /**
   When a step can happen. No connection is established under a key that is still live, the clock
   never goes back, and a dummy that was left alone for long enough has nothing on its backlog.
   */
  ghost predicate Enabled(p: Pool, step: Step) {
    match step
    case Establish(key, _) => key !in p.conns
    case Collecting(now) => now >= p.now
    case Wait(now) => now >= p.now
    case Beginning(now) =>
      && now >= p.now
      && (p.aging != [] ==> now >= p.aging[0].at + QUARANTINE && Queued(p, p.aging[0].dummy) == [])
    case _ => true
  }

  ghost predicate Possible(p: Pool, steps: seq<Step>)
    decreases |steps|
  {
    steps == [] || (Enabled(p, steps[0]) && Possible(Next(p, steps[0]), steps[1..]))
  }

  ghost function After(p: Pool, steps: seq<Step>): Pool
    decreases |steps|
  {
    if steps == [] then p else After(Next(p, steps[0]), steps[1..])
  }

  lemma {:induction false} AfterConcat(p: Pool, a: seq<Step>, b: seq<Step>)
    ensures After(p, a + b) == After(After(p, a), b)
    ensures Possible(p, a + b) <==> Possible(p, a) && Possible(After(p, a), b)
    decreases |a|
  {
    hide Next, Enabled;
    if a == [] {
      assert a + b == b;
    } else {
      assert (a + b)[0] == a[0] && (a + b)[1..] == a[1..] + b;
      AfterConcat(Next(p, a[0]), a[1..], b);
    }
  }

  lemma AfterAppend(p: Pool, steps: seq<Step>, step: Step)
    ensures After(p, steps + [step]) == Next(After(p, steps), step)
    ensures Possible(p, steps + [step]) <==> Possible(p, steps) && Enabled(After(p, steps), step)
  {
    hide Next, Enabled;
    AfterConcat(p, steps, [step]);
    var last := Next(After(p, steps), step);
    assert [step][1..] == [];
    assert After(last, []) == last && Possible(last, []);
  }

  // ---- what every step keeps ----

  function Dummies(aging: seq<Aged>): seq<nat> {
    seq(|aging|, i requires 0 <= i < |aging| => aging[i].dummy)
  }

  function UnderReset(p: Pool): seq<nat> {
    if p.reset.Some? then [p.reset.value.dummy] else []
  }

  /** How often `d` is in `s`. */
  function Times(s: seq<nat>, d: nat): nat {
    multiset(s)[d]
  }

  /** How often `d` is somewhere other than lent to a connection. */
  function Idle(p: Pool, d: nat): nat {
    Times(p.free, d) + Times(p.ring, d) + Times(Dummies(p.aging), d) + Times(UnderReset(p), d) + Times(p.lost, d)
  }

  predicate Lent(p: Pool, d: nat) {
    d in p.owners && p.owners[d].active
  }

  /** Every dummy is in one place. */
  ghost predicate Partitioned(p: Pool) {
    && (forall d: nat :: Idle(p, d) == if d < p.n && !Lent(p, d) then 1 else 0)
    && (forall d :: d in p.owners ==> d < p.n)
    && Tracked(p) == p.n
  }

  /** Live connections and active owners are the two sides of one pairing. */
  ghost predicate Paired(p: Pool) {
    && (forall k :: k in p.conns ==> p.conns[k] in p.owners && p.owners[p.conns[k]] == Owner(k, true))
    && (forall d :: d in p.owners && p.owners[d].active ==> p.owners[d].conn in p.conns && p.conns[p.owners[d].conn] == d)
  }

  /** Nothing is kept for a connection that is not live. */
  ghost predicate Blank(p: Pool) {
    && p.upgraded <= p.conns.Keys && p.flow <= p.conns.Keys && p.dirty <= p.conns.Keys
    && p.current.Keys == p.conns.Keys
  }

  /** Whether `d` is as good as new. */
  ghost predicate Fresh(p: Pool, d: nat) {
    d in p.mapped && d !in p.worn && d !in p.erred && d !in p.parsed && Queued(p, d) == []
  }

  ghost predicate Clean(p: Pool) {
    && (forall d :: d in p.free ==> Fresh(p, d))
    && (forall d :: Lent(p, d) ==> d in p.mapped)
    && (p.reset.Some? ==>
          var d, stage := p.reset.value.dummy, p.reset.value.stage;
          && stage < STAGES && Queued(p, d) == []
          && (stage >= 2 ==> d !in p.erred)
          && (stage >= 3 ==> d in p.mapped && d !in p.worn)
          && (stage >= 4 ==> d !in p.parsed))
  }

  /** What waits on the backlog of a dummy that is lent is from the connection it is lent to. */
  ghost predicate Tagged(p: Pool) {
    forall d, i :: Lent(p, d) && 0 <= i < |Queued(p, d)| ==>
      var s := Queued(p, d)[i];
      s.conn == p.owners[d].conn && s.conn in p.current && s.lending == p.current[s.conn]
  }

  /** No two lendings have the same number. */
  ghost predicate Numbered(p: Pool) {
    && (forall k :: k in p.current ==> p.current[k] < p.lendings)
    && (forall k, l :: k in p.current && l in p.current && p.current[k] == p.current[l] ==> k == l)
    && (forall d, s :: s in Queued(p, d) ==> s.lending < p.lendings)
  }

  ghost predicate Sorted(aging: seq<Aged>) {
    forall i, j :: 0 <= i < j < |aging| ==> aging[i].at <= aging[j].at
  }

  ghost predicate InOrder(p: Pool) {
    Sorted(p.aging) && forall i :: 0 <= i < |p.aging| ==> p.aging[i].at <= p.now
  }

  ghost predicate Sound(p: Pool) {
    Partitioned(p) && Paired(p) && Blank(p) && Clean(p) && Tagged(p) && Numbered(p) && InOrder(p)
  }

  function One(a: nat, d: nat): nat {
    if a == d then 1 else 0
  }

  lemma TimesHead(s: seq<nat>, d: nat)
    requires s != []
    ensures Times(s, d) == One(s[0], d) + Times(s[1..], d)
  {
    assert s == [s[0]] + s[1..];
    assert multiset([s[0]]) == multiset{s[0]};
  }

  lemma TimesAppend(s: seq<nat>, a: nat, d: nat)
    ensures Times(s + [a], d) == Times(s, d) + One(a, d)
  {
  }

  lemma TimesOne(a: nat, d: nat)
    ensures Times([a], d) == One(a, d) && Times([], d) == 0
  {
  }

  lemma DummiesConcat(a: seq<Aged>, b: seq<Aged>)
    ensures Dummies(a + b) == Dummies(a) + Dummies(b)
  {
  }

  lemma {:induction false} UpToOnce(n: nat, d: nat)
    ensures multiset(UpTo(n))[d] == if d < n then 1 else 0
  {
    if n > 0 {
      assert UpTo(n) == UpTo(n - 1) + [n - 1];
      UpToOnce(n - 1, d);
    }
  }

  lemma OpenedSound(n: nat)
    ensures Sound(Opened(n))
  {
    var p := Opened(n);
    forall d: nat
      ensures Idle(p, d) == if d < n then 1 else 0
    {
      UpToOnce(n, d);
    }
  }

  // ---- a dummy moves from place to place ----

  /** How many dummies are kept track of. */
  function Tracked(p: Pool): nat {
    |p.free| + |p.conns| + |p.ring| + |p.aging| + |UnderReset(p)| + |p.lost|
  }

  lemma WithoutKey(m: map<Key, nat>, key: Key)
    requires key in m
    ensures |m - {key}| == |m| - 1
  {
    assert m == (m - {key})[key := m[key]];
  }

  // Nothing about the pairing has changed, nor whether `d` is idle.
  ghost predicate Alike(p: Pool, p': Pool, d: nat) {
    p'.n == p.n && p'.conns == p.conns && p'.owners == p.owners && Idle(p', d) == Idle(p, d) && Tracked(p') == Tracked(p)
  }

  lemma StaysPut(p: Pool, p': Pool, d: nat)
    requires p'.free == p.free && p'.ring == p.ring && p'.aging == p.aging && p'.reset == p.reset && p'.lost == p.lost
    requires p'.n == p.n && p'.conns == p.conns && p'.owners == p.owners
    ensures Alike(p, p', d)
  {
  }

  lemma LendLeaves(p: Pool, key: Key, fails: bool)
    requires p.free != []
    ensures var p' := Lend(p, key, fails);
            && p'.ring == p.ring && p'.aging == p.aging && p'.lost == p.lost && UnderReset(p') == UnderReset(p)
            && p'.free == (if fails then p.free[1..] + [p.free[0]] else p.free[1..])
            && p'.conns == if fails then p.conns - {key} else p.conns[key := p.free[0]]
  {
  }

  lemma LendMoves(p: Pool, key: Key, fails: bool, d: nat)
    requires p.free != [] && key !in p.conns
    ensures var p' := Lend(p, key, fails);
            Idle(p, d) == Idle(p', d) + (if fails then 0 else One(p.free[0], d)) && Tracked(p') == Tracked(p)
  {
    hide Times, One, Dummies, UnderReset, Lend;
    TimesHead(p.free, d);
    TimesAppend(p.free[1..], p.free[0], d);
    LendLeaves(p, key, fails);
    var p' := Lend(p, key, fails);
    assert |p'.conns| + |p'.free| == |p.conns| + |p.free| by {
      if fails {
        assert p.conns - {key} == p.conns;
      }
    }
  }

  lemma ReleaseMoves(p: Pool, key: Key, ringFull: bool, d: nat)
    requires key in p.conns
    ensures var p' := Release(p, key, ringFull);
            Idle(p', d) == Idle(p, d) + One(p.conns[key], d) && Tracked(p') == Tracked(p)
  {
    hide Times, One;
    WithoutKey(p.conns, key);
    TimesAppend(p.ring, p.conns[key], d);
    TimesAppend(p.lost, p.conns[key], d);
  }

  lemma CollectMoves(p: Pool, now: nat, d: nat)
    ensures Alike(p, Collect(p, now), d)
  {
    hide Times, One;
    if p.ring != [] {
      TimesHead(p.ring, d);
      var last := [Aged(p.ring[0], now)];
      DummiesConcat(p.aging, last);
      assert Dummies(last) == [p.ring[0]];
      TimesAppend(Dummies(p.aging), p.ring[0], d);
    }
  }

  lemma BeginMoves(p: Pool, now: nat, d: nat)
    ensures Alike(p, Begin(p, now), d)
  {
    hide Times, One;
    if p.aging != [] && p.reset.None? {
      var ds := Dummies(p.aging);
      TimesHead(ds, d);
      assert ds[1..] == Dummies(p.aging[1..]);
      TimesOne(ds[0], d);
    }
  }

  lemma AdvanceMoves(p: Pool, ok: bool, d: nat)
    ensures Alike(p, Advance(p, ok), d)
  {
    hide Times, One;
    if p.reset.Some? {
      var a := p.reset.value.dummy;
      var p' := Advance(p, ok);
      assert UnderReset(p') == UnderReset(p) || UnderReset(p') == [];
      TimesOne(a, d);
      TimesAppend(p.lost, a, d);
      TimesAppend(p.free, a, d);
    }
  }

  lemma FreeIsIdle(p: Pool)
    requires p.free != []
    ensures Idle(p, p.free[0]) >= 1
  {
    assert p.free[0] in multiset(p.free);
  }

  lemma LendPartitions(p: Pool, key: Key, fails: bool)
    requires Partitioned(p) && key !in p.conns && p.free != []
    ensures Partitioned(Lend(p, key, fails))
  {
    hide Idle, Tracked, UnderReset;
    FreeIsIdle(p);
    LendMoves(p, key, fails, p.free[0]);
    forall d: nat
      ensures Idle(Lend(p, key, fails), d) == if d < p.n && !Lent(Lend(p, key, fails), d) then 1 else 0
    {
      LendMoves(p, key, fails, d);
    }
  }

  lemma ReleasePartitions(p: Pool, key: Key, ringFull: bool)
    requires Partitioned(p) && Paired(p) && key in p.conns
    ensures Partitioned(Release(p, key, ringFull))
  {
    hide Idle, Tracked, UnderReset;
    ReleaseMoves(p, key, ringFull, p.conns[key]);
    forall d: nat
      ensures Idle(Release(p, key, ringFull), d) == if d < p.n && !Lent(Release(p, key, ringFull), d) then 1 else 0
    {
      ReleaseMoves(p, key, ringFull, d);
    }
  }

  // Every other step leaves the pairing alone.
  predicate Internal(step: Step) {
    !step.Establish? && !step.Close?
  }

  lemma InternalMoves(p: Pool, step: Step, d: nat)
    requires Internal(step)
    ensures Alike(p, Next(p, step), d)
  {
    hide Alike;
    match step
    case Receive(key, len) => StaysPut(p, Redirect(p, key, len), d);
    case Deliver(a, marks) => StaysPut(p, Process(p, a, marks), d);
    case Collecting(now) => CollectMoves(p, now, d);
    case Wait(now) => StaysPut(p, p.(now := now), d);
    case Beginning(now) => BeginMoves(p, now, d);
    case Advancing(ok) => AdvanceMoves(p, ok, d);
  }

  lemma PartitionKept(p: Pool, step: Step)
    requires Partitioned(p) && Paired(p) && Enabled(p, step)
    ensures Partitioned(Next(p, step))
  {
    hide Idle, Tracked, UnderReset;
    if step.Establish? {
      if p.free != [] {
        hide Partitioned, Lend;
        LendPartitions(p, step.key, step.fails);
      }
    } else if step.Close? {
      if step.key in p.conns {
        hide Partitioned, Release;
        ReleasePartitions(p, step.key, step.ringFull);
      }
    } else {
      hide Next;
      forall d: nat
        ensures Idle(Next(p, step), d) == if d < p.n && !Lent(Next(p, step), d) then 1 else 0
      {
        InternalMoves(p, step, d);
      }
      InternalMoves(p, step, 0);
    }
  }

  // ---- the rest of the invariant ----

  predicate Recycling(step: Step) {
    step.Collecting? || step.Wait? || step.Beginning? || step.Advancing?
  }

  // What the kernel keeps for connections is none of the recycler's business.
  lemma RecyclerLeaves(p: Pool, step: Step)
    requires Recycling(step)
    ensures var p' := Next(p, step);
            && p'.conns == p.conns && p'.owners == p.owners && p'.queue == p.queue
            && p'.upgraded == p.upgraded && p'.flow == p.flow && p'.dirty == p.dirty
            && p'.current == p.current && p'.lendings == p.lendings
  {
    hide Advance, Collect, Begin;
    match step
    case Advancing(ok) => AdvanceLeaves(p, ok);
    case Collecting(now) => CollectLeaves(p, now);
    case Beginning(now) => BeginLeaves(p, now);
    case Wait(_) =>
  }

  lemma CollectLeaves(p: Pool, now: nat)
    ensures var p' := Collect(p, now);
            && p'.conns == p.conns && p'.owners == p.owners && p'.queue == p.queue
            && p'.upgraded == p.upgraded && p'.flow == p.flow && p'.dirty == p.dirty
            && p'.current == p.current && p'.lendings == p.lendings
  {
  }

  lemma BeginLeaves(p: Pool, now: nat)
    ensures var p' := Begin(p, now);
            && p'.conns == p.conns && p'.owners == p.owners && p'.queue == p.queue
            && p'.upgraded == p.upgraded && p'.flow == p.flow && p'.dirty == p.dirty
            && p'.current == p.current && p'.lendings == p.lendings
  {
  }

  lemma AdvanceLeaves(p: Pool, ok: bool)
    ensures var p' := Advance(p, ok);
            && p'.conns == p.conns && p'.owners == p.owners && p'.queue == p.queue
            && p'.upgraded == p.upgraded && p'.flow == p.flow && p'.dirty == p.dirty
            && p'.current == p.current && p'.lendings == p.lendings
  {
  }

  lemma LendPairs(p: Pool, key: Key, fails: bool)
    requires Paired(p) && Partitioned(p) && key !in p.conns && p.free != []
    ensures Paired(Lend(p, key, fails))
  {
    hide Idle, Tracked;
    FreeIsIdle(p);
    assert !Lent(p, p.free[0]);
  }

  lemma NothingToLend(p: Pool, key: Key, fails: bool)
    requires p.free == []
    ensures Lend(p, key, fails) == p
  {
  }

  lemma ReleasePairs(p: Pool, key: Key, ringFull: bool)
    requires Paired(p)
    ensures Paired(Release(p, key, ringFull))
  {
  }

  lemma PairingKept(p: Pool, step: Step)
    requires Paired(p) && Partitioned(p) && Enabled(p, step)
    ensures Paired(Next(p, step))
  {
    hide Partitioned, Lend, Release;
    if step.Establish? {
      if p.free == [] {
        NothingToLend(p, step.key, step.fails);
      } else {
        hide Paired;
        LendPairs(p, step.key, step.fails);
      }
    } else if step.Close? {
      hide Paired;
      ReleasePairs(p, step.key, step.ringFull);
    } else {
      hide Next, Enabled, Tracked, Idle;
      InternalMoves(p, step, 0);
    }
  }

  lemma BlankKept(p: Pool, step: Step)
    requires Blank(p) && Paired(p) && Enabled(p, step)
    ensures Blank(Next(p, step))
  {
    if Recycling(step) {
      hide Next;
      RecyclerLeaves(p, step);
    } else if step.Deliver? {
      ProcessBlanks(p, step.dummy, step.marks);
    }
  }

  lemma ProcessBlanks(p: Pool, d: nat, marks: Marks)
    requires Blank(p) && Paired(p)
    ensures Blank(Process(p, d, marks))
  {
  }

  lemma OrderKept(p: Pool, step: Step)
    requires InOrder(p) && Enabled(p, step)
    ensures InOrder(Next(p, step))
  {
    hide Lend, Release, Redirect, Process, Collect, Begin, Advance, InOrder;
    match step
    case Collecting(now) => CollectOrders(p, now);
    case Wait(now) => WaitOrders(p, now);
    case Beginning(now) => BeginOrders(p, now);
    case _ =>
      DequeLeft(p, step);
      OrderCarries(p, Next(p, step));
  }

  lemma OrderCarries(p: Pool, p': Pool)
    requires InOrder(p) && p'.aging == p.aging && p'.now == p.now
    ensures InOrder(p')
  {
  }

  lemma DequeLeft(p: Pool, step: Step)
    requires !step.Collecting? && !step.Wait? && !step.Beginning?
    ensures Next(p, step).aging == p.aging && Next(p, step).now == p.now
  {
    hide Lend, Release, Redirect, Process, Advance;
    match step
    case Establish(key, fails) => LendWaits(p, key, fails);
    case Close(key, ringFull) => ReleaseWaits(p, key, ringFull);
    case Receive(key, len) => RedirectWaits(p, key, len);
    case Deliver(d, marks) => ProcessWaits(p, d, marks);
    case Advancing(ok) => AdvanceWaits(p, ok);
  }

  // Steps that leave the deque alone.

  lemma LendWaits(p: Pool, key: Key, fails: bool)
    ensures Lend(p, key, fails).aging == p.aging && Lend(p, key, fails).now == p.now
  {
  }

  lemma ReleaseWaits(p: Pool, key: Key, ringFull: bool)
    ensures Release(p, key, ringFull).aging == p.aging && Release(p, key, ringFull).now == p.now
  {
  }

  lemma RedirectWaits(p: Pool, key: Key, len: nat)
    ensures Redirect(p, key, len).aging == p.aging && Redirect(p, key, len).now == p.now
  {
  }

  lemma ProcessWaits(p: Pool, d: nat, marks: Marks)
    ensures Process(p, d, marks).aging == p.aging && Process(p, d, marks).now == p.now
  {
  }

  lemma AdvanceWaits(p: Pool, ok: bool)
    ensures Advance(p, ok).aging == p.aging && Advance(p, ok).now == p.now
  {
  }

  // Steps that move it on.

  lemma CollectOrders(p: Pool, now: nat)
    requires InOrder(p) && now >= p.now
    ensures InOrder(Collect(p, now))
  {
  }

  lemma WaitOrders(p: Pool, now: nat)
    requires InOrder(p) && now >= p.now
    ensures InOrder(p.(now := now))
  {
  }

  lemma BeginOrders(p: Pool, now: nat)
    requires InOrder(p) && now >= p.now
    ensures InOrder(Begin(p, now))
  {
  }

  lemma LendTags(p: Pool, key: Key, fails: bool)
    requires Tagged(p) && Paired(p) && Clean(p) && key !in p.conns
    ensures Tagged(Lend(p, key, fails))
  {
    if p.free == [] {
      return;
    }
    assert p.free[0] in p.free;
    assert Queued(p, p.free[0]) == [];
    hide Clean;
    var p' := Lend(p, key, fails);
    forall d, i | Lent(p', d) && 0 <= i < |Queued(p', d)|
      ensures var s := Queued(p', d)[i];
              s.conn == p'.owners[d].conn && s.conn in p'.current && s.lending == p'.current[s.conn]
    {
      assert d != p.free[0] && Lent(p, d) && Queued(p', d) == Queued(p, d);
    }
  }

  lemma ReleaseTags(p: Pool, key: Key, ringFull: bool)
    requires Tagged(p) && Paired(p)
    ensures Tagged(Release(p, key, ringFull))
  {
    var p' := Release(p, key, ringFull);
    forall d, i | Lent(p', d) && 0 <= i < |Queued(p', d)|
      ensures var s := Queued(p', d)[i];
              s.conn == p'.owners[d].conn && s.conn in p'.current && s.lending == p'.current[s.conn]
    {
      assert Lent(p, d) && Queued(p', d) == Queued(p, d);
    }
  }

  lemma RedirectTags(p: Pool, key: Key, len: nat)
    requires Tagged(p) && Paired(p)
    ensures Tagged(Redirect(p, key, len))
  {
    var p' := Redirect(p, key, len);
    forall d, i | Lent(p', d) && 0 <= i < |Queued(p', d)|
      ensures var s := Queued(p', d)[i];
              s.conn == p'.owners[d].conn && s.conn in p'.current && s.lending == p'.current[s.conn]
    {
      assert Lent(p, d);
      assert i < |Queued(p, d)| ==> Queued(p', d)[i] == Queued(p, d)[i];
    }
  }

  lemma ProcessTags(p: Pool, a: nat, marks: Marks)
    requires Tagged(p)
    ensures Tagged(Process(p, a, marks))
  {
    var p' := Process(p, a, marks);
    forall d, i | Lent(p', d) && 0 <= i < |Queued(p', d)|
      ensures var s := Queued(p', d)[i];
              s.conn == p'.owners[d].conn && s.conn in p'.current && s.lending == p'.current[s.conn]
    {
      assert Lent(p, d);
      var k := if d == a && Queued(p, a) != [] then i + 1 else i;
      assert Queued(p', d)[i] == Queued(p, d)[k];
    }
  }

  lemma TagsKept(p: Pool, step: Step)
    requires Tagged(p) && Paired(p) && Clean(p) && Enabled(p, step)
    ensures Tagged(Next(p, step))
  {
    if Recycling(step) {
      hide Next, Clean, Paired, Enabled;
      RecyclerLeaves(p, step);
      var p' := Next(p, step);
      assert forall d :: Queued(p', d) == Queued(p, d) && Lent(p', d) == Lent(p, d);
    } else {
      hide Clean, Paired, Tagged, Redirect, Process, Release, Lend;
      match step
      case Establish(key, fails) => LendTags(p, key, fails);
      case Close(key, ringFull) => ReleaseTags(p, key, ringFull);
      case Receive(key, len) => RedirectTags(p, key, len);
      case Deliver(d, marks) => ProcessTags(p, d, marks);
    }
  }

  lemma NumbersKept(p: Pool, step: Step)
    requires Numbered(p) && Blank(p) && Enabled(p, step)
    ensures Numbered(Next(p, step))
  {
    if Recycling(step) {
      hide Next, Blank, Enabled;
      RecyclerLeaves(p, step);
      assert forall d :: Queued(Next(p, step), d) == Queued(p, d);
    } else {
      hide Numbered, Redirect, Process, Release, Lend;
      match step
      case Establish(key, fails) => LendNumbers(p, key, fails);
      case Close(key, ringFull) => ReleaseNumbers(p, key, ringFull);
      case Receive(key, len) => RedirectNumbers(p, key, len);
      case Deliver(d, marks) => ProcessNumbers(p, d, marks);
    }
  }

  lemma LendNumbers(p: Pool, key: Key, fails: bool)
    requires Numbered(p)
    ensures Numbered(Lend(p, key, fails))
  {
    assert forall d :: Queued(Lend(p, key, fails), d) == Queued(p, d);
  }

  lemma RedirectNumbers(p: Pool, key: Key, len: nat)
    requires Numbered(p)
    ensures Numbered(Redirect(p, key, len))
  {
    assert forall d, s :: s in Queued(Redirect(p, key, len), d) ==> s in Queued(p, d) || s.lending < p.lendings;
  }

  lemma ProcessNumbers(p: Pool, a: nat, marks: Marks)
    requires Numbered(p)
    ensures Numbered(Process(p, a, marks))
  {
    assert forall d, s :: s in Queued(Process(p, a, marks), d) ==> s in Queued(p, d);
  }

  lemma ReleaseNumbers(p: Pool, key: Key, ringFull: bool)
    requires Numbered(p)
    ensures Numbered(Release(p, key, ringFull))
  {
    assert forall d :: Queued(Release(p, key, ringFull), d) == Queued(p, d);
  }

  // ---- clean lending ----

  lemma InOnePlace(p: Pool, d: nat)
    requires Partitioned(p)
    ensures Lent(p, d) ==> d !in p.free && (p.reset.Some? ==> p.reset.value.dummy != d)
    ensures p.reset.Some? && p.reset.value.dummy == d ==> d !in p.free
  {
    hide Tracked;
    assert Idle(p, d) <= 1 && (Lent(p, d) ==> Idle(p, d) == 0);
    if p.reset.Some? {
      TimesOne(p.reset.value.dummy, d);
    }
    assert d in p.free ==> Times(p.free, d) >= 1;
  }

  // Nothing that could make a dummy dirty has changed.
  lemma CleanCarries(p: Pool, p': Pool)
    requires Clean(p) && p'.free == p.free && p'.mapped == p.mapped && p'.worn == p.worn && p'.erred == p.erred && p'.parsed == p.parsed
    requires p'.queue == p.queue && p'.reset == p.reset && forall d :: Lent(p', d) ==> Lent(p, d)
    ensures Clean(p')
  {
    hide Lent;
    assert forall d :: Queued(p', d) == Queued(p, d);
    assert forall d :: Fresh(p, d) ==> Fresh(p', d);
  }

  lemma ReleaseCleans(p: Pool, key: Key, ringFull: bool)
    requires Clean(p)
    ensures Clean(Release(p, key, ringFull))
  {
    hide Clean;
    CleanCarries(p, Release(p, key, ringFull));
  }

  lemma CollectCleans(p: Pool, now: nat)
    requires Clean(p)
    ensures Clean(Collect(p, now))
  {
    hide Clean;
    CleanCarries(p, Collect(p, now));
  }

  lemma BeginCleans(p: Pool, now: nat)
    requires Clean(p) && (p.aging != [] ==> Queued(p, p.aging[0].dummy) == [])
    ensures Clean(Begin(p, now))
  {
    var p' := Begin(p, now);
    assert forall d :: Queued(p', d) == Queued(p, d);
    assert forall d :: Fresh(p, d) ==> Fresh(p', d);
    assert forall d :: Lent(p', d) == Lent(p, d);
  }

  lemma LendCleans(p: Pool, key: Key, fails: bool)
    requires Clean(p) && p.free != []
    ensures Clean(Lend(p, key, fails))
  {
    assert p.free[0] in p.free;
    var p' := Lend(p, key, fails);
    assert forall d :: d in p'.free ==> d in p.free;
    assert forall d :: Fresh(p, d) ==> Fresh(p', d);
    assert forall d :: Lent(p', d) ==> Lent(p, d) || d == p.free[0];
  }

  lemma RedirectCleans(p: Pool, key: Key, len: nat)
    requires Clean(p) && Paired(p) && Partitioned(p)
    ensures Clean(Redirect(p, key, len))
  {
    hide Partitioned;
    if key in p.conns {
      var d := p.conns[key];
      InOnePlace(p, d);
      var p' := Redirect(p, key, len);
      assert forall e :: e != d ==> Queued(p', e) == Queued(p, e);
      assert forall e :: e != d && Fresh(p, e) ==> Fresh(p', e);
    }
  }

  lemma ProcessCleans(p: Pool, d: nat, marks: Marks)
    requires Clean(p) && Partitioned(p)
    ensures Clean(Process(p, d, marks))
  {
    hide Partitioned;
    if Queued(p, d) != [] {
      InOnePlace(p, d);
      var p' := Process(p, d, marks);
      assert forall e :: e != d ==> Queued(p', e) == Queued(p, e);
      assert forall e :: e != d && Fresh(p, e) ==> Fresh(p', e);
    }
  }

  lemma AdvanceCleans(p: Pool, ok: bool)
    requires Clean(p) && Partitioned(p)
    ensures Clean(Advance(p, ok))
  {
    hide Partitioned;
    if p.reset.Some? {
      var d := p.reset.value.dummy;
      InOnePlace(p, d);
      var p' := Advance(p, ok);
      assert forall e :: Queued(p', e) == Queued(p, e);
      assert forall e :: e != d && Fresh(p, e) ==> Fresh(p', e);
    }
  }

  lemma CleanKept(p: Pool, step: Step)
    requires Clean(p) && Paired(p) && Partitioned(p) && Enabled(p, step)
    ensures Clean(Next(p, step))
  {
    hide Partitioned, Clean, Lend, Release, Redirect, Process, Collect, Begin, Advance;
    match step
    case Establish(key, fails) =>
      if p.free == [] {
        NothingToLend(p, key, fails);
      } else {
        LendCleans(p, key, fails);
      }
    case Close(key, ringFull) => ReleaseCleans(p, key, ringFull);
    case Receive(key, len) => RedirectCleans(p, key, len);
    case Deliver(d, marks) => ProcessCleans(p, d, marks);
    case Collecting(now) => CollectCleans(p, now);
    case Wait(now) => CleanCarries(p, p.(now := now));
    case Beginning(now) => BeginCleans(p, now);
    case Advancing(ok) => AdvanceCleans(p, ok);
  }

  /** Every reachable pool is sound: it starts out that way and every step keeps it. */
  lemma NextKeeps(p: Pool, step: Step)
    requires Sound(p) && Enabled(p, step)
    ensures Sound(Next(p, step))
  {
    hide Next, Enabled, Partitioned, Paired, Blank, Clean, Tagged, Numbered, InOrder;
    PartitionKept(p, step);
    PairingKept(p, step);
    BlankKept(p, step);
    OrderKept(p, step);
    TagsKept(p, step);
    NumbersKept(p, step);
    CleanKept(p, step);
  }

  lemma {:induction false} AlwaysSound(p: Pool, steps: seq<Step>)
    requires Sound(p) && Possible(p, steps)
    ensures Sound(After(p, steps))
    decreases |steps|
  {
    hide Sound, Next, Enabled;
    if steps != [] {
      NextKeeps(p, steps[0]);
      AlwaysSound(Next(p, steps[0]), steps[1..]);
    }
  }

  // ---- what that comes to ----

  datatype Place = Free | LentOut | Released | Quarantined | BeingReset | Lost

  predicate At(p: Pool, d: nat, place: Place) {
    match place
    case Free => d in p.free
    case LentOut => Lent(p, d)
    case Released => d in p.ring
    case Quarantined => d in Dummies(p.aging)
    case BeingReset => d in UnderReset(p)
    case Lost => d in p.lost
  }

  lemma IsIn(s: seq<nat>, d: nat)
    ensures d in s <==> Times(s, d) > 0
  {
  }

  /** On every run each dummy is in exactly one place at any time. */
  lemma ExactlyOnePlace(n: nat, steps: seq<Step>, d: nat)
    requires Possible(Opened(n), steps) && d < n
    ensures var p := After(Opened(n), steps);
            exists place :: At(p, d, place) && forall other :: At(p, d, other) ==> other == place
  {
    hide Possible, After;
    OpenedSound(n);
    AlwaysSound(Opened(n), steps);
    StaysN(Opened(n), steps);
    OneOf(After(Opened(n), steps), d);
  }

  lemma {:induction false} StaysN(p: Pool, steps: seq<Step>)
    ensures After(p, steps).n == p.n
    decreases |steps|
  {
    if steps != [] {
      StaysN(Next(p, steps[0]), steps[1..]);
    }
  }

  lemma OneOf(p: Pool, d: nat)
    requires Partitioned(p) && d < p.n
    ensures exists place :: At(p, d, place) && forall other :: At(p, d, other) ==> other == place
  {
    hide Tracked, Times, Dummies, UnderReset, Lent;
    IsIn(p.free, d);
    IsIn(p.ring, d);
    IsIn(Dummies(p.aging), d);
    IsIn(UnderReset(p), d);
    IsIn(p.lost, d);
    assert Idle(p, d) == if Lent(p, d) then 0 else 1;
    var place := if Lent(p, d) then LentOut else if d in p.free then Free else if d in p.ring then Released
      else if d in Dummies(p.aging) then Quarantined else if d in UnderReset(p) then BeingReset else Lost;
    assert At(p, d, place);
  }

  /** No two connections hold the same dummy, and a dummy knows who holds it. */
  lemma OwnersMatch(n: nat, steps: seq<Step>)
    requires Possible(Opened(n), steps)
    ensures var p := After(Opened(n), steps);
            && (forall k, l :: k in p.conns && l in p.conns && p.conns[k] == p.conns[l] ==> k == l)
            && (forall k, d :: k in p.conns && p.conns[k] == d <==> d in p.owners && p.owners[d] == Owner(k, true))
  {
    hide Possible, After, Partitioned, Clean, Tagged, Numbered, InOrder;
    OpenedSound(n);
    AlwaysSound(Opened(n), steps);
  }

  /** The connection that sent `s` is still live and still the one that holds `d`. */
  predicate Holds(p: Pool, s: Sent, d: nat) {
    && s.conn in p.conns && p.conns[s.conn] == d
    && s.conn in p.current && p.current[s.conn] == s.lending
  }

  /**
   Exclusivity. On every run, a message on the backlog of a dummy is taken to come from the
   connection that sent it as long as that connection holds the dummy, and is dropped afterwards. It
   never is taken to come from another connection, or from a later one under the same key.
   */
  lemma RecoversSender(n: nat, steps: seq<Step>, d: nat)
    requires Possible(Opened(n), steps) && Queued(After(Opened(n), steps), d) != []
    ensures var p, s := After(Opened(n), steps), Queued(After(Opened(n), steps), d)[0];
            Recover(p, d) == if Holds(p, s, d) then From(s.conn) else Dropped
  {
    hide Possible, After, Partitioned, Clean, InOrder;
    OpenedSound(n);
    AlwaysSound(Opened(n), steps);
  }

  /** Clean lending. A connection that is lent a dummy finds neither in it nor under its key what another left. */
  lemma LendsClean(n: nat, steps: seq<Step>, key: Key)
    requires Possible(Opened(n), steps) && After(Opened(n), steps).free != [] && key !in After(Opened(n), steps).conns
    ensures var p, p' := After(Opened(n), steps), Lend(After(Opened(n), steps), key, false);
            var d := p.free[0];
            && p'.conns[key] == d && !Lent(p, d) && Fresh(p', d)
            && key !in p'.upgraded && key !in p'.flow && key !in p'.dirty
            && (forall e, s :: s in Queued(p', e) ==> s.lending != p'.current[key])
  {
    hide Possible, After, Tagged, InOrder, Idle, Tracked;
    OpenedSound(n);
    AlwaysSound(Opened(n), steps);
    var p := After(Opened(n), steps);
    assert p.free[0] in p.free && Fresh(p, p.free[0]);
    FreeIsIdle(p);
    assert forall e :: Queued(Lend(p, key, false), e) == Queued(p, e);
  }

  /**
   Capacity. `conn_dummy` and the maps of a connection's state never outgrow the pool, there is room
   for a connection whenever there is a dummy for it, and for a dummy whenever one comes back.
   */
  lemma NeverOverflows(n: nat, steps: seq<Step>)
    requires Possible(Opened(n), steps)
    ensures var p := After(Opened(n), steps);
            && |p.conns| <= n && |p.upgraded| <= n && |p.flow| <= n && |p.dirty| <= n
            && (p.free != [] ==> |p.conns| < n) && |p.free| <= n
            && (p.reset.Some? ==> |p.free| < n)
            && |p.ring| <= n
  {
    hide Possible, After, Tagged, Clean, Paired, Numbered, InOrder;
    OpenedSound(n);
    AlwaysSound(Opened(n), steps);
    StaysN(Opened(n), steps);
    var p := After(Opened(n), steps);
    SubsetSize(p.upgraded, p.conns.Keys);
    SubsetSize(p.flow, p.conns.Keys);
    SubsetSize(p.dirty, p.conns.Keys);
    assert |p.conns.Keys| == |p.conns|;
  }

  lemma {:induction false} SubsetSize(a: set<Key>, b: set<Key>)
    requires a <= b
    ensures |a| <= |b|
  {
    if a != {} {
      var k :| k in a;
      SubsetSize(a - {k}, b - {k});
    }
  }

  /** A dummy is lost only if the ring buffer was full or a call of a reset failed. */
  lemma {:induction false} LostOnlyToFaults(p: Pool, steps: seq<Step>)
    requires forall s :: s in steps ==> (s.Close? ==> !s.ringFull) && (s.Advancing? ==> s.ok)
    ensures After(p, steps).lost == p.lost
    decreases |steps|
  {
    if steps != [] {
      LostToFault(p, steps[0]);
      hide Next;
      LostOnlyToFaults(Next(p, steps[0]), steps[1..]);
    }
  }

  lemma LostToFault(p: Pool, step: Step)
    requires (step.Close? ==> !step.ringFull) && (step.Advancing? ==> step.ok)
    ensures Next(p, step).lost == p.lost
  {
  }

  /** Without faults every dummy not lent out is on its way back to being lent. */
  lemma NothingLeaks(n: nat, steps: seq<Step>)
    requires Possible(Opened(n), steps)
    requires forall s :: s in steps ==> (s.Close? ==> !s.ringFull) && (s.Advancing? ==> s.ok)
    ensures var p := After(Opened(n), steps);
            |p.free| + |p.conns| + |p.ring| + |p.aging| + (if p.reset.Some? then 1 else 0) == n
  {
    hide Possible, After, Paired, Blank, Clean, Tagged, Numbered, InOrder;
    OpenedSound(n);
    AlwaysSound(Opened(n), steps);
    StaysN(Opened(n), steps);
    LostOnlyToFaults(Opened(n), steps);
  }
  // ---- the quarantine ----

  /** When each dummy was last taken off the ring buffer, read off the steps of a run. */
  ghost function CollectedAt(p: Pool, steps: seq<Step>, at: map<nat, nat>): map<nat, nat>
    decreases |steps|
  {
    if steps == [] then at
    else
      var later := if steps[0].Collecting? && p.ring != [] then at[p.ring[0] := steps[0].now] else at;
      CollectedAt(Next(p, steps[0]), steps[1..], later)
  }

  ghost predicate Stamped(p: Pool, at: map<nat, nat>) {
    forall i :: 0 <= i < |p.aging| ==> p.aging[i].dummy in at && at[p.aging[i].dummy] == p.aging[i].at
  }

  lemma NotTwice(p: Pool, i: nat)
    requires Partitioned(p) && p.ring != [] && i < |p.aging|
    ensures p.aging[i].dummy != p.ring[0]
  {
    hide Tracked;
    var d, e := p.ring[0], p.aging[i].dummy;
    assert d in p.ring && e == Dummies(p.aging)[i] && e in Dummies(p.aging);
    IsIn(p.ring, d);
    IsIn(Dummies(p.aging), e);
    hide Times;
    assert Idle(p, e) <= 1;
  }

  lemma CollectStamps(p: Pool, at: map<nat, nat>, now: nat)
    requires Stamped(p, at) && Partitioned(p)
    ensures Stamped(Collect(p, now), if p.ring != [] then at[p.ring[0] := now] else at)
  {
    hide Partitioned;
    if p.ring != [] {
      forall i | 0 <= i < |p.aging| ensures p.aging[i].dummy != p.ring[0] {
        NotTwice(p, i);
      }
    }
  }

  lemma BeginStamps(p: Pool, at: map<nat, nat>, now: nat)
    requires Stamped(p, at)
    ensures Stamped(Begin(p, now), at)
  {
  }

  lemma {:induction false} AlwaysStamped(p: Pool, steps: seq<Step>, at: map<nat, nat>)
    requires Sound(p) && Possible(p, steps) && Stamped(p, at)
    ensures Stamped(After(p, steps), CollectedAt(p, steps, at))
    decreases |steps|
  {
    hide Next, Enabled, Stamped, Partitioned, Paired, Blank, Clean, Tagged, Numbered, InOrder;
    if steps != [] {
      var step, p' := steps[0], Next(p, steps[0]);
      var later := if step.Collecting? && p.ring != [] then at[p.ring[0] := step.now] else at;
      NextKeeps(p, step);
      StepStamps(p, step, at);
      AlwaysStamped(p', steps[1..], later);
    }
  }

  lemma StepStamps(p: Pool, step: Step, at: map<nat, nat>)
    requires Partitioned(p) && Stamped(p, at)
    ensures Stamped(Next(p, step), if step.Collecting? && p.ring != [] then at[p.ring[0] := step.now] else at)
  {
    hide Collect, Begin, Partitioned;
    match step
    case Collecting(now) =>
      hide Stamped;
      CollectStamps(p, at, now);
    case Beginning(now) =>
      hide Stamped;
      BeginStamps(p, at, now);
    case Wait(_) =>
    case _ =>
      hide Next;
      DequeLeft(p, step);
  }

  /**
   Quarantine, on every run: a dummy whose reset begins was taken off the ring buffer at least 100
   milliseconds before, and none that still waits was taken off earlier.
   */
  lemma QuarantineHolds(n: nat, steps: seq<Step>, now: nat)
    requires Possible(Opened(n), steps + [Beginning(now)])
    requires After(Opened(n), steps).aging != [] && After(Opened(n), steps).reset == None
    ensures var p, at := After(Opened(n), steps), CollectedAt(Opened(n), steps, map[]);
            var d := p.aging[0].dummy;
            && Next(p, Beginning(now)).reset == Some(Resetting(d, 0))
            && d in at && at[d] + 100 <= now
            && (forall i :: 0 <= i < |p.aging| ==> p.aging[i].dummy in at && at[d] <= at[p.aging[i].dummy])
  {
    hide After, Possible, Partitioned, Paired, Blank, Clean, Tagged, Numbered, CollectedAt;
    OpenedSound(n);
    AfterAppend(Opened(n), steps, Beginning(now));
    AlwaysSound(Opened(n), steps);
    AlwaysStamped(Opened(n), steps, map[]);
  }

  // ---- what a client sends gets through ----

  /** In every state, what a live connection sends joins the end of its own dummy's backlog. */
  lemma SentIsQueued(n: nat, steps: seq<Step>, key: Key, len: nat)
    requires Possible(Opened(n), steps) && key in After(Opened(n), steps).conns && len > 0
    ensures var p, p' := After(Opened(n), steps), Redirect(After(Opened(n), steps), key, len);
            var d := p.conns[key];
            && key in p.current && Queued(p', d) == Queued(p, d) + [Sent(key, p.current[key])]
            && Recover(p', d) == From(key)
            && (forall e :: e != d ==> Queued(p', e) == Queued(p, e))
  {
    hide Possible, After, Partitioned, Tagged, Numbered, InOrder;
    OpenedSound(n);
    AlwaysSound(Opened(n), steps);
  }

  /** Running the program takes exactly the first message off the backlog of its dummy. */
  lemma OneMessageProcessed(p: Pool, d: nat, marks: Marks)
    requires Queued(p, d) != []
    ensures Queued(p, d) == [Queued(p, d)[0]] + Queued(Process(p, d, marks), d)
    ensures forall e :: e != d ==> Queued(Process(p, d, marks), e) == Queued(p, e)
  {
  }
}
