/** How the kernel programs lend dummies and take them back, and how user space resets them. */
module Dummies {
  import opened Wire
  import opened DummyPool

  /** What `add_conn` depends on: two map updates, the socket's flags and the update of `sock_map`. */
  datatype Faults = Faults(owner: bool, conn: bool, flags: bool, sock: bool)
  {
    predicate Any() {
      owner || conn || flags || sock
    }
  }

  datatype SkbVerdict = Drop | Pass | Redirected(dummy: nat)

  class Maps {
    const n: nat

    var free: seq<nat>
    var conns: map<Key, nat>
    var owners: map<nat, Owner>
    var mapped: set<nat>
    var upgraded: set<Key>
    var flow: set<Key>
    var dirty: set<Key>
    var ring: seq<nat>

    // the recycler's deque, and what the clock last read
    var aging: seq<Aged>
    var now: nat

    // the parser's table entries, by dummy
    var parsed: set<nat>

    // what only the kernel sees, and what the proof keeps track of
    ghost var queue: map<nat, seq<Sent>>
    ghost var worn: set<nat>
    ghost var erred: set<nat>
    ghost var reset: Option<Resetting>
    ghost var lost: seq<nat>
    ghost var current: map<Key, nat>
    ghost var lendings: nat

    ghost function View(): Pool
      reads this
    {
      Pool(n, free, conns, owners, mapped, upgraded, flow, dirty, ring, aging, reset, lost,
                worn, erred, parsed, queue, current, lendings, now)
    }

    /** `DummyPool::new`: opens `n` dummies, all of them free. */
    constructor (n: nat)
      requires 0 < n <= MAX_DUMMIES
      ensures View() == Opened(n)
    {
      this.n := n;
      free, ring, aging, now := [], [], [], 0;
      conns, owners, queue := map[], map[], map[];
      mapped, upgraded, flow, dirty, parsed := {}, {}, {}, {}, {};
      worn, erred, reset, lost, current, lendings := {}, {}, None, [], map[], 0;
      new;
      for idx := 0 to n
        invariant View() == Opened(n).(free := UpTo(idx), mapped := set d | d in UpTo(idx))
      {
        assert UpTo(idx + 1) == UpTo(idx) + [idx];
        mapped := mapped + {idx};
        free := free + [idx];
      }
    }

    /** `add_conn`. */
    method AddConn(key: Key, faults: Faults) returns (added: bool)
      modifies this`free, this`owners, this`conns, this`current, this`lendings
      ensures View() == Lend(old(View()), key, faults.Any())
      ensures added <==> old(free) != [] && !faults.Any()
    {
      if free == [] {
        return false;
      }
      var dummy := free[0];
      free := free[1..];
      added := LendTo(key, dummy, faults);
    }

    // what `add_conn` does with the dummy it took
    method LendTo(key: Key, dummy: nat, faults: Faults) returns (added: bool)
      modifies this`free, this`owners, this`conns, this`current, this`lendings
      ensures added <==> !faults.Any()
      ensures added ==> View() == old(View()).(owners := old(owners)[dummy := Owner(key, true)], conns := old(conns)[key := dummy],
                                               current := old(current)[key := old(lendings)], lendings := old(lendings) + 1)
      ensures !added ==> View() == old(View()).(free := old(free) + [dummy], conns := old(conns) - {key},
                                                owners := old(owners)[dummy := Owner(key, false)])
    {
      added := Register(key, dummy, faults);
      if added {
        current, lendings := current[key := lendings], lendings + 1;
      } else {
        RollBack(key, dummy, old(conns), old(owners));
      }
    }

    // the calls of `add_conn` that can fail
    method Register(key: Key, dummy: nat, faults: Faults) returns (ok: bool)
      modifies this`owners, this`conns
      ensures ok <==> !faults.Any()
      ensures owners == old(owners) || owners == old(owners)[dummy := Owner(key, true)]
      ensures conns == old(conns) || conns == old(conns)[key := dummy]
      ensures ok ==> owners == old(owners)[dummy := Owner(key, true)] && conns == old(conns)[key := dummy]
    {
      if faults.owner {
        return false;
      }
      owners := owners[dummy := Owner(key, true)];
      if faults.conn {
        return false;
      }
      conns := conns[key := dummy];
      ok := !faults.flags && !faults.sock;
    }

    // where `add_conn` jumps to when something failed
    method RollBack(key: Key, dummy: nat, ghost was: map<Key, nat>, ghost ownersWere: map<nat, Owner>)
      requires conns == was || conns == was[key := dummy]
      requires owners == ownersWere || owners == ownersWere[dummy := Owner(key, true)]
      modifies this`free, this`owners, this`conns
      ensures free == old(free) + [dummy] && conns == was - {key} && owners == ownersWere[dummy := Owner(key, false)]
    {
      conns := conns - {key};
      owners := owners[dummy := Owner(key, false)];
      free := free + [dummy];
    }

    /** `remove_conn`. */
    method RemoveConn(key: Key, ringFull: bool)
      modifies this`conns, this`current, this`owners, this`upgraded, this`flow, this`dirty, this`ring, this`lost
      ensures View() == Release(old(View()), key, ringFull)
    {
      if key !in conns {
        return;
      }
      var dummy := conns[key];
      Take(key);
      Output(dummy, ringFull);
    }

    method Take(key: Key)
      requires key in conns
      modifies this`conns, this`current, this`owners, this`upgraded, this`flow, this`dirty
      ensures View() == Detach(old(View()), key)
    {
      var dummy := conns[key];
      conns := conns - {key};
      owners := owners[dummy := Owner(key, false)];
      upgraded := upgraded - {key};
      flow := flow - {key};
      dirty := dirty - {key};
      current := current - {key};
    }

    // `bpf_ringbuf_output`
    method Output(dummy: nat, full: bool)
      modifies this`ring, this`lost
      ensures View() == if full then old(View()).(lost := old(lost) + [dummy]) else old(View()).(ring := old(ring) + [dummy])
    {
      if full {
        lost := lost + [dummy];
      } else {
        ring := ring + [dummy];
      }
    }

    /** `skb_verdict`, on `len` bytes a client sent. */
    method Skb(key: Key, len: nat) returns (v: SkbVerdict)
      requires conns.Keys == current.Keys
      modifies this`queue, this`worn, this`erred
      ensures View() == Redirect(old(View()), key, len)
      ensures v == if key !in conns then Drop else if len == 0 then Pass
                   else if conns[key] in mapped then Redirected(conns[key]) else Drop
    {
      if key !in conns {
        return Drop;
      }
      if len == 0 {
        return Pass;
      }
      var dummy := conns[key];
      if dummy !in mapped {
        return Drop;
      }
      queue := queue[dummy := Queued(View(), dummy) + [Sent(key, current[key])]];
      worn, erred := worn + {dummy}, erred + {dummy};
      v := Redirected(dummy);
    }

    /** `msg_verdict`, on the next message on the backlog of `dummy`: whom it takes it to be from, and what it leaves behind. */
    method Message(dummy: nat, marks: Marks) returns (from: Recovered)
      requires Queued(View(), dummy) != []
      modifies this`queue, this`upgraded, this`flow, this`dirty, this`parsed
      ensures View() == Process(old(View()), dummy, marks)
      ensures from == Recover(old(View()), dummy)
      ensures from.From? ==>
                && (marks.upgraded ==> from.conn in upgraded && from.conn in flow)
                && (marks.dirty ==> from.conn in dirty) && (marks.parsed ==> dummy in parsed)
      ensures from.Dropped? ==>
                upgraded == old(upgraded) && flow == old(flow) && dirty == old(dirty) && parsed == old(parsed)
    {
      hide Mark;
      queue := queue[dummy := Queued(View(), dummy)[1..]];
      if dummy !in owners || !owners[dummy].active {
        return Dropped;
      }
      from := From(owners[dummy].conn);
      LeaveMarks(owners[dummy].conn, dummy, marks);
    }

    // what running the program on a message of `conn` leaves behind
    method LeaveMarks(conn: Key, dummy: nat, marks: Marks)
      modifies this`upgraded, this`flow, this`dirty, this`parsed
      ensures View() == Mark(old(View()), conn, dummy, marks)
      ensures upgraded == if marks.upgraded then old(upgraded) + {conn} else old(upgraded)
      ensures flow == if marks.upgraded then old(flow) + {conn} else old(flow)
      ensures dirty == if marks.dirty then old(dirty) + {conn} else old(dirty)
      ensures parsed == if marks.parsed then old(parsed) + {dummy} else old(parsed)
    {
      if marks.parsed {
        parsed := parsed + {dummy};
      }
      if marks.upgraded {
        upgraded, flow := upgraded + {conn}, flow + {conn};
      }
      if marks.dirty {
        dirty := dirty + {conn};
      }
    }

    // takes the first dummy off the deque
    method PopFront() returns (idx: nat)
      requires aging != [] && reset == None
      modifies this`aging, this`reset
      ensures idx == old(aging)[0].dummy && aging == old(aging)[1..] && reset == Some(Resetting(idx, 0))
      ensures View() == Next(old(View()), Beginning(now))
    {
      idx := aging[0].dummy;
      aging := aging[1..];
      reset := Some(Resetting(idx, 0));
    }

    /** The callback on a released dummy, at `instant`. It is stamped with the time it was collected at. */
    method OnReleased(instant: nat)
      requires ring != [] && instant >= now
      modifies this`ring, this`aging, this`now
      ensures View() == Collect(old(View()), instant)
      ensures aging == old(aging) + [Aged(old(ring)[0], instant)] && ring == old(ring)[1..]
    {
      now := instant;
      aging := aging + [Aged(ring[0], now)];
      ring := ring[1..];
    }

    // The calls a reset is made of. `Lose` is what it comes to if one of them fails.

    method Delete(idx: nat)
      requires reset == Some(Resetting(idx, 0))
      modifies this`mapped, this`reset
      ensures View() == Next(old(View()), Advancing(true)) && reset == Some(Resetting(idx, 1))
    {
      mapped := mapped - {idx};
      reset := Some(Resetting(idx, 1));
    }

    ghost method TakeError(idx: nat)
      requires reset == Some(Resetting(idx, 1))
      modifies this`erred, this`reset
      ensures View() == Next(old(View()), Advancing(true)) && reset == Some(Resetting(idx, 2))
    {
      erred := erred - {idx};
      reset := Some(Resetting(idx, 2));
    }

    method AddAgain(idx: nat)
      requires reset == Some(Resetting(idx, 2))
      modifies this`mapped, this`worn, this`reset
      ensures View() == Next(old(View()), Advancing(true)) && reset == Some(Resetting(idx, 3))
    {
      mapped := mapped + {idx};
      worn := worn - {idx};
      reset := Some(Resetting(idx, 3));
    }

    method Forget(idx: nat)
      requires reset == Some(Resetting(idx, 3))
      modifies this`parsed, this`reset
      ensures View() == Next(old(View()), Advancing(true)) && reset == Some(Resetting(idx, 4))
    {
      parsed := parsed - {idx};
      reset := Some(Resetting(idx, 4));
    }

    method PutBack(idx: nat)
      requires reset == Some(Resetting(idx, 4))
      modifies this`free, this`reset
      ensures View() == Next(old(View()), Advancing(true)) && reset == None && free == old(free) + [idx]
    {
      free := free + [idx];
      reset := None;
    }

    ghost method Lose()
      requires reset.Some?
      modifies this`reset, this`lost
      ensures View() == Next(old(View()), Advancing(false)) && reset == None
    {
      lost := lost + [reset.value.dummy];
      reset := None;
    }

    /**
     `reset`: makes the calls in order until `failing` of them have succeeded and the next one fails.
     Only a dummy all of them succeed for goes back into the pool.
     */
    method Reset(idx: nat, failing: nat) returns (ok: bool, ghost steps: seq<Step>)
      requires reset == Some(Resetting(idx, 0))
      modifies this`mapped, this`parsed, this`free, this`worn, this`erred, this`reset, this`lost
      ensures reset == None && (ok <==> failing >= STAGES && idx < n)
      ensures free == if ok then old(free) + [idx] else old(free)
      ensures steps == Calls(if idx < n then failing else 0)
      ensures View() == After(old(View()), steps) && Possible(old(View()), steps)
    {
      ghost var p0 := View();
      steps := [];
      hide View, Next, After, Possible, Enabled;
      NoSteps(p0);
      ok := idx < n && failing > 0;
      if ok {
        Delete(idx);
        Called(p0, steps, true);
        steps := steps + [Advancing(true)];
        ok := failing > 1;
      }
      if ok {
        TakeError(idx);
        Called(p0, steps, true);
        steps := steps + [Advancing(true)];
        ok := failing > 2;
      }
      if ok {
        AddAgain(idx);
        Called(p0, steps, true);
        steps := steps + [Advancing(true)];
        ok := failing > 3;
      }
      if ok {
        Forget(idx);
        Called(p0, steps, true);
        steps := steps + [Advancing(true)];
        ok := failing > 4;
      }
      if ok {
        PutBack(idx);
        Called(p0, steps, true);
        steps := steps + [Advancing(true)];
      } else {
        Lose();
        Called(p0, steps, false);
        steps := steps + [Advancing(false)];
      }
    }

    // one turn of the inner loop of `recycle`, with the clock at `instant`
    method RecycleFront(instant: nat, failing: nat) returns (again: bool, ghost steps: seq<Step>)
      requires reset == None && aging != [] && instant >= now
      modifies this`mapped, this`parsed, this`free, this`worn, this`erred, this`reset, this`lost, this`aging, this`now
      ensures reset == None && now == instant
      ensures again <==> instant >= old(aging)[0].at + 100
      ensures aging == if again then old(aging)[1..] else old(aging)
      ensures free == if again && failing >= STAGES && old(aging)[0].dummy < n then old(free) + [old(aging)[0].dummy] else old(free)
      ensures View() == After(old(View()), steps)
      ensures AllQuiet(old(View())) ==> Possible(old(View()), steps) && AllQuiet(View())
    {
      hide After, Possible, Next, AllQuiet;
      QuietFront(View());
      ghost var p0 := View();
      var at := aging[0].at;
      now := instant;
      assert View() == Next(p0, Wait(now)) by { Waited(p0, now); }
      NoSteps(p0);
      AfterAppend(p0, [], Wait(now));
      steps := [] + [Wait(now)];
      if now - at < QUARANTINE {
        QuietOn(p0, View(), 0);
        return false, steps;
      }
      ghost var p1 := View();
      var idx := PopFront();
      AfterAppend(p0, steps, Beginning(now));
      assert Queued(p1, idx) == Queued(p0, idx);
      steps := steps + [Beginning(now)];
      hide Enabled;
      var ok, calls := Reset(idx, failing);
      AfterConcat(p0, steps, calls);
      steps := steps + calls;
      again := true;
      QuietOn(p0, View(), 1);
    }

    /**
     The inner loop of `recycle`. `clock` is what each look at the clock shows, and `failing` how many
     calls of each reset succeed. It resets exactly the dummies at the front of the deque that turn out to
     have been left alone for long enough, and every one whose reset succeeds is free again, in the order
     they were released. All of it is steps the pool can take, if such a dummy has an empty backlog.
     */
    method Recycle(clock: seq<nat>, failing: seq<nat>) returns (ghost steps: seq<Step>, ghost done: nat)
      requires reset == None && |clock| > |aging| && |failing| >= |aging|
      requires clock[0] >= now && Monotone(clock)
      modifies this`mapped, this`parsed, this`free, this`worn, this`erred, this`reset, this`lost, this`aging, this`now
      ensures reset == None
      ensures View() == After(old(View()), steps)
      ensures AllQuiet(old(View())) ==> Possible(old(View()), steps)
      ensures done <= |old(aging)| && aging == old(aging)[done..]
      ensures LeftAlone(old(aging), clock, done)
      ensures Sorted(old(aging)) ==> forall i :: 0 <= i < |aging| ==> clock[done] < aging[i].at + 100
      ensures free == old(free) + Returned(old(aging), failing, n, done)
    {
      hide View, After, Possible, Sorted, Returned, LeftAlone, AllQuiet, Monotone;
      ghost var p0, was := View(), aging;
      var i := 0;
      NoneReturned(was, clock, failing, n);
      steps, done := [], 0;
      NoSteps(p0);
      assert free == free + [];
      while aging != []
        invariant i == done <= |was| && aging == was[i..]
        invariant reset == None && now <= clock[i]
        invariant View() == After(p0, steps)
        invariant AllQuiet(p0) ==> Possible(p0, steps) && AllQuiet(View())
        invariant LeftAlone(was, clock, i)
        invariant free == old(free) + Returned(was, failing, n, i)
        decreases |aging|
      {
        var again, more := RecycleFront(clock[i], failing[i]);
        AfterConcat(p0, steps, more);
        steps := steps + more;
        if !again {
          RestIsYounger(was, i, clock[i]);
          break;
        }
        OneReturned(was, clock, failing, n, i);
        NextReading(clock, i);
        i := i + 1;
        done := i;
      }
    }
  }

  /** The first `k` dummies of the deque, without those whose reset failed. */
  function Returned(aging: seq<Aged>, failing: seq<nat>, n: nat, k: nat): seq<nat>
    requires k <= |aging| && k <= |failing|
  {
    if k == 0 then []
    else
      Returned(aging, failing, n, k - 1)
      + if failing[k - 1] >= 5 && aging[k - 1].dummy < n then [aging[k - 1].dummy] else []
  }

  /** The first `k` dummies of the deque had been there for at least 100 milliseconds when the clock was looked at. */
  ghost predicate LeftAlone(aging: seq<Aged>, clock: seq<nat>, k: nat) {
    k <= |aging| && k <= |clock| && forall i :: 0 <= i < k ==> clock[i] >= aging[i].at + 100
  }

  /** A clock that never goes back. */
  ghost predicate Monotone(clock: seq<nat>) {
    forall i, j :: 0 <= i < j < |clock| ==> clock[i] <= clock[j]
  }

  lemma NextReading(clock: seq<nat>, i: nat)
    requires Monotone(clock)
    ensures i + 1 < |clock| ==> clock[i] <= clock[i + 1]
  {
  }

  /** Nothing waits on the backlog of a dummy on the deque. */
  ghost predicate AllQuiet(p: Pool) {
    forall i :: 0 <= i < |p.aging| ==> Queued(p, p.aging[i].dummy) == []
  }

  lemma QuietFront(p: Pool)
    requires p.aging != []
    ensures AllQuiet(p) ==> Queued(p, p.aging[0].dummy) == []
  {
  }

  lemma QuietOn(p: Pool, p': Pool, k: nat)
    requires k <= |p.aging| && p'.aging == p.aging[k..] && p'.queue == p.queue
    ensures AllQuiet(p) ==> AllQuiet(p')
  {
    assert forall i :: 0 <= i < |p'.aging| ==> Queued(p', p'.aging[i].dummy) == Queued(p, p.aging[k + i].dummy);
  }

  lemma NoneReturned(aging: seq<Aged>, clock: seq<nat>, failing: seq<nat>, n: nat)
    ensures LeftAlone(aging, clock, 0) && Returned(aging, failing, n, 0) == []
  {
  }

  lemma OneReturned(aging: seq<Aged>, clock: seq<nat>, failing: seq<nat>, n: nat, k: nat)
    requires k < |aging| && k < |clock| && k < |failing| && LeftAlone(aging, clock, k) && clock[k] >= aging[k].at + 100
    ensures LeftAlone(aging, clock, k + 1)
    ensures Returned(aging, failing, n, k + 1) ==
            Returned(aging, failing, n, k) + if failing[k] >= STAGES && aging[k].dummy < n then [aging[k].dummy] else []
  {
  }

  lemma RestIsYounger(was: seq<Aged>, k: nat, now: nat)
    requires k < |was| && now < was[k].at + 100
    ensures Sorted(was) ==> forall i :: 0 <= i < |was[k..]| ==> now < was[k..][i].at + 100
  {
  }

  lemma Waited(p: Pool, now: nat)
    ensures Next(p, Wait(now)) == p.(now := now)
  {
  }

  lemma Called(p: Pool, steps: seq<Step>, ok: bool)
    requires Possible(p, steps)
    ensures After(p, steps + [Advancing(ok)]) == Next(After(p, steps), Advancing(ok))
    ensures Possible(p, steps + [Advancing(ok)])
  {
    hide Next, After, Possible;
    AfterAppend(p, steps, Advancing(ok));
  }

  lemma NoSteps(p: Pool)
    ensures After(p, []) == p && Possible(p, [])
  {
  }

  /** The steps of a reset that gets through `failing` calls before one fails. */
  function Calls(failing: nat): seq<Step> {
    if failing >= STAGES then seq(STAGES, _ => Advancing(true)) else seq(failing, _ => Advancing(true)) + [Advancing(false)]
  }
}
