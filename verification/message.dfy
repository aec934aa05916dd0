/** A message as the kernel hands it to `msg_verdict`, with the helpers that grow, shrink and expose it. */
module Message {
  import opened Wire

  class Msg {
    var bytes: Bytes

    // what `data` and `data_end` delimit
    var lo: nat
    var hi: nat

    // whether it has ever been resized, and how many bytes were just pushed in front
    var resized: bool
    var room: nat

    // whether the helpers that resize a message, and the one that exposes it, succeed whenever they
    // are not asked for something impossible, and whether at least what was just pushed is exposed
    const resizes: bool
    const exposes: bool
    const opens: bool

    constructor (bytes: Bytes, resizes: bool, exposes: bool, opens: bool)
      requires |bytes| < U32
      ensures Valid() && this.bytes == bytes && !resized
      ensures this.resizes == resizes && this.exposes == exposes && this.opens == opens
    {
      this.bytes, this.resizes, this.exposes, this.opens := bytes, resizes, exposes, opens;
      lo, hi, room, resized := 0, 0, 0, false;
    }

    predicate Reliable() {
      resizes && exposes
    }

    predicate Opens() {
      exposes || opens
    }

    ghost predicate Valid()
      reads this
    {
      lo <= hi <= |bytes| < U32
    }

    function Size(): nat
      reads this
    {
      |bytes|
    }

    // `bpf_msg_push_data`: what the new bytes hold is anyone's guess
    method Push(at: nat, len: nat) returns (ok: bool)
      requires Valid()
      modifies this
      ensures Valid()
      ensures resizes && at <= |old(bytes)| && |old(bytes)| + len < U32 ==> ok
      ensures !ok ==> bytes == old(bytes)
      ensures ok ==> at <= |old(bytes)| && |bytes| == |old(bytes)| + len
      ensures ok ==> bytes[..at] == old(bytes)[..at] && bytes[at + len..] == old(bytes)[at..]
      ensures ok && at == 0 ==> room == len
      ensures resized == (old(resized) || ok)
    {
      lo, hi, room := 0, 0, 0;
      var lucky: bool := *;
      ok := (lucky || resizes) && at <= |bytes| && |bytes| + len < U32;
      if ok {
        var fill: byte := *;
        var filler := seq<byte>(len, _ => fill);
        bytes := bytes[..at] + filler + bytes[at..];
        room := if at == 0 then len else 0;
        resized := true;
      }
    }

    // `bpf_msg_pop_data`
    method Pop(at: nat, len: nat) returns (ok: bool)
      requires Valid()
      modifies this
      ensures Valid()
      ensures resizes && at + len <= |old(bytes)| ==> ok
      ensures !ok ==> bytes == old(bytes)
      ensures ok ==> at + len <= |old(bytes)| && bytes == old(bytes)[..at] + old(bytes)[at + len..]
      ensures resized == (old(resized) || ok)
    {
      lo, hi, room := 0, 0, 0;
      var lucky: bool := *;
      ok := (lucky || resizes) && at + len <= |bytes|;
      if ok {
        bytes := bytes[..at] + bytes[at + len..];
        resized := true;
      }
    }

    // `bpf_msg_pull_data`
    method Pull(start: nat, end: nat) returns (ok: bool)
      requires Valid()
      modifies this`lo, this`hi
      ensures Valid()
      ensures start < end <= |bytes| && (exposes || (opens && start == 0 && end == room)) ==> ok
      ensures ok ==> start < end <= |bytes| && lo == start && hi == end
    {
      var lucky: bool := *;
      ok := (lucky || exposes || (opens && start == 0 && end == room)) && start < end <= |bytes|;
      if ok {
        lo, hi := start, end;
      }
    }

    // a read through `data`
    function At(i: nat): byte
      reads this
      requires Valid() && lo + i < hi
    {
      bytes[lo + i]
    }

    // the reads of `n` bytes in a row
    function Slice(i: nat, n: nat): (b: Bytes)
      reads this
      requires Valid() && lo + i + n <= hi
      ensures |b| == n
    {
      bytes[lo + i..lo + i + n]
    }

    // a store of one or several bytes through `data`
    method Store(i: nat, b: Bytes)
      requires Valid() && lo + i + |b| <= hi
      modifies this`bytes
      ensures Valid()
      ensures bytes == old(bytes)[..lo + i] + b + old(bytes)[lo + i + |b|..]
    {
      bytes := bytes[..lo + i] + b + bytes[lo + i + |b|..];
    }
  }
}
