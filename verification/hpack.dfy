/**
 The dynamic table of section 2.3.2 of RFC 7541, and a decoder for the one representation it can be
 replayed in: the literal header field with incremental indexing and a new name of section 6.2.1.
 */
module Hpack {
  import opened Wire

  /** A string the way a peer put it on the wire, with the H bit of section 5.2 next to it. */
  datatype Str = Str(huff: bool, bytes: Bytes)
  datatype Entry = Entry(name: Str, value: Str)

  /** Newest entry first: entry `i` is addressed by index `STATIC_TABLE_SIZE + 1 + i`. */
  type Table = seq<Entry>

  const STATIC_TABLE_SIZE: nat := 61
  const MAX_SYNC_FIELD: nat := 126

  /** What section 4.1 counts an entry as. It depends on the decoded strings, so it is a parameter. */
  type Sizer = Entry -> nat

  function TableSize(size: Sizer, t: Table): nat {
    if t == [] then 0 else size(t[0]) + TableSize(size, t[1..])
  }

  /** Evicts from the end of `t` until no more than `room` is taken up, section 4.4. */
  function Evict(size: Sizer, t: Table, room: nat): Table {
    if t == [] || TableSize(size, t) <= room then t else Evict(size, t[..|t| - 1], room)
  }

  /** Adds `e` to a table bounded by `limit`. An entry larger than the table empties it. */
  function Add(size: Sizer, limit: nat, t: Table, e: Entry): Table {
    if size(e) > limit then [] else [e] + Evict(size, t, limit - size(e))
  }

  // ---- the wire ----

  function RenderStr(s: Str): Bytes
    requires |s.bytes| <= MAX_SYNC_FIELD
  {
    [(if s.huff then 0x80 else 0) + |s.bytes|] + s.bytes
  }

  /** The strings the encoder is able to spell out. */
  predicate Renderable(e: Entry) {
    0 < |e.name.bytes| <= MAX_SYNC_FIELD && |e.value.bytes| <= MAX_SYNC_FIELD
  }

  function RenderEntry(e: Entry): Bytes
    requires Renderable(e)
  {
    [0x40] + RenderStr(e.name) + RenderStr(e.value)
  }

  predicate AllRenderable(t: Table) {
    forall i :: 0 <= i < |t| ==> Renderable(t[i])
  }

  /** The whole of `t`, oldest entry first. */
  function RenderTable(t: Table): Bytes
    requires AllRenderable(t)
  {
    if t == [] then [] else RenderTable(t[1..]) + RenderEntry(t[0])
  }

  /** An integer with a prefix of `bits` bits, section 5.1. */
  function DecodeInt(prefix: nat, b: Bytes): Option<(nat, Bytes)>
    requires prefix > 0
  {
    if b == [] then None
    else
      var low := b[0] % prefix;
      if low < prefix - 1 then Some((low, b[1..])) else Continue(low, 1, b[1..])
  }

  function Continue(acc: nat, unit: nat, b: Bytes): Option<(nat, Bytes)>
    decreases |b|
  {
    if b == [] then None
    else if b[0] < 128 then Some((acc + b[0] * unit, b[1..]))
    else Continue(acc + b[0] % 128 * unit, unit * 128, b[1..])
  }

  function DecodeStr(b: Bytes): Option<(Str, Bytes)> {
    match DecodeInt(128, b)
    case None => None
    case Some((len, rest)) => if len > |rest| then None else Some((Str(b[0] >= 128, rest[..len]), rest[len..]))
  }

  /** The first field of `b`, if it is a literal with incremental indexing and a new name. */
  function DecodeEntry(b: Bytes): Option<(Entry, Bytes)> {
    if b == [] || b[0] != 0x40 then None
    else
      match DecodeStr(b[1..])
      case None => None
      case Some((name, rest)) =>
        match DecodeStr(rest)
        case None => None
        case Some((value, rest')) => Some((Entry(name, value), rest'))
  }

  lemma {:induction false} ContinueConsumes(acc: nat, unit: nat, b: Bytes)
    ensures Continue(acc, unit, b).Some? ==> |Continue(acc, unit, b).value.1| < |b|
    decreases |b|
  {
    if b != [] && b[0] >= 128 {
      ContinueConsumes(acc + b[0] % 128 * unit, unit * 128, b[1..]);
    }
  }

  lemma DecodeStrConsumes(b: Bytes)
    ensures DecodeStr(b).Some? ==> |DecodeStr(b).value.1| < |b|
  {
    if b != [] {
      ContinueConsumes(b[0] % 128, 1, b[1..]);
    }
  }

  lemma DecodeEntryConsumes(b: Bytes)
    ensures DecodeEntry(b).Some? ==> |DecodeEntry(b).value.1| < |b|
  {
    if b != [] {
      DecodeStrConsumes(b[1..]);
      if DecodeStr(b[1..]).Some? {
        DecodeStrConsumes(DecodeStr(b[1..]).value.1);
      }
    }
  }

  /** Decodes a block of such fields into `t`. */
  function Replay(size: Sizer, limit: nat, t: Table, b: Bytes): Option<Table>
    decreases |b|
  {
    if b == [] then Some(t)
    else
      DecodeEntryConsumes(b);
      match DecodeEntry(b)
      case None => None
      case Some((e, rest)) => Replay(size, limit, Add(size, limit, t, e), rest)
  }

  // ---- round trips ----

  lemma StrRoundTrip(s: Str, rest: Bytes)
    requires |s.bytes| <= MAX_SYNC_FIELD
    ensures DecodeStr(RenderStr(s) + rest) == Some((s, rest))
  {
    var b := RenderStr(s) + rest;
    assert b[0] % 128 == |s.bytes| && b[1..] == s.bytes + rest;
    assert (s.bytes + rest)[..|s.bytes|] == s.bytes && (s.bytes + rest)[|s.bytes|..] == rest;
  }

  /** Why a longer string is refused: spelled with a single length byte it would not be read back. */
  lemma LongerStringsNeedMore(s: Str)
    requires |s.bytes| == 127
    ensures var len: byte := (if s.huff then 0x80 else 0) + |s.bytes|;
            forall rest :: DecodeStr([len] + s.bytes + rest) != Some((s, rest))
  {
    forall rest: Bytes
      ensures DecodeStr([(if s.huff then 0x80 else 0) + |s.bytes|] + s.bytes + rest) != Some((s, rest))
    {
      var b := [(if s.huff then 0x80 else 0) + |s.bytes|] + s.bytes + rest;
      assert b[0] % 128 == 127;
      ContinueConsumes(127, 1, b[1..]);
      if DecodeStr(b).Some? {
        var (len, more) := DecodeInt(128, b).value;
        assert |more| < |b[1..]| && DecodeStr(b).value.1 == more[len..];
        ContinueGrows(127, 1, b[1..]);
        assert len >= 127;
      }
    }
  }

  lemma {:induction false} ContinueGrows(acc: nat, unit: nat, b: Bytes)
    ensures Continue(acc, unit, b).Some? ==> Continue(acc, unit, b).value.0 >= acc
    decreases |b|
  {
    if b != [] {
      assert b[0] * unit >= 0 && b[0] % 128 * unit >= 0;
      if b[0] >= 128 {
        ContinueGrows(acc + b[0] % 128 * unit, unit * 128, b[1..]);
      }
    }
  }

  // ---- the examples of appendix C of RFC 7541 ----

  /** Section C.2.1: `custom-key: custom-header`, spelled out as it is. */
  lemma PlainExample()
    ensures RenderEntry(Entry(Str(false, [0x63, 0x75, 0x73, 0x74, 0x6F, 0x6D, 0x2D, 0x6B, 0x65, 0x79]),
                              Str(false, [0x63, 0x75, 0x73, 0x74, 0x6F, 0x6D, 0x2D, 0x68, 0x65, 0x61, 0x64, 0x65, 0x72]))) ==
            [0x40, 0x0A, 0x63, 0x75, 0x73, 0x74, 0x6F, 0x6D, 0x2D, 0x6B, 0x65, 0x79,
             0x0D, 0x63, 0x75, 0x73, 0x74, 0x6F, 0x6D, 0x2D, 0x68, 0x65, 0x61, 0x64, 0x65, 0x72]
  {
  }

  /** Section C.4.3: `custom-key: custom-value`, both of them Huffman coded. */
  lemma HuffmanExample()
    ensures RenderEntry(Entry(Str(true, [0x25, 0xA8, 0x49, 0xE9, 0x5B, 0xA9, 0x7D, 0x7F]),
                              Str(true, [0x25, 0xA8, 0x49, 0xE9, 0x5B, 0xB8, 0xE8, 0xB4, 0xBF]))) ==
            [0x40, 0x88, 0x25, 0xA8, 0x49, 0xE9, 0x5B, 0xA9, 0x7D, 0x7F,
             0x89, 0x25, 0xA8, 0x49, 0xE9, 0x5B, 0xB8, 0xE8, 0xB4, 0xBF]
  {
  }

  /** Section C.1.2: 1337 with a prefix of five bits. */
  lemma IntegerExample()
    ensures DecodeInt(32, [0x1F, 0x9A, 0x0A]) == Some((1337, []))
  {
    var b: Bytes := [0x1F, 0x9A, 0x0A];
    var rest, last: Bytes := [0x9A, 0x0A], [0x0A];
    assert b[1..] == rest && rest[1..] == last && last[1..] == [];
    assert Continue(57, 128, last) == Some((57 + 10 * 128, []));
  }

  lemma EntryRoundTrip(e: Entry, rest: Bytes)
    requires Renderable(e)
    ensures DecodeEntry(RenderEntry(e) + rest) == Some((e, rest))
  {
    var b := RenderEntry(e) + rest;
    assert b[1..] == RenderStr(e.name) + (RenderStr(e.value) + rest);
    StrRoundTrip(e.name, RenderStr(e.value) + rest);
    StrRoundTrip(e.value, rest);
  }

  lemma {:induction false} TableSizeConcat(size: Sizer, a: Table, b: Table)
    ensures TableSize(size, a + b) == TableSize(size, a) + TableSize(size, b)
  {
    if a == [] {
      assert a + b == b;
    } else {
      assert (a + b)[1..] == a[1..] + b;
      TableSizeConcat(size, a[1..], b);
    }
  }

  lemma {:induction false} ReplayOnto(size: Sizer, limit: nat, t: Table, older: Table, rest: Bytes)
    requires AllRenderable(t) && TableSize(size, t + older) <= limit
    ensures Replay(size, limit, older, RenderTable(t) + rest) == Replay(size, limit, t + older, rest)
    decreases |t|
  {
    if t == [] {
      assert RenderTable(t) + rest == rest && t + older == older;
    } else {
      var e, t1 := t[0], t[1..];
      assert RenderTable(t) + rest == RenderTable(t1) + (RenderEntry(e) + rest);
      assert t + older == [e] + (t1 + older) && (t + older)[1..] == t1 + older;
      ReplayOnto(size, limit, t1, older, RenderEntry(e) + rest);
      EntryRoundTrip(e, rest);
      assert RenderEntry(e) + rest != [];
    }
  }

  /**
   Replaying a table into an empty one rebuilds it index for index, every string with its own H bit.
   A table that fits the decoder's limit never evicts on the way.
   */
  lemma ReplayRoundTrip(size: Sizer, limit: nat, t: Table)
    requires AllRenderable(t) && TableSize(size, t) <= limit
    ensures Replay(size, limit, [], RenderTable(t)) == Some(t)
  {
    assert t + [] == t && RenderTable(t) + [] == RenderTable(t);
    ReplayOnto(size, limit, t, [], []);
  }

  lemma {:induction false} EvictFits(size: Sizer, t: Table, room: nat)
    ensures TableSize(size, Evict(size, t, room)) <= room && Evict(size, t, room) <= t
    decreases |t|
  {
    if t != [] && TableSize(size, t) > room {
      EvictFits(size, t[..|t| - 1], room);
    }
  }

  /** Evicting stops as soon as what is left fits: whatever would have kept one more entry does not. */
  lemma {:induction false} EvictKeepsMost(size: Sizer, t: Table, room: nat, n: nat)
    requires |Evict(size, t, room)| < n <= |t|
    ensures TableSize(size, t[..n]) > room
    decreases |t|
  {
    if n < |t| {
      assert t[..|t| - 1][..n] == t[..n];
      EvictKeepsMost(size, t[..|t| - 1], room, n);
    } else {
      assert t[..n] == t;
    }
  }

  /** Whatever is replayed, a table never outgrows its limit. */
  lemma {:induction false} ReplayFits(size: Sizer, limit: nat, t: Table, b: Bytes)
    requires TableSize(size, t) <= limit
    ensures Replay(size, limit, t, b).Some? ==> TableSize(size, Replay(size, limit, t, b).value) <= limit
    decreases |b|
  {
    if b != [] {
      DecodeEntryConsumes(b);
      match DecodeEntry(b)
      case None =>
      case Some((e, rest)) =>
        if size(e) <= limit {
          EvictFits(size, t, limit - size(e));
          var kept := Evict(size, t, limit - size(e));
          assert ([e] + kept)[1..] == kept;
        }
        ReplayFits(size, limit, Add(size, limit, t, e), rest);
    }
  }
}
