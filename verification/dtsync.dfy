/** The frames the fast path prepends to a message it forwards. */
module DtSync {
  import opened Wire
  import opened Hpack

  const MAX_SYNC_ENTRIES: nat := 8
  const MAX_SYNC_BUF: nat := 4096

  /** `MAX_SYNC_BODY` for a parser that keeps at most `fieldMax` bytes of a string. */
  function MaxSyncBody(fieldMax: nat): nat {
    MAX_SYNC_ENTRIES * (2 + 2 * fieldMax)
  }

  /** The block that replays the `n` newest entries of `t`, if there is one of at most `cap` bytes. */
  function RenderSync(t: Table, n: nat, cap: nat): Option<Bytes> {
    if n > |t| || !AllRenderable(t[..n]) || |RenderTable(t[..n])| > cap then None
    else Some(RenderTable(t[..n]))
  }

  function DtFrame(body: Bytes): Frame { Frame(DT_SYNC, 0, 0, body) }
  function FcFrame(sent: u32): Frame { Frame(FC_SYNC, 0, 0, BE32(sent)) }

  // ---- how large a block gets ----

  lemma {:induction false} RenderTableMonotone(t: Table, i: nat)
    requires AllRenderable(t) && i <= |t|
    ensures |RenderTable(t[i..])| <= |RenderTable(t)|
  {
    if i > 0 {
      assert t[1..][i - 1..] == t[i..];
      RenderTableMonotone(t[1..], i - 1);
    } else {
      assert t[0..] == t;
    }
  }

  lemma {:induction false} RenderTableBound(t: Table)
    requires AllRenderable(t)
    ensures |RenderTable(t)| <= |t| * (3 + 2 * MAX_SYNC_FIELD)
  {
    if t != [] {
      RenderTableBound(t[1..]);
    }
  }

  /** A table a parser can hold that keeps at most `fieldMax` bytes of a string. */
  predicate Held(t: Table, fieldMax: nat) {
    forall i :: 0 <= i < |t| ==> |t[i].name.bytes| <= fieldMax && |t[i].value.bytes| <= fieldMax
  }

  /** A table of `n` entries whose strings take `len` bytes each. */
  function Longest(n: nat, len: nat): Table {
    var s := Str(false, seq(len, _ => 0));
    seq(n, _ => Entry(s, s))
  }

  lemma {:induction false} LongestSize(n: nat, len: nat)
    requires 0 < len <= MAX_SYNC_FIELD
    ensures AllRenderable(Longest(n, len)) && |RenderTable(Longest(n, len))| == n * (3 + 2 * len)
  {
    if n > 0 {
      assert Longest(n, len)[1..] == Longest(n - 1, len);
      LongestSize(n - 1, len);
    }
  }

  /** Every table the fast path answers on, of strings it can spell out, can be handed over. */
  ghost predicate AlwaysFits(fieldMax: nat) {
    forall t: Table :: |t| <= 8 && AllRenderable(t) && Held(t, fieldMax) ==>
      RenderSync(t, |t|, MaxSyncBody(fieldMax)) == Some(RenderTable(t))
  }

  /**
   A table the fast path answers on can be handed over whatever its strings are, exactly if the
   parser keeps at least 127 bytes of a string, or none: an entry takes three bytes besides its
   strings, and `MAX_SYNC_BODY` only makes room for two.
   */
  lemma SyncAlwaysFits(fieldMax: nat)
    ensures AlwaysFits(fieldMax) <==> fieldMax > 126 || fieldMax == 0
  {
    if fieldMax > MAX_SYNC_FIELD || fieldMax == 0 {
      forall t: Table | |t| <= MAX_SYNC_ENTRIES && AllRenderable(t) && Held(t, fieldMax)
        ensures RenderSync(t, |t|, MaxSyncBody(fieldMax)) == Some(RenderTable(t))
      {
        assert t != [] ==> Renderable(t[0]);
        RenderTableBound(t);
        assert t[..|t|] == t;
      }
    } else {
      LongestSize(MAX_SYNC_ENTRIES, fieldMax);
      var t := Longest(MAX_SYNC_ENTRIES, fieldMax);
      assert t[..|t|] == t && Held(t, fieldMax);
      assert RenderSync(t, |t|, MaxSyncBody(fieldMax)) == None;
    }
  }

  // The largest value `x` is clamped to, as the verifier wants to see it.
  function Clamp(x: nat, max: nat): nat {
    if x > max then max else x
  }

  /** The scratch buffer a block is built up in. */
  class SyncBuf {
    const data: array<byte>
    const cap: nat
    var len: nat

    constructor (fieldMax: nat)
      requires MaxSyncBody(fieldMax) < MAX_SYNC_BUF
      ensures Valid() && cap == 8 * (2 + 2 * fieldMax) && len == 0 && fresh(data)
    {
      data := new byte[MAX_SYNC_BUF];
      cap, len := MaxSyncBody(fieldMax), 0;
    }

    ghost predicate Valid()
      reads this
    {
      len <= cap < data.Length == MAX_SYNC_BUF
    }

    ghost function Contents(): Bytes
      requires Valid()
      reads this, data
    {
      data[..len]
    }

    /** Appends all of `src` or nothing. The clamps never change an index. */
    method Put(src: Bytes) returns (ok: bool)
      requires Valid()
      modifies this, data
      ensures Valid()
      ensures ok <==> |src| <= MAX_SYNC_FIELD && |old(Contents())| + |src| <= cap
      ensures Contents() == if ok then old(Contents()) + src else old(Contents())
    {
      var off := len;
      if |src| > MAX_SYNC_FIELD || off + |src| > cap {
        return false;
      }
      ghost var before := Contents();
      for i := 0 to |src|
        invariant Valid() && len == off
        invariant data[..off + i] == before + src[..i]
      {
        var j := Clamp(i, MAX_SYNC_FIELD - 1);
        var o := Clamp(off + j, cap - 1);
        data[o] := src[j];
      }
      len := off + |src|;
      ok := true;
    }

    method PutByte(c: byte) returns (ok: bool)
      requires Valid()
      modifies this, data
      ensures Valid()
      ensures ok <==> |old(Contents())| + 1 <= cap
      ensures Contents() == if ok then old(Contents()) + [c] else old(Contents())
    {
      var off := len;
      if off + 1 > cap {
        return false;
      }
      off := Clamp(off, cap - 1);
      data[off] := c;
      len := off + 1;
      ok := true;
    }

    /** Appends a string with its length byte, or fails exactly if it does not fit. */
    method PutStr(s: Str) returns (ok: bool)
      requires Valid() && |s.bytes| <= MAX_SYNC_FIELD
      modifies this, data
      ensures Valid()
      ensures ok <==> |old(Contents())| + |RenderStr(s)| <= cap
      ensures ok ==> Contents() == old(Contents()) + RenderStr(s)
    {
      ok := PutByte((if s.huff then 0x80 else 0) + |s.bytes|);
      if ok {
        ok := Put(s.bytes);
      }
    }

    method PutEntry(e: Entry) returns (ok: bool)
      requires Valid() && Renderable(e)
      modifies this, data
      ensures Valid()
      ensures ok <==> |old(Contents())| + |RenderEntry(e)| <= cap
      ensures ok ==> Contents() == old(Contents()) + RenderEntry(e)
    {
      hide RenderStr;
      ok := PutByte(0x40);
      if ok {
        ok := PutStr(e.name);
      }
      if ok {
        ok := PutStr(e.value);
      }
    }

    /**
     `render_dt_sync`: the entries at the HPACK indices 62 to 61 + `n`, oldest first. It succeeds
     exactly if the block exists.
     */
    method Render(t: Table, n: nat) returns (ok: bool)
      requires Valid() && len == 0
      modifies this, data
      ensures Valid()
      ensures ok <==> RenderSync(t, n, cap).Some?
      ensures ok ==> RenderSync(t, n, cap) == Some(Contents())
    {
      for i := 0 to n
        invariant Valid()
        invariant i == 0 || (n <= |t| && AllRenderable(t[n - i..n]))
        invariant Contents() == if i == 0 then [] else RenderTable(t[n - i..n])
      {
        var idx := STATIC_TABLE_SIZE + (n - i);
        // `get_dt_entry` knows the indices the table reaches
        if idx - STATIC_TABLE_SIZE > |t| {
          return false;
        }
        var e := t[idx - STATIC_TABLE_SIZE - 1];
        if |e.name.bytes| == 0 || |e.name.bytes| > MAX_SYNC_FIELD || |e.value.bytes| > MAX_SYNC_FIELD {
          assert e == t[..n][n - i - 1];
          return false;
        }
        ghost var later := t[n - i - 1..n];
        assert later[0] == e && later[1..] == t[n - i..n];
        ok := PutEntry(e);
        if !ok {
          if AllRenderable(t[..n]) {
            assert t[..n][n - i - 1..] == later;
            RenderTableMonotone(t[..n], n - i - 1);
          }
          return;
        }
      }
      ok := true;
      assert t[n - n..n] == t[..n];
    }
  }
}
