/** The flow control the fast path spends from, and how it follows what the client announces. */
module FlowControl {
  import opened Wire
  import opened Message

  const SETTINGS: byte := 0x04
  const WINDOW_UPDATE: byte := 0x08
  const ACK_FLAG: nat := 0x01
  const INITIAL_WINDOW_SIZE: nat := 0x04
  const H2_INITIAL_WINDOW: nat := 65535
  const MAX_SETTINGS: nat := 16
  const SETTING_LEN: nat := 6
  const MAX_FLOW_FRAMES: nat := 16

  /** `struct h2_flow`. */
  datatype Flow = Flow(conn: int, stream: u32, unreported: u32)

  const OPENING: Flow := Flow(H2_INITIAL_WINDOW, H2_INITIAL_WINDOW, 0)

  ghost predicate InRange(fc: Flow) {
    -0x8000_0000 <= fc.conn <= MAX_WINDOW
  }

  // ---- what the protocol says, one parsed frame at a time ----

  function SettingId(p: Bytes): nat
    requires |p| >= SETTING_LEN
  {
    (p[0] as int) * 256 + p[1] as int
  }

  function SettingValue(p: Bytes): u32
    requires |p| >= SETTING_LEN
  {
    Val32(p[2..6])
  }

  /**
   Section 6.5.2: parameters take effect in order, so the last one wins. A payload that is not made of
   whole parameters or asks for too large a window is a connection error, which is `None` here.
   */
  function ApplySettings(window: u32, p: Bytes): Option<u32>
    decreases |p|
  {
    if p == [] then Some(window)
    else if |p| < 6 then None
    else if SettingId(p) != 0x04 then ApplySettings(window, p[6..])
    else if SettingValue(p) > 0x7FFF_FFFF then None
    else ApplySettings(SettingValue(p), p[6..])
  }

  predicate Acknowledges(f: Frame) {
    f.flags % 2 == 1
  }

  /** Section 6.5: SETTINGS change the window streams open with, and leave the connection's alone (6.9.2). */
  function OnSettings(fc: Flow, f: Frame): Option<Flow> {
    if f.sid != 0 || (Acknowledges(f) && f.payload != []) then None
    else if Acknowledges(f) then Some(fc)
    else
      match ApplySettings(fc.stream, f.payload)
      case None => None
      case Some(window) => Some(fc.(stream := window))
  }

  /**
   Sections 6.9 and 6.9.1: an update adds its increment, a number of 31 bits that is not zero. A
   window that would grow past its largest value is a connection error. The window of a single stream
   is not one of these two.
   */
  function OnWindowUpdate(fc: Flow, f: Frame): Option<Flow> {
    if |f.payload| != 4 then None
    else if f.sid != 0 then Some(fc)
    else
      var p := f.payload;
      var inc := ((p[0] as int % 128 * 256 + p[1] as int) * 256 + p[2] as int) * 256 + p[3] as int;
      if inc == 0 || fc.conn + inc > 0x7FFF_FFFF then None else Some(fc.(conn := fc.conn + inc))
  }

  /** The windows behind a frame, unless it ends the connection. */
  function OnFrame(fc: Flow, f: Frame): Option<Flow> {
    if f.kind == 0x08 then OnWindowUpdate(fc, f)
    else if f.kind == 0x04 then OnSettings(fc, f)
    else Some(fc)
  }

  function OnFrames(fc: Flow, fs: seq<Frame>): Option<Flow>
    decreases |fs|
  {
    if fs == [] then Some(fc)
    else
      match OnFrame(fc, fs[0])
      case None => None
      case Some(fc') => OnFrames(fc', fs[1..])
  }

  /** Frames the fast path follows in full: it reads 16 of them, and 16 parameters of each. */
  ghost predicate Followed(fs: seq<Frame>) {
    && |fs| <= 16
    && forall f :: f in fs && f.kind == 0x04 && !Acknowledges(f) ==> |f.payload| < 17 * 6
  }

  /** What a frame opens the connection window by, section 6.9, without its reserved bit. */
  function Increment(f: Frame): (inc: nat)
    ensures inc <= MAX_WINDOW
  {
    if f.kind == WINDOW_UPDATE && f.sid == 0 && |f.payload| == 4 then Val32(f.payload) % (MAX_WINDOW + 1) else 0
  }

  function Granted(fs: seq<Frame>): nat {
    if fs == [] then 0 else Increment(fs[0]) + Granted(fs[1..])
  }

  // ---- what the fast path does ----

  /** Reads parameters `i` to `n` of `p`, giving up on the first window that is not a legal one. */
  function ReadSettings(window: u32, p: Bytes, i: nat, n: nat): u32
    requires n * SETTING_LEN <= |p|
    decreases n - i
  {
    if i >= n then window
    else
      var q := p[i * SETTING_LEN..];
      if SettingId(q) != INITIAL_WINDOW_SIZE then ReadSettings(window, p, i + 1, n)
      else if SettingValue(q) > MAX_WINDOW then window
      else ReadSettings(SettingValue(q), p, i + 1, n)
  }

  function SettingsRead(p: Bytes): nat {
    if |p| / SETTING_LEN > MAX_SETTINGS then MAX_SETTINGS else |p| / SETTING_LEN
  }

  /** A window that would grow too far stays at the largest there is. */
  function TrackFrame(fc: Flow, f: Frame): Flow {
    if f.kind == WINDOW_UPDATE then
      if f.sid != 0 || |f.payload| != 4 then fc
      else
        var window := fc.conn + Val32(f.payload) % (MAX_WINDOW + 1);
        fc.(conn := if window > MAX_WINDOW then MAX_WINDOW else window)
    else if f.kind == SETTINGS && !Acknowledges(f) then
      fc.(stream := ReadSettings(fc.stream, f.payload, 0, SettingsRead(f.payload)))
    else fc
  }

  function TrackFrames(fc: Flow, fs: seq<Frame>): Flow
    decreases |fs|
  {
    if fs == [] then fc else TrackFrames(TrackFrame(fc, fs[0]), fs[1..])
  }

  function First(fs: seq<Frame>): seq<Frame> {
    if |fs| <= MAX_FLOW_FRAMES then fs else fs[..MAX_FLOW_FRAMES]
  }

  lemma {:induction false} ReadSettingsInOrder(window: u32, p: Bytes, i: nat, n: nat)
    requires n == |p| / SETTING_LEN && i <= n && ApplySettings(window, p[i * SETTING_LEN..]).Some?
    ensures ApplySettings(window, p[i * SETTING_LEN..]) == Some(ReadSettings(window, p, i, n))
    decreases n - i
  {
    hide SettingId, SettingValue;
    var q := p[i * SETTING_LEN..];
    if i < n {
      assert q[SETTING_LEN..] == p[(i + 1) * SETTING_LEN..];
      ReadSettingsInOrder(if SettingId(q) == INITIAL_WINDOW_SIZE then SettingValue(q) else window, p, i + 1, n);
    }
  }

  /** The reserved bit is the top one of the field, so leaving it out is a remainder. */
  lemma ReservedBit(p: Bytes)
    requires |p| == 4
    ensures Val32(p) % (MAX_WINDOW + 1)
         == ((p[0] as int % 128 * 256 + p[1] as int) * 256 + p[2] as int) * 256 + p[3] as int
  {
    var low := ((p[0] as int % 128 * 256 + p[1] as int) * 256 + p[2] as int) * 256 + p[3] as int;
    assert Val32(p) == (p[0] as int / 128) * (MAX_WINDOW + 1) + low && 0 <= low <= MAX_WINDOW;
  }

  lemma TrackFrameIsProtocol(fc: Flow, f: Frame)
    requires OnFrame(fc, f).Some?
    requires f.kind == SETTINGS && !Acknowledges(f) ==> |f.payload| < (MAX_SETTINGS + 1) * SETTING_LEN
    ensures OnFrame(fc, f) == Some(TrackFrame(fc, f))
  {
    hide ApplySettings, ReadSettings, Val32;
    if f.kind == WINDOW_UPDATE && f.sid == 0 {
      ReservedBit(f.payload);
    } else if f.kind == SETTINGS && !Acknowledges(f) {
      assert f.payload[0 * SETTING_LEN..] == f.payload;
      ReadSettingsInOrder(fc.stream, f.payload, 0, |f.payload| / SETTING_LEN);
    }
  }

  /**
   Following frame by frame is what the protocol says, for every message that is followed in full and
   does not end the connection.
   */
  lemma {:induction false} TrackIsProtocol(fc: Flow, fs: seq<Frame>)
    requires Followed(fs) && OnFrames(fc, fs).Some?
    ensures OnFrames(fc, fs) == Some(TrackFrames(fc, fs))
    decreases |fs|
  {
    hide OnFrame, TrackFrame;
    if fs != [] {
      assert fs[0] in fs && forall g :: g in fs[1..] ==> g in fs;
      TrackFrameIsProtocol(fc, fs[0]);
      TrackIsProtocol(TrackFrame(fc, fs[0]), fs[1..]);
    }
  }

  /** Reading stops for good at the first window that is not a legal one: what is announced behind it is left to user space too. */
  lemma {:induction false} ReadSettingsStops(window: u32, p: Bytes, i: nat, k: nat, n: nat)
    requires i <= k < n && n * 6 <= |p|
    requires SettingId(p[k * 6..]) == 0x04 && SettingValue(p[k * 6..]) > 0x7FFF_FFFF
    requires ApplySettings(window, p[i * 6..k * 6]).Some?
    ensures ApplySettings(window, p[i * 6..k * 6]) == Some(ReadSettings(window, p, i, n))
    decreases k - i
  {
    if i < k {
      var q, front := p[i * 6..], p[i * 6..k * 6];
      assert front[6..] == p[(i + 1) * 6..k * 6];
      assert |front| >= 6 && forall j :: 0 <= j < 6 ==> front[j] == q[j];
      assert front[2..6] == q[2..6];
      ReadSettingsStops(if SettingId(q) == 0x04 then SettingValue(q) else window, p, i + 1, k, n);
    }
  }

  /** The connection window never shrinks, and never grows by more than the client granted. */
  lemma {:induction false} TrackBounds(fc: Flow, fs: seq<Frame>)
    requires fc.conn <= MAX_WINDOW
    ensures var fc' := TrackFrames(fc, fs);
            fc.conn <= fc'.conn <= MAX_WINDOW && fc'.conn <= fc.conn + Granted(fs) && fc'.unreported == fc.unreported
    decreases |fs|
  {
    if fs != [] {
      TrackBounds(TrackFrame(fc, fs[0]), fs[1..]);
    }
  }

  lemma {:induction false} TrackFramesAppend(fc: Flow, fs: seq<Frame>, f: Frame)
    ensures TrackFrames(fc, fs + [f]) == TrackFrame(TrackFrames(fc, fs), f)
    decreases |fs|
  {
    if fs == [] {
      assert fs + [f] == [f] && [f][1..] == [];
    } else {
      assert (fs + [f])[1..] == fs[1..] + [f];
      TrackFramesAppend(TrackFrame(fc, fs[0]), fs[1..], f);
    }
  }

  lemma {:induction false} GrantedAppend(fs: seq<Frame>, f: Frame)
    ensures Granted(fs + [f]) == Granted(fs) + Increment(f)
  {
    if fs == [] {
      assert fs + [f] == [f] && [f][1..] == [];
    } else {
      assert (fs + [f])[1..] == fs[1..] + [f];
      GrantedAppend(fs[1..], f);
    }
  }

  lemma {:induction false} GrantedPrefix(fs: seq<Frame>, k: nat)
    requires k <= |fs|
    ensures Granted(fs[..k]) <= Granted(fs)
  {
    if k > 0 {
      assert fs[..k][1..] == fs[1..][..k - 1];
      GrantedPrefix(fs[1..], k - 1);
    }
  }

  // ---- how it does it ----

  class H2Flow {
    var connWindow: int
    var streamWindow: u32
    var unreported: u32

    constructor ()
      ensures View() == OPENING
    {
      connWindow, streamWindow, unreported := H2_INITIAL_WINDOW, H2_INITIAL_WINDOW, 0;
    }

    function View(): Flow
      reads this
    {
      Flow(connWindow, streamWindow, unreported)
    }
  }

  /** Whether `b` holds all of the frame whose header is at `off`. */
  ghost predicate HoldsFrame(b: Bytes, off: nat) {
    off + FRAME_HEADER_LEN <= |b| && off + FRAME_HEADER_LEN + LenAt(b[off..]) <= |b|
  }

  function FrameAt(b: Bytes, off: nat): (f: Frame)
    requires HoldsFrame(b, off)
    ensures |f.payload| == LenAt(b[off..])
  {
    var h := b[off..];
    Frame(h[3], h[4], SidAt(h), h[FRAME_HEADER_LEN..FRAME_HEADER_LEN + LenAt(h)])
  }

  // What is certain about the windows whatever the message holds and whichever helpers fail.
  ghost predicate OnlyGrew(fc: Flow, fc': Flow) {
    fc'.unreported == fc.unreported && fc.conn <= fc'.conn <= MAX_WINDOW
  }

  // The outcome of following the frame at `off`.
  ghost predicate Followed1(b: Bytes, off: nat, reliable: bool, fc: Flow, fc': Flow) {
    && OnlyGrew(fc, fc')
    && (HoldsFrame(b, off) ==>
          && (reliable ==> fc' == TrackFrame(fc, FrameAt(b, off)))
          && fc'.conn <= fc.conn + Increment(FrameAt(b, off)))
  }

  method TrackWindowUpdate(msg: Msg, fc: H2Flow, sid: u32)
    requires msg.Valid() && fc.connWindow <= MAX_WINDOW
    requires msg.lo + FRAME_HEADER_LEN <= msg.hi && msg.hi == Least(msg.lo + 13, |msg.bytes|)
    requires msg.bytes[msg.lo + 3] == WINDOW_UPDATE && sid == SidAt(msg.bytes[msg.lo..])
    modifies fc
    ensures Followed1(msg.bytes, msg.lo, true, old(fc.View()), fc.View())
    ensures HoldsFrame(msg.bytes, msg.lo) ==>
              var sum := old(fc.connWindow) + Increment(FrameAt(msg.bytes, msg.lo));
              fc.connWindow == if sum > 0x7FFF_FFFF then 0x7FFF_FFFF else sum
  {
    var payloadLen := Val24(msg.Slice(0, 3));
    assert msg.Slice(0, 3) == msg.bytes[msg.lo..][..3];
    if sid != 0 || payloadLen != 4 || msg.lo + 13 > msg.hi {
      return;
    }
    var field := msg.Slice(9, 4);
    assert field == msg.bytes[msg.lo..][FRAME_HEADER_LEN..13];
    var inc := Val32(field) % (MAX_WINDOW + 1);
    var window := fc.connWindow + inc;
    fc.connWindow := if window > MAX_WINDOW then MAX_WINDOW else window;
  }

  function Least(a: nat, b: nat): nat { if a < b then a else b }

  const SETTINGS_WINDOW: nat := FRAME_HEADER_LEN + MAX_SETTINGS * SETTING_LEN

  method TrackSettings(msg: Msg, fc: H2Flow)
    requires msg.Valid() && fc.connWindow <= MAX_WINDOW
    requires msg.lo + FRAME_HEADER_LEN <= msg.hi && msg.hi == Least(msg.lo + SETTINGS_WINDOW, |msg.bytes|)
    modifies fc
    ensures fc.View() == old(fc.View()).(stream := fc.streamWindow)
    ensures HoldsFrame(msg.bytes, msg.lo) ==>
              var p := FrameAt(msg.bytes, msg.lo).payload;
              fc.streamWindow == ReadSettings(old(fc.streamWindow), p, 0, SettingsRead(p))
  {
    hide SettingId, SettingValue, ReadSettings;
    ghost var b, off := msg.bytes, msg.lo;
    var payloadLen := Val24(msg.Slice(0, 3));
    assert msg.Slice(0, 3) == b[off..][..3];
    var n := payloadLen / SETTING_LEN;
    if n > MAX_SETTINGS {
      n := MAX_SETTINGS;
    }
    ghost var whole := HoldsFrame(b, off);
    ghost var p: Bytes := if whole then FrameAt(b, off).payload else [];
    if whole {
      assert payloadLen == |p|;
    }
    hide HoldsFrame, FrameAt, LenAt;
    ghost var window0 := fc.streamWindow;
    var i := 0;
    while i < n
      invariant i <= n
      invariant fc.View() == old(fc.View()).(stream := fc.streamWindow)
      invariant whole ==> ReadSettings(window0, p, 0, n) == ReadSettings(fc.streamWindow, p, i, n)
    {
      var at := FRAME_HEADER_LEN + i * SETTING_LEN;
      if msg.lo + at + SETTING_LEN > msg.hi {
        return;
      }
      var q := msg.Slice(at, SETTING_LEN);
      if whole {
        ReadOne(b, off, i, n, q, fc.streamWindow);
      }
      if SettingId(q) == INITIAL_WINDOW_SIZE {
        var val := SettingValue(q);
        if val > MAX_WINDOW {
          return;
        }
        fc.streamWindow := val;
      }
      i := i + 1;
    }
    if whole {
      ReadDone(fc.streamWindow, p, n);
    }
  }

  lemma ReadDone(window: u32, p: Bytes, n: nat)
    requires n * SETTING_LEN <= |p|
    ensures ReadSettings(window, p, n, n) == window
  {
  }

  // The parameter `q` read off the message is the next one of the payload.
  lemma ReadOne(b: Bytes, off: nat, i: nat, n: nat, q: Bytes, window: u32)
    requires HoldsFrame(b, off) && n <= SettingsRead(FrameAt(b, off).payload) && i < n
    requires |q| == SETTING_LEN && off + FRAME_HEADER_LEN + (i + 1) * SETTING_LEN <= |b|
    requires q == b[off + FRAME_HEADER_LEN + i * SETTING_LEN..off + FRAME_HEADER_LEN + (i + 1) * SETTING_LEN]
    ensures var p := FrameAt(b, off).payload;
            ReadSettings(window, p, i, n) ==
            if SettingId(q) != INITIAL_WINDOW_SIZE then ReadSettings(window, p, i + 1, n)
            else if SettingValue(q) > MAX_WINDOW then window
            else ReadSettings(SettingValue(q), p, i + 1, n)
  {
    var r := FrameAt(b, off).payload[i * SETTING_LEN..];
    assert forall k :: 0 <= k < SETTING_LEN ==> r[k] == q[k];
    assert r[2..6] == q[2..6];
  }

  /** `track_flow_frame`, on the SETTINGS or WINDOW_UPDATE frame at `off`. */
  method TrackFlowFrame(msg: Msg, fc: H2Flow, off: nat, kind: byte, flags: byte, sid: u32)
    requires msg.Valid() && fc.connWindow <= MAX_WINDOW && off + FRAME_HEADER_LEN <= |msg.bytes|
    requires kind == SETTINGS || kind == WINDOW_UPDATE
    requires var h := msg.bytes[off..]; kind == h[3] && flags == h[4] && sid == SidAt(h)
    modifies msg`lo, msg`hi, fc
    ensures msg.Valid() && Followed1(msg.bytes, off, msg.exposes, old(fc.View()), fc.View())
  {
    hide ReadSettings, SidAt;
    var end := off + if kind == WINDOW_UPDATE then 13 else SETTINGS_WINDOW;
    if end > msg.Size() {
      end := msg.Size();
    }
    var ok := msg.Pull(off, end);
    if !ok {
      return;
    }
    if kind == WINDOW_UPDATE {
      TrackWindowUpdate(msg, fc, sid);
    } else if flags % 2 != ACK_FLAG {
      TrackSettings(msg, fc);
    }
  }

  lemma ParseFirst(b: Bytes, off: nat)
    requires off <= |b| && Parse(b[off..]).Some? && b[off..] != []
    ensures HoldsFrame(b, off)
    ensures var next := off + FRAME_HEADER_LEN + |FrameAt(b, off).payload|;
            && next <= |b| && Parse(b[next..]).Some?
            && Parse(b[off..]).value == [FrameAt(b, off)] + Parse(b[next..]).value
  {
    var n := FRAME_HEADER_LEN + LenAt(b[off..]);
    assert b[off..][n..] == b[off + n..];
  }

  // The first `i` frames of a message of whole frames have been followed, the next one is at `off`.
  ghost predicate FollowedUpTo(b: Bytes, off: nat, i: nat, reliable: bool, fc0: Flow, fc: Flow) {
    Parse(b).Some? ==>
      var fs := Parse(b).value;
      && i <= |fs| && off <= |b| && Parse(b[off..]) == Some(fs[i..])
      && (reliable ==> fc == TrackFrames(fc0, fs[..i]))
      && fc.conn <= fc0.conn + Granted(fs[..i])
  }

  lemma FollowedOne(b: Bytes, off: nat, i: nat, reliable: bool, fc0: Flow, fc: Flow, fc': Flow)
    requires |b| < U32 && off + FRAME_HEADER_LEN <= |b|
    requires FollowedUpTo(b, off, i, reliable, fc0, fc) && Followed1(b, off, reliable, fc, fc')
    ensures FollowedUpTo(b, (off + FRAME_HEADER_LEN + LenAt(b[off..])) % U32, i + 1, reliable, fc0, fc')
  {
    hide TrackFrame, Increment, Parse, HoldsFrame, FrameAt;
    if Parse(b).Some? {
      var fs := Parse(b).value;
      ParseFirst(b, off);
      assert fs[i..][0] == fs[i] && fs[i..][1..] == fs[i + 1..] && fs[..i + 1] == fs[..i] + [fs[i]];
      TrackFramesAppend(fc0, fs[..i], fs[i]);
      GrantedAppend(fs[..i], fs[i]);
    }
  }

  lemma FollowedStop(b: Bytes, off: nat, i: nat, reliable: bool, fc0: Flow, fc: Flow)
    requires FollowedUpTo(b, off, i, reliable, fc0, fc) && i <= MAX_FLOW_FRAMES
    ensures Parse(b).Some? ==> fc.conn <= fc0.conn + Granted(Parse(b).value)
    ensures Parse(b).Some? && reliable && (off + FRAME_HEADER_LEN > |b| || i == MAX_FLOW_FRAMES) ==>
              fc == TrackFrames(fc0, First(Parse(b).value))
  {
    hide TrackFrames, Granted, Parse;
    if Parse(b).Some? {
      var fs := Parse(b).value;
      GrantedPrefix(fs, i);
      if off + FRAME_HEADER_LEN > |b| {
        EndsOnBoundary(b, off);
        assert fs[i..] == [] && fs[..i] == fs;
      }
      assert fs[..|fs|] == fs;
    }
  }

  lemma FollowedNone(b: Bytes, reliable: bool, fc: Flow)
    ensures FollowedUpTo(b, 0, 0, reliable, fc, fc)
  {
    assert b[0..] == b;
  }

  // One turn of the loop: the frame at `off`, if its header can be had.
  method TrackNext(msg: Msg, fc: H2Flow, off: nat) returns (ok: bool, next: nat)
    requires msg.Valid() && fc.connWindow <= MAX_WINDOW && off + FRAME_HEADER_LEN <= |msg.bytes|
    modifies msg`lo, msg`hi, fc
    ensures msg.Valid() && (msg.exposes ==> ok)
    ensures if ok then Followed1(msg.bytes, off, msg.exposes, old(fc.View()), fc.View()) && next == (off + FRAME_HEADER_LEN + LenAt(msg.bytes[off..])) % U32
            else fc.View() == old(fc.View())
  {
    hide TrackFrame, Increment;
    next := 0;
    ok := msg.Pull(off, off + FRAME_HEADER_LEN);
    if !ok {
      return;
    }
    var h := msg.Slice(0, FRAME_HEADER_LEN);
    HeaderRead(msg.bytes, off, h);
    next := (off + FRAME_HEADER_LEN + LenAt(h)) % U32;
    if h[3] == SETTINGS || h[3] == WINDOW_UPDATE {
      TrackFlowFrame(msg, fc, off, h[3], h[4], SidAt(h));
    } else {
      OtherFrame(msg.bytes, off, msg.exposes, fc.View());
    }
  }

  /**
   `track_flow`: follows the first frames of a message into the windows. On a message made of whole
   frames that is following each of the first sixteen in turn; if helpers fail some may be missed,
   but the connection window never grows past what those frames granted.
   */
  method TrackFlow(msg: Msg, fc: H2Flow)
    requires msg.Valid() && fc.connWindow <= MAX_WINDOW
    modifies msg`lo, msg`hi, fc
    ensures msg.Valid() && OnlyGrew(old(fc.View()), fc.View())
    ensures Parse(msg.bytes).Some? ==>
              && (msg.exposes ==> fc.View() == TrackFrames(old(fc.View()), First(Parse(msg.bytes).value)))
              && fc.View().conn <= old(fc.View()).conn + Granted(Parse(msg.bytes).value)
    ensures msg.exposes && Parse(msg.bytes).Some? ==>
              var fs := Parse(msg.bytes).value;
              Followed(fs) && OnFrames(old(fc.View()), fs).Some? ==> OnFrames(old(fc.View()), fs) == Some(fc.View())
  {
    hide FollowedUpTo, TrackFrames, Granted, Parse, OnFrames, Followed;
    ghost var fc0 := fc.View();
    ghost var off, i := FollowFrames(msg, fc);
    FollowedStop(msg.bytes, off, i, msg.exposes, fc0, fc.View());
    if Parse(msg.bytes).Some? {
      FirstIsProtocol(fc0, Parse(msg.bytes).value);
    }
  }

  lemma FirstIsProtocol(fc: Flow, fs: seq<Frame>)
    ensures Followed(fs) && OnFrames(fc, fs).Some? ==> OnFrames(fc, fs) == Some(TrackFrames(fc, First(fs)))
  {
    hide OnFrames, TrackFrames;
    if Followed(fs) && OnFrames(fc, fs).Some? {
      TrackIsProtocol(fc, fs);
    }
  }

  // The loop of `track_flow`. It stops early only behind the last whole header or if a helper fails.
  method FollowFrames(msg: Msg, fc: H2Flow) returns (ghost off: nat, ghost i: nat)
    requires msg.Valid() && fc.connWindow <= MAX_WINDOW
    modifies msg`lo, msg`hi, fc
    ensures msg.Valid() && OnlyGrew(old(fc.View()), fc.View()) && i <= MAX_FLOW_FRAMES
    ensures FollowedUpTo(msg.bytes, off, i, msg.exposes, old(fc.View()), fc.View())
    ensures msg.exposes ==> off + FRAME_HEADER_LEN > |msg.bytes| || i == MAX_FLOW_FRAMES
  {
    hide TrackFrame, SidAt, LenAt, Increment, FollowedUpTo, Followed1;
    ghost var fc0 := fc.View();
    FollowedNone(msg.bytes, msg.exposes, fc0);
    off, i := 0, 0;
    var at: nat, turn := 0, 0;
    while turn < MAX_FLOW_FRAMES
      invariant off == at && i == turn <= MAX_FLOW_FRAMES && msg.Valid() && OnlyGrew(fc0, fc.View())
      invariant FollowedUpTo(msg.bytes, off, i, msg.exposes, fc0, fc.View())
      decreases MAX_FLOW_FRAMES - turn
    {
      var size := msg.Size();
      if at + FRAME_HEADER_LEN > size {
        return;
      }
      ghost var fc1 := fc.View();
      var ok, next := TrackNext(msg, fc, at);
      if !ok {
        return;
      }
      Followed1Grew(msg.bytes, at, msg.exposes, fc1, fc.View());
      FollowedOne(msg.bytes, at, turn, msg.exposes, fc0, fc1, fc.View());
      at, turn := next, turn + 1;
      off, i := at, turn;
    }
  }

  lemma Followed1Grew(b: Bytes, off: nat, reliable: bool, fc: Flow, fc': Flow)
    requires Followed1(b, off, reliable, fc, fc')
    ensures OnlyGrew(fc, fc')
  {
  }

  // A message of whole frames has nothing behind its last one.
  lemma EndsOnBoundary(b: Bytes, off: nat)
    requires off <= |b| && Parse(b[off..]).Some? && off + FRAME_HEADER_LEN > |b|
    ensures Parse(b[off..]) == Some([])
  {
  }

  lemma HeaderRead(b: Bytes, off: nat, h: Bytes)
    requires off + FRAME_HEADER_LEN <= |b| && h == b[off..off + FRAME_HEADER_LEN]
    ensures LenAt(h) == LenAt(b[off..]) && SidAt(h) == SidAt(b[off..])
    ensures forall k :: 0 <= k < FRAME_HEADER_LEN ==> h[k] == b[off..][k]
  {
    var g := b[off..];
    assert forall k :: 0 <= k < FRAME_HEADER_LEN ==> h[k] == g[k];
    assert g[..3] == h[..3];
    assert g[5..9] == h[5..9];
  }

  lemma OtherFrame(b: Bytes, off: nat, reliable: bool, fc: Flow)
    requires off + FRAME_HEADER_LEN <= |b| && fc.conn <= MAX_WINDOW
    requires b[off + 3] != SETTINGS && b[off + 3] != WINDOW_UPDATE
    ensures Followed1(b, off, reliable, fc, fc)
  {
  }
}
