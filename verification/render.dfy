/** Rendering a file into the responses the fast path answers with, and what a client makes of them. */
module Rendering {
  import opened Wire
  import opened Hpack
  import opened Serving

  const HEADERS: byte := 0x01
  const DATA: byte := 0x00
  const END_HEADERS: byte := 0x04
  const END_STREAM: byte := 0x01
  const MAX_FRAME_SIZE: nat := 16384

  // indices of the static table, appendix A of RFC 7541
  const STATUS_200: nat := 8
  const CONTENT_LENGTH: byte := 28
  const CONTENT_TYPE: byte := 31

  function Ascii(s: string): Bytes {
    seq(|s|, i requires 0 <= i < |s| => s[i] as int % 256)
  }

  function ContentType(extension: Option<string>): Bytes {
    match extension
    case Some("html") => Ascii("text/html; charset=utf-8")
    case Some("js") => Ascii("application/javascript")
    case Some("css") => Ascii("text/css")
    case Some("json") => Ascii("application/json")
    case _ => Ascii("application/octet-stream")
  }

  function Decimal(n: nat): Bytes {
    if n < 10 then [48 + n] else Decimal(n / 10) + [48 + n % 10]
  }

  function FromDecimal(b: Bytes): nat
    requires forall i :: 0 <= i < |b| ==> 48 <= b[i] <= 57
  {
    if b == [] then 0 else FromDecimal(b[..|b| - 1]) * 10 + (b[|b| - 1] - 48)
  }

  lemma {:induction false} DecimalRoundTrip(n: nat)
    ensures forall i :: 0 <= i < |Decimal(n)| ==> 48 <= Decimal(n)[i] <= 57
    ensures FromDecimal(Decimal(n)) == n && 0 < |Decimal(n)|
  {
    if n >= 10 {
      DecimalRoundTrip(n / 10);
      assert Decimal(n)[..|Decimal(n)| - 1] == Decimal(n / 10);
    } else {
      assert Decimal(n)[..0] == [];
    }
  }

  lemma {:induction false} DecimalLength(n: nat, digits: nat, bound: nat)
    requires digits > 0 && bound == Power10(digits) && n < bound
    ensures |Decimal(n)| <= digits
    decreases digits
  {
    if n >= 10 {
      DecimalLength(n / 10, digits - 1, Power10(digits - 1));
    }
  }

  function Power10(k: nat): nat {
    if k == 0 then 1 else 10 * Power10(k - 1)
  }

  function HttpHead(len: nat, contentType: Bytes): Bytes {
    Ascii("HTTP/1.1 200 OK\r\nContent-Length: ") + Decimal(len) + Ascii("\r\nContent-Type: ") + contentType
    + (Ascii("\r\nConnection: keep-alive") + Ascii("\r\n\r\n"))
  }

  /** `render_response`. */
  function RenderH1(body: Bytes, contentType: Bytes): Bytes {
    HttpHead(|body|, contentType) + body
  }

  // ---- what an HTTP/1.1 client reads ----

  const CRLF: Bytes := [13, 10]

  /** The bytes up to the next line break, and those behind it. */
  function SplitLine(b: Bytes): Option<(Bytes, Bytes)>
    decreases |b|
  {
    if |b| < 2 then None
    else if b[0] == 13 && b[1] == 10 then Some(([], b[2..]))
    else
      match SplitLine(b[1..])
      case None => None
      case Some((line, rest)) => Some(([b[0]] + line, rest))
  }

  /** The lines of a response up to the empty one, and the body behind it. */
  function SplitHead(b: Bytes): Option<(seq<Bytes>, Bytes)>
    decreases |b|
  {
    match SplitLine(b)
    case None => None
    case Some((line, rest)) =>
      if line == [] then Some(([], rest))
      else if |rest| >= |b| then None
      else
        match SplitHead(rest)
        case None => None
        case Some((lines, body)) => Some(([line] + lines, body))
  }

  predicate OneLine(b: Bytes) {
    forall i :: 0 <= i < |b| ==> b[i] != 13
  }

  lemma {:induction false} SplitLineOf(line: Bytes, rest: Bytes)
    requires OneLine(line)
    ensures SplitLine(line + CRLF + rest) == Some((line, rest))
    decreases |line|
  {
    var b := line + CRLF + rest;
    if line == [] {
      assert b[2..] == rest;
    } else {
      assert b[1..] == line[1..] + CRLF + rest && b[0] == line[0];
      SplitLineOf(line[1..], rest);
      assert [line[0]] + line[1..] == line;
    }
  }

  lemma SplitHeadOf(line: Bytes, rest: Bytes, lines: seq<Bytes>, body: Bytes)
    requires OneLine(line) && line != [] && SplitHead(rest) == Some((lines, body))
    ensures SplitHead(line + CRLF + rest) == Some(([line] + lines, body))
  {
    SplitLineOf(line, rest);
  }

  lemma AsciiOneLine(s: string)
    requires forall i :: 0 <= i < |s| ==> s[i] as int % 256 != 13
    ensures OneLine(Ascii(s))
  {
  }

  /** The rendering is a response with the status, the three headers and the file behind them, of the length it says. */
  lemma H1Reads(body: Bytes, contentType: Bytes)
    requires OneLine(contentType)
    ensures SplitHead(RenderH1(body, contentType)) ==
            Some(([Ascii("HTTP/1.1 200 OK"), Ascii("Content-Length: ") + Decimal(|body|),
                   Ascii("Content-Type: ") + contentType, Ascii("Connection: keep-alive")], body))
    ensures (forall i :: 0 <= i < |Decimal(|body|)| ==> 48 <= Decimal(|body|)[i] <= 57) && FromDecimal(Decimal(|body|)) == |body|
  {
    hide SplitHead, SplitLine, Decimal, FromDecimal;
    DecimalRoundTrip(|body|);
    var status, len := Ascii("HTTP/1.1 200 OK"), Ascii("Content-Length: ") + Decimal(|body|);
    var kind, keep := Ascii("Content-Type: ") + contentType, Ascii("Connection: keep-alive");
    AsciiOneLine("HTTP/1.1 200 OK");
    AsciiOneLine("Content-Length: ");
    AsciiOneLine("Content-Type: ");
    AsciiOneLine("Connection: keep-alive");
    var t0 := CRLF + body;
    NothingMore(body);
    var t1 := keep + CRLF + t0;
    SplitHeadOf(keep, t0, [], body);
    assert [keep] + [] == [keep];
    var t2 := kind + CRLF + t1;
    SplitHeadOf(kind, t1, [keep], body);
    var t3 := len + CRLF + t2;
    SplitHeadOf(len, t2, [kind] + [keep], body);
    SplitHeadOf(status, t3, [len] + ([kind] + [keep]), body);
    HeadIs(body, contentType);
    assert [status] + ([len] + ([kind] + [keep])) == [status, len, kind, keep];
  }

  lemma NothingMore(body: Bytes)
    ensures SplitHead(CRLF + body) == Some(([], body))
  {
    SplitLineOf([], body);
    assert [] + CRLF + body == CRLF + body;
  }

  lemma HeadIs(body: Bytes, contentType: Bytes)
    ensures RenderH1(body, contentType) ==
            Ascii("HTTP/1.1 200 OK") + CRLF + (Ascii("Content-Length: ") + Decimal(|body|) + CRLF
            + (Ascii("Content-Type: ") + contentType + CRLF + (Ascii("Connection: keep-alive") + CRLF + (CRLF + body))))
  {
    hide Decimal, Ascii;
    var status, len, kind, keep := Ascii("HTTP/1.1 200 OK"), Ascii("Content-Length: "), Ascii("Content-Type: "), Ascii("Connection: keep-alive");
    StatusText();
    TypeText();
    KeepText();
    Regroup(status, CRLF, len, Decimal(|body|), kind, contentType, keep, body);
  }

  lemma StatusText()
    ensures Ascii("HTTP/1.1 200 OK\r\nContent-Length: ") == Ascii("HTTP/1.1 200 OK") + CRLF + Ascii("Content-Length: ")
  {
  }

  lemma TypeText()
    ensures Ascii("\r\nContent-Type: ") == CRLF + Ascii("Content-Type: ")
  {
  }

  lemma KeepText()
    ensures Ascii("\r\nConnection: keep-alive") + Ascii("\r\n\r\n") == CRLF + Ascii("Connection: keep-alive") + CRLF + CRLF
  {
    BreakText();
    ConnectionText();
    hide Ascii;
    var keep := CRLF + Ascii("Connection: keep-alive");
    assert keep + (CRLF + CRLF) == keep + CRLF + CRLF;
  }

  lemma BreakText()
    ensures Ascii("\r\n\r\n") == CRLF + CRLF
  {
  }

  lemma ConnectionText()
    ensures Ascii("\r\nConnection: keep-alive") == CRLF + Ascii("Connection: keep-alive")
  {
  }

  lemma Regroup(status: Bytes, r: Bytes, len: Bytes, n: Bytes, kind: Bytes, t: Bytes, keep: Bytes, body: Bytes)
    ensures status + r + len + n + (r + kind) + t + (r + keep + r + r) + body
         == status + r + (len + n + r + (kind + t + r + (keep + r + (r + body))))
  {
    var x := keep + r + (r + body);
    var y := kind + t + r + x;
    var front := status + r + len + n;
    RegroupTail(front + (r + kind) + t, r, keep, body);
    RegroupLine(front, r, kind, t, x);
    RegroupLine(status, r, len, n, y);
    assert status + (r + len) == status + r + len;
  }

  lemma RegroupTail(x: Bytes, r: Bytes, keep: Bytes, body: Bytes)
    ensures x + (r + keep + r + r) + body == x + (r + (keep + r + (r + body)))
  {
    assert (r + keep + r + r) + body == r + (keep + r + (r + body));
  }

  lemma RegroupLine(x: Bytes, r: Bytes, name: Bytes, value: Bytes, rest: Bytes)
    ensures x + (r + name) + value + (r + rest) == x + r + (name + value + r + rest)
    ensures x + (r + name) + value + (r + rest) == x + (r + (name + value + r + rest))
  {
  }

  // ---- the header block ----

  /** `hpack_literal`: the length is cut to a byte. */
  function HpackLiteral(nameIdx: byte, value: Bytes): Bytes
    requires nameIdx >= 15
  {
    [0x0F, nameIdx - 15, |value| % 256] + value
  }

  function HeaderBlock(len: nat, contentType: Bytes): Bytes {
    [0x88] + HpackLiteral(CONTENT_LENGTH, Decimal(len)) + HpackLiteral(CONTENT_TYPE, contentType)
  }

  /** A field as sections 6.1 and 6.2.2 of RFC 7541 represent it: neither touches the dynamic table. */
  datatype Field = Indexed(idx: nat) | Literal(nameIdx: nat, value: Str)

  function DecodeField(b: Bytes): Option<(Field, Bytes)> {
    if b == [] then None
    else if b[0] >= 128 then
      match DecodeInt(128, b)
      case None => None
      case Some((idx, rest)) => Some((Indexed(idx), rest))
    else if b[0] < 16 then
      match DecodeInt(16, b)
      case None => None
      case Some((idx, rest)) =>
        match DecodeStr(rest)
        case None => None
        case Some((value, rest')) => Some((Literal(idx, value), rest'))
    else None
  }

  function DecodeFields(b: Bytes, n: nat): Option<seq<Field>>
    decreases n
  {
    if n == 0 then if b == [] then Some([]) else None
    else
      match DecodeField(b)
      case None => None
      case Some((f, rest)) =>
        match DecodeFields(rest, n - 1)
        case None => None
        case Some(fs) => Some([f] + fs)
  }

  lemma LiteralDecodes(nameIdx: byte, value: Bytes, rest: Bytes)
    requires 15 <= nameIdx < 15 + 128 && |value| <= MAX_SYNC_FIELD
    ensures DecodeField(HpackLiteral(nameIdx, value) + rest) == Some((Literal(nameIdx, Str(false, value)), rest))
  {
    var b := HpackLiteral(nameIdx, value) + rest;
    var s := Str(false, value);
    assert b[1..] == [nameIdx - 15] + (RenderStr(s) + rest);
    assert b[1..][1..] == RenderStr(s) + rest;
    StrRoundTrip(s, rest);
  }

  /**
   What a client reads: `:status` 200, `content-length` in decimal and `content-type`, which is what
   indices 8, 28 and 31 stand for in appendix A of RFC 7541, none of them added to its table.
   */
  lemma HeaderBlockDecodes(len: nat, contentType: Bytes)
    requires |Decimal(len)| <= MAX_SYNC_FIELD && |contentType| <= MAX_SYNC_FIELD
    ensures DecodeFields(HeaderBlock(len, contentType), 3) ==
            Some([Indexed(8), Literal(28, Str(false, Decimal(len))), Literal(31, Str(false, contentType))])
  {
    hide DecodeStr, Decimal;
    var b := HeaderBlock(len, contentType);
    var lenField, typeField := HpackLiteral(CONTENT_LENGTH, Decimal(len)), HpackLiteral(CONTENT_TYPE, contentType);
    assert b[1..] == lenField + typeField && typeField + [] == typeField;
    assert DecodeField(b) == Some((Indexed(STATUS_200), lenField + typeField));
    LiteralDecodes(CONTENT_LENGTH, Decimal(len), typeField);
    LiteralDecodes(CONTENT_TYPE, contentType, []);
    var typeIs, lenIs := Literal(CONTENT_TYPE, Str(false, contentType)), Literal(CONTENT_LENGTH, Str(false, Decimal(len)));
    DecodeOneMore(typeField, 1, typeIs, [], [], [typeIs]);
    DecodeOneMore(lenField + typeField, 2, lenIs, typeField, [typeIs], [lenIs, typeIs]);
    DecodeOneMore(b, 3, Indexed(STATUS_200), lenField + typeField, [lenIs, typeIs], [Indexed(STATUS_200), lenIs, typeIs]);
  }

  lemma DecodeOneMore(b: Bytes, n: nat, f: Field, rest: Bytes, fs: seq<Field>, all: seq<Field>)
    requires n > 0 && DecodeField(b) == Some((f, rest)) && DecodeFields(rest, n - 1) == Some(fs) && all == [f] + fs
    ensures DecodeFields(b, n) == Some(all)
  {
  }

  // ---- the frames ----

  /** `chunks`, with the empty chunk an empty body still needs. */
  function Chunks(body: Bytes): seq<Bytes> {
    if |body| <= MAX_FRAME_SIZE then [body] else [body[..MAX_FRAME_SIZE]] + Chunks(body[MAX_FRAME_SIZE..])
  }

  function DataFrames(chunks: seq<Bytes>): seq<Frame> {
    if chunks == [] then []
    else [Frame(DATA, if |chunks| == 1 then END_STREAM else 0, 0, chunks[0])] + DataFrames(chunks[1..])
  }

  function H2Frames(body: Bytes, contentType: Bytes): seq<Frame> {
    [Frame(HEADERS, END_HEADERS, 0, HeaderBlock(|body|, contentType))] + DataFrames(Chunks(body))
  }

  /** Where the stream ids of `fs` are, if they start at `base`. */
  function SidOffs(fs: seq<Frame>, base: nat): seq<nat>
    decreases |fs|
  {
    if fs == [] then [] else [base + 5] + SidOffs(fs[1..], base + |Encode(fs[0])|)
  }

  function WithSid(fs: seq<Frame>, sid: u32): (r: seq<Frame>)
    ensures |r| == |fs| && forall i :: 0 <= i < |fs| ==> r[i] == fs[i].(sid := sid)
  {
    if fs == [] then [] else [fs[0].(sid := sid)] + WithSid(fs[1..], sid)
  }

  lemma {:induction false} SidOffsInside(fs: seq<Frame>, base: nat)
    ensures |SidOffs(fs, base)| == |fs|
    ensures forall i :: 0 <= i < |fs| ==> base <= SidOffs(fs, base)[i] && SidOffs(fs, base)[i] + 4 <= base + |EncodeAll(fs)|
    decreases |fs|
  {
    if fs != [] {
      SidOffsInside(fs[1..], base + |Encode(fs[0])|);
    }
  }

  lemma PatchFrame(pre: Bytes, f: Frame, rest: Bytes, sid: u32)
    requires f.sid == 0
    ensures PatchOne(pre + (Encode(f) + rest), |pre| + 5, sid) == pre + Encode(f.(sid := sid)) + rest
  {
    var head := BE24(|f.payload|) + [f.kind, f.flags];
    assert Encode(f) == head + BE32(0) + f.payload;
    assert Encode(f.(sid := sid)) == head + BE32(sid) + f.payload;
    var b := pre + (Encode(f) + rest);
    assert b[..|pre| + 5] == pre + head;
    assert b[|pre| + 9..] == f.payload + rest;
    assert pre + head + BE32(sid) + (f.payload + rest) == pre + (head + BE32(sid) + f.payload) + rest;
  }

  /** Patching the ids in is rendering the frames with their id to begin with. */
  lemma {:induction false} PatchedFrames(pre: Bytes, fs: seq<Frame>, sid: u32)
    requires forall i :: 0 <= i < |fs| ==> fs[i].sid == 0
    ensures Patch(pre + EncodeAll(fs), SidOffs(fs, |pre|), sid) == pre + EncodeAll(WithSid(fs, sid))
    decreases |fs|
  {
    hide Encode, PatchOne;
    if fs != [] {
      var f, later := fs[0].(sid := sid), fs[1..];
      var pre' := pre + Encode(f);
      SameLength(fs[0], sid);
      assert SidOffs(fs, |pre|) == [|pre| + 5] + SidOffs(later, |pre'|);
      PatchFrame(pre, fs[0], EncodeAll(later), sid);
      PatchFirst(pre + EncodeAll(fs), |pre| + 5, SidOffs(later, |pre'|), sid);
      PatchedFrames(pre', later, sid);
      EncodeWithSid(pre, fs, sid);
    }
  }

  lemma EncodeWithSid(pre: Bytes, fs: seq<Frame>, sid: u32)
    requires fs != []
    ensures pre + Encode(fs[0].(sid := sid)) + EncodeAll(WithSid(fs[1..], sid)) == pre + EncodeAll(WithSid(fs, sid))
  {
    hide Encode;
    var f, later := fs[0].(sid := sid), WithSid(fs[1..], sid);
    assert WithSid(fs, sid) == [f] + later && ([f] + later)[1..] == later;
    assert pre + Encode(f) + EncodeAll(later) == pre + (Encode(f) + EncodeAll(later));
  }

  lemma PatchFirst(b: Bytes, off: nat, offs: seq<nat>, sid: u32)
    ensures Patch(b, [off] + offs, sid) == Patch(PatchOne(b, off, sid), offs, sid)
  {
    assert ([off] + offs)[1..] == offs;
  }

  lemma EncodeOne(f: Frame)
    ensures EncodeAll([f]) == Encode(f)
  {
    assert [f][1..] == [] && Encode(f) + [] == Encode(f);
  }

  lemma SameLength(f: Frame, sid: u32)
    ensures |Encode(f.(sid := sid))| == |Encode(f)| == FRAME_HEADER_LEN + |f.payload|
  {
  }

  /** What a client has to see to take `fs` for the whole of a response with `body` on `sid`. */
  ghost predicate WellFormedResponse(fs: seq<Frame>, sid: u32, block: Bytes, body: Bytes) {
    && |fs| >= 2
    && fs[0] == Frame(0x01, 0x04, sid, block)
    && (forall i :: 0 < i < |fs| ==> fs[i].kind == 0x00 && fs[i].sid == sid && |fs[i].payload| <= 16384)
    && (forall i :: 0 <= i < |fs| ==> (fs[i].flags % 2 == 1 <==> i == |fs| - 1))
    && Payloads(fs[1..]) == body
  }

  function Payloads(fs: seq<Frame>): Bytes {
    if fs == [] then [] else fs[0].payload + Payloads(fs[1..])
  }

  lemma {:induction false} ChunksCover(body: Bytes)
    ensures Chunks(body) != [] && Concat(Chunks(body)) == body
    ensures forall i :: 0 <= i < |Chunks(body)| ==> |Chunks(body)[i]| <= MAX_FRAME_SIZE
    ensures (|Chunks(body)| - 1) * MAX_FRAME_SIZE <= |body| && (body != [] ==> (|Chunks(body)| - 1) * MAX_FRAME_SIZE < |body|)
    decreases |body|
  {
    if |body| > MAX_FRAME_SIZE {
      ChunksCover(body[MAX_FRAME_SIZE..]);
      assert Chunks(body)[1..] == Chunks(body[MAX_FRAME_SIZE..]);
    } else {
      assert Concat([body]) == body;
    }
  }

  lemma {:induction false} DataFramesCarry(chunks: seq<Bytes>)
    ensures var fs := DataFrames(chunks);
            && |fs| == |chunks| && Payloads(fs) == Concat(chunks)
            && (forall i :: 0 <= i < |fs| ==>
                  fs[i] == Frame(DATA, if i == |fs| - 1 then END_STREAM else 0, 0, chunks[i]))
            && |EncodeAll(fs)| == |Concat(chunks)| + FRAME_HEADER_LEN * |chunks|
  {
    hide Encode;
    if chunks != [] {
      DataFramesCarry(chunks[1..]);
      SameLength(DataFrames(chunks)[0], 0);
    }
  }

  lemma {:induction false} PayloadsWithSid(fs: seq<Frame>, sid: u32)
    ensures Payloads(WithSid(fs, sid)) == Payloads(fs)
  {
    if fs != [] {
      PayloadsWithSid(fs[1..], sid);
    }
  }

  lemma FramesOf(body: Bytes, contentType: Bytes)
    requires |HeaderBlock(|body|, contentType)| <= MAX_FRAME_SIZE
    ensures var fs := H2Frames(body, contentType);
            && |fs| == 1 + |Chunks(body)| && |fs| >= 2
            && (forall i :: 0 <= i < |fs| ==> fs[i].sid == 0 && |fs[i].payload| <= MAX_FRAME_SIZE)
            && |EncodeAll(fs)| == FRAME_HEADER_LEN * |fs| + |HeaderBlock(|body|, contentType)| + |body|
  {
    hide Encode, HeaderBlock;
    var fs := H2Frames(body, contentType);
    ChunksCover(body);
    DataFramesCarry(Chunks(body));
    SameLength(fs[0], 0);
    assert fs[1..] == DataFrames(Chunks(body));
  }

  /**
   The rendering, with the ids of a stream patched in, is what a client takes for one whole response
   on that stream.
   */
  lemma ServedResponseWellFormed(body: Bytes, contentType: Bytes, sid: u32)
    requires |HeaderBlock(|body|, contentType)| <= MAX_FRAME_SIZE && sid <= MAX_WINDOW
    ensures var fs := H2Frames(body, contentType);
            var p := Parse(Patch(EncodeAll(fs), SidOffs(fs, 0), sid));
            p.Some? && WellFormedResponse(p.value, sid, HeaderBlock(|body|, contentType), body)
  {
    hide EncodeAll, Encode, HeaderBlock, Patch, SidOffs, Parse, H2Frames, WellFormedResponse;
    var fs := H2Frames(body, contentType);
    FramesOf(body, contentType);
    PatchedFrames([], fs, sid);
    assert [] + EncodeAll(fs) == EncodeAll(fs) && [] + EncodeAll(WithSid(fs, sid)) == EncodeAll(WithSid(fs, sid));
    ParseEncodeAll(WithSid(fs, sid));
    FramesWellFormed(body, contentType, sid);
  }

  lemma FramesWellFormed(body: Bytes, contentType: Bytes, sid: u32)
    requires |HeaderBlock(|body|, contentType)| <= MAX_FRAME_SIZE
    ensures WellFormedResponse(WithSid(H2Frames(body, contentType), sid), sid, HeaderBlock(|body|, contentType), body)
  {
    hide HeaderBlock, EncodeAll, Payloads, H2Frames, WithSid;
    var fs := H2Frames(body, contentType);
    var served := WithSid(fs, sid);
    FramesOf(body, contentType);
    FramesAre(body, contentType);
    PayloadsWithSid(fs[1..], sid);
    assert served[1..] == WithSid(fs[1..], sid) by {
      assert forall i :: 0 <= i < |fs| - 1 ==> served[1..][i] == fs[1..][i].(sid := sid);
    }
  }

  lemma FramesAre(body: Bytes, contentType: Bytes)
    ensures var fs := H2Frames(body, contentType);
            && fs != [] && fs[0] == Frame(HEADERS, END_HEADERS, 0, HeaderBlock(|body|, contentType))
            && (forall i :: 0 < i < |fs| ==> fs[i].kind == DATA && fs[i].flags == if i == |fs| - 1 then END_STREAM else 0)
            && Payloads(fs[1..]) == body
  {
    hide HeaderBlock, EncodeAll, Payloads, Chunks, DataFrames, Concat;
    var fs, chunks := H2Frames(body, contentType), Chunks(body);
    ChunksCover(body);
    DataFramesCarry(chunks);
    assert fs[1..] == DataFrames(chunks);
    forall i | 0 < i < |fs|
      ensures fs[i].kind == DATA && fs[i].flags == if i == |fs| - 1 then END_STREAM else 0
    {
      assert fs[i] == DataFrames(chunks)[i - 1];
    }
  }

  /** The table of stream ids never turns a rendering down that fits the chunks. */
  lemma SidTableSuffices(body: Bytes, contentType: Bytes)
    requires |HeaderBlock(|body|, contentType)| <= MAX_FRAME_SIZE
    requires |EncodeAll(H2Frames(body, contentType))| <= MAX_ROUTE_BODY
    ensures |SidOffs(H2Frames(body, contentType), 0)| <= 29 < MAX_SID_OFFS
  {
    hide HeaderBlock;
    FramesOf(body, contentType);
    ChunksCover(body);
    SidOffsInside(H2Frames(body, contentType), 0);
  }

  // ---- the renderer ----

  function H2Frame(kind: byte, flags: byte, payload: Bytes): Bytes {
    BE24(|payload|) + [kind, flags] + BE32(0) + payload
  }

  /** `render_h2_response`: the frames of the response, where their stream ids are, and what is flow controlled. */
  method RenderH2(body: Bytes, contentType: Bytes) returns (resp: Bytes, sidOffs: seq<nat>, dataLen: nat)
    ensures resp == EncodeAll(H2Frames(body, contentType))
    ensures sidOffs == SidOffs(H2Frames(body, contentType), 0)
    ensures dataLen == |Payloads(H2Frames(body, contentType)[1..])| == |body|
  {
    hide Encode, HeaderBlock;
    var hdrs := HeaderBlock(|body|, contentType);
    resp := H2Frame(HEADERS, END_HEADERS, hdrs);
    sidOffs := [5];
    var chunks := Chunks(body);
    ghost var fs := [Frame(HEADERS, END_HEADERS, 0, hdrs)];
    RenderedOne(fs[0]);
    SidOffsOne(fs[0]);
    assert DataFrames(chunks[0..]) == DataFrames(chunks);
    for i := 0 to |chunks|
      invariant resp == EncodeAll(fs) && sidOffs == SidOffs(fs, 0)
      invariant H2Frames(body, contentType) == fs + DataFrames(chunks[i..])
    {
      var chunk := chunks[i];
      var flags := if i + 1 == |chunks| then END_STREAM else 0;
      ghost var f := Frame(DATA, flags, 0, chunk);
      assert chunks[i..][0] == chunk && chunks[i..][1..] == chunks[i + 1..];
      assert DataFrames(chunks[i..]) == [f] + DataFrames(chunks[i + 1..]);
      RenderedOne(f);
      EncodeAllConcat(fs, [f]);
      SidOffsAppend(fs, f, 0);
      sidOffs := sidOffs + [|resp| + 5];
      resp := resp + H2Frame(DATA, flags, chunk);
      assert fs + ([f] + DataFrames(chunks[i + 1..])) == fs + [f] + DataFrames(chunks[i + 1..]);
      fs := fs + [f];
    }
    assert fs + [] == fs;
    ChunksCover(body);
    DataFramesCarry(chunks);
    assert H2Frames(body, contentType)[1..] == DataFrames(chunks);
    dataLen := |body|;
  }

  lemma RenderedOne(f: Frame)
    requires f.sid == 0
    ensures EncodeAll([f]) == Encode(f) == H2Frame(f.kind, f.flags, f.payload)
  {
    EncodeOne(f);
  }

  lemma SidOffsOne(f: Frame)
    ensures SidOffs([f], 0) == [5]
  {
    assert [f][1..] == [];
  }

  lemma {:induction false} SidOffsAppend(fs: seq<Frame>, f: Frame, base: nat)
    ensures SidOffs(fs + [f], base) == SidOffs(fs, base) + [base + |EncodeAll(fs)| + 5]
    decreases |fs|
  {
    hide Encode;
    if fs == [] {
      assert fs + [f] == [f] && [f][1..] == [];
    } else {
      var base' := base + |Encode(fs[0])|;
      assert (fs + [f])[0] == fs[0] && (fs + [f])[1..] == fs[1..] + [f];
      SidOffsAppend(fs[1..], f, base');
      assert [base + 5] + (SidOffs(fs[1..], base') + [base' + |EncodeAll(fs[1..])| + 5])
          == [base + 5] + SidOffs(fs[1..], base') + [base' + |EncodeAll(fs[1..])| + 5];
    }
  }
}
