/** Laying the responses out in the arena, as `FastPath::attach` does, and answering from it. */
module Arena {
  import opened Wire
  import opened Serving
  import opened Rendering
  import opened Hpack

  const MAX_ROUTES: nat := 16
  const MAX_ROUTE_PATH: nat := 64
  const PAGE_SIZE: nat := 4096

  /** A configured route: the two keys it is found under, and the file it answers with. */
  datatype Asset = Asset(path: Bytes, huffPath: Bytes, body: Bytes, extension: Option<string>)

  function H1(a: Asset): Bytes { RenderH1(a.body, ContentType(a.extension)) }
  function H2(a: Asset): seq<Frame> { H2Frames(a.body, ContentType(a.extension)) }

  datatype H2Response = H2Response(body: Bytes, off: nat, sidOffs: seq<nat>, dataLen: nat)
  datatype Prepared = Prepared(asset: Asset, body: Bytes, bodyOff: nat, h2: Option<H2Response>)

  datatype Layout = Layout(prepared: seq<Prepared>, len: nat)

  datatype Region = Region(off: nat, bytes: Bytes)

  function RegionsOf(p: Prepared): seq<Region> {
    [Region(p.bodyOff, p.body)] + if p.h2.Some? then [Region(p.h2.value.off, p.h2.value.body)] else []
  }

  function Regions(ps: seq<Prepared>): seq<Region> {
    if ps == [] then [] else Regions(ps[..|ps| - 1]) + RegionsOf(ps[|ps| - 1])
  }

  /** Each region starts where the one before it ended. */
  predicate Tiles(rs: seq<Region>, len: nat) {
    if rs == [] then len == 0
    else var last := rs[|rs| - 1]; last.off + |last.bytes| == len && Tiles(rs[..|rs| - 1], last.off)
  }

  /** Regions that tile do not overlap, and none reaches past the end. */
  lemma {:induction false} TilesDisjoint(rs: seq<Region>, len: nat)
    requires Tiles(rs, len)
    ensures forall i :: 0 <= i < |rs| ==> rs[i].off + |rs[i].bytes| <= len
    ensures forall i, j :: 0 <= i < j < |rs| ==> rs[i].off + |rs[i].bytes| <= rs[j].off
  {
    if rs != [] {
      var front := rs[..|rs| - 1];
      TilesDisjoint(front, rs[|rs| - 1].off);
      assert forall i :: 0 <= i < |front| ==> front[i] == rs[i];
    }
  }

  /** Every byte in front of the end belongs to a region. */
  lemma {:induction false} TilesCover(rs: seq<Region>, len: nat, x: nat) returns (i: nat)
    requires Tiles(rs, len) && x < len
    ensures i < |rs| && rs[i].off <= x < rs[i].off + |rs[i].bytes|
  {
    if x >= rs[|rs| - 1].off {
      i := |rs| - 1;
    } else {
      i := TilesCover(rs[..|rs| - 1], rs[|rs| - 1].off, x);
    }
  }

  // ---- preparing the responses ----

  predicate TooLong(a: Asset) {
    |a.path| > 64 || |a.huffPath| > 64
  }

  predicate FirstPathsFit(assets: seq<Asset>, n: nat)
    requires n <= |assets|
  {
    forall i :: 0 <= i < n ==> !TooLong(assets[i])
  }

  predicate PathsFit(assets: seq<Asset>) {
    FirstPathsFit(assets, |assets|)
  }

  lemma OneMorePath(assets: seq<Asset>, i: nat)
    requires i < |assets| && FirstPathsFit(assets, i)
    ensures if TooLong(assets[i]) then !PathsFit(assets) else FirstPathsFit(assets, i + 1)
  {
  }

  lemma NoPaths(assets: seq<Asset>)
    ensures FirstPathsFit(assets, 0)
  {
  }

  /** Those of the first `n` assets the fast path answers with at all. */
  function Kept(assets: seq<Asset>, n: nat): seq<Asset>
    requires n <= |assets|
  {
    if n == 0 then []
    else Kept(assets, n - 1) + if |H1(assets[n - 1])| <= 448 * 1024 then [assets[n - 1]] else []
  }

  function AssetsOf(ps: seq<Prepared>): (r: seq<Asset>)
    ensures |r| == |ps| && forall i :: 0 <= i < |ps| ==> r[i] == ps[i].asset
  {
    seq(|ps|, i requires 0 <= i < |ps| => ps[i].asset)
  }

  /** What is prepared for a route is what its asset renders to. */
  ghost predicate Faithful(p: Prepared) {
    && p.body == H1(p.asset) && |p.body| <= 448 * 1024
    && (p.h2.Some? <==> |EncodeAll(H2(p.asset))| <= 448 * 1024)
    && (p.h2.Some? ==>
          && p.h2.value.body == EncodeAll(H2(p.asset))
          && p.h2.value.sidOffs == SidOffs(H2(p.asset), 0)
          && p.h2.value.dataLen == |p.asset.body|)
  }

  lemma ContentTypeLength(extension: Option<string>)
    ensures |ContentType(extension)| <= 24
  {
  }

  lemma HeaderBlockSmall(a: Asset)
    requires |a.body| <= MAX_ROUTE_BODY
    ensures |Decimal(|a.body|)| <= 6 && |HeaderBlock(|a.body|, ContentType(a.extension))| <= 37
  {
    ContentTypeLength(a.extension);
    assert Power10(6) == 1000000 by {
      assert Power10(3) == 1000;
      assert Power10(4) == 10000;
      assert Power10(5) == 100000;
    }
    DecimalLength(|a.body|, 6, 1000000);
  }

  lemma BodyShorter(a: Asset)
    ensures |a.body| <= |H1(a)|
  {
  }

  lemma RegionsAppend(ps: seq<Prepared>, p: Prepared, len: nat)
    requires Tiles(Regions(ps), len) && p.bodyOff == len
    requires p.h2.Some? ==> p.h2.value.off == len + |p.body|
    ensures Tiles(Regions(ps + [p]), len + |p.body| + if p.h2.Some? then |p.h2.value.body| else 0)
    ensures Regions(ps + [p]) == Regions(ps) + RegionsOf(p)
  {
    assert (ps + [p])[..|ps|] == ps;
    var rs, first := Regions(ps), [Region(p.bodyOff, p.body)];
    assert (rs + first)[..|rs|] == rs;
    if p.h2.Some? {
      var second := [Region(p.h2.value.off, p.h2.value.body)];
      assert rs + (first + second) == rs + first + second;
      assert (rs + first + second)[..|rs| + 1] == rs + first;
    } else {
      assert rs + (first + []) == rs + first;
    }
  }

  /** What is prepared for `a` if the arena is filled up to `off`. */
  function PreparedAt(a: Asset, off: nat): Option<Prepared> {
    if |H1(a)| > MAX_ROUTE_BODY then None
    else
      var resp := EncodeAll(H2(a));
      Some(Prepared(a, H1(a), off,
        if |resp| <= MAX_ROUTE_BODY then Some(H2Response(resp, off + |H1(a)|, SidOffs(H2(a), 0), |a.body|)) else None))
  }

  function EndOf(p: Prepared): nat {
    p.bodyOff + |p.body| + if p.h2.Some? then |p.h2.value.body| else 0
  }

  /** The layout of the first `n` assets. */
  function LayoutOf(assets: seq<Asset>, n: nat): Layout
    requires n <= |assets|
  {
    if n == 0 then Layout([], 0)
    else
      var l := LayoutOf(assets, n - 1);
      match PreparedAt(assets[n - 1], l.len)
      case None => l
      case Some(p) => Layout(l.prepared + [p], EndOf(p))
  }

  /** The layout keeps what fits, in order, each rendered faithfully, back to back from the start. */
  lemma {:induction false} LayoutTiles(assets: seq<Asset>, n: nat)
    requires n <= |assets|
    ensures var l := LayoutOf(assets, n);
            && AssetsOf(l.prepared) == Kept(assets, n) && |l.prepared| <= n
            && (forall i :: 0 <= i < |l.prepared| ==> Faithful(l.prepared[i]))
            && Tiles(Regions(l.prepared), l.len) && l.len <= n * (2 * MAX_ROUTE_BODY)
  {
    hide H1, H2, EncodeAll, SidOffs, RegionsOf, Regions, Tiles, PreparedAt, Faithful, EndOf;
    NothingTiles();
    if n > 0 {
      var l := LayoutOf(assets, n - 1);
      LayoutTiles(assets, n - 1);
      OneMore(l, assets[n - 1]);
      if PreparedAt(assets[n - 1], l.len).None? {
        assert Kept(assets, n - 1) + [] == Kept(assets, n - 1);
      }
    }
  }

  // What `a` adds to the layout so far.
  lemma OneMore(l: Layout, a: Asset)
    requires Tiles(Regions(l.prepared), l.len)
    ensures match PreparedAt(a, l.len)
            case None => |H1(a)| > MAX_ROUTE_BODY
            case Some(p) =>
              && |H1(a)| <= MAX_ROUTE_BODY && Faithful(p)
              && Tiles(Regions(l.prepared + [p]), EndOf(p)) && EndOf(p) <= l.len + 2 * MAX_ROUTE_BODY
              && AssetsOf(l.prepared + [p]) == AssetsOf(l.prepared) + [a]
  {
    hide H1, H2, EncodeAll, SidOffs, RegionsOf, Regions, Tiles;
    match PreparedAt(a, l.len)
    case None =>
    case Some(p) =>
      RegionsAppend(l.prepared, p, l.len);
      assert AssetsOf(l.prepared + [p]) == AssetsOf(l.prepared) + [a];
  }

  lemma NothingTiles()
    ensures Tiles(Regions([]), 0)
  {
  }

  /** One turn of the layout loop. */
  method PrepareOne(a: Asset, off: nat) returns (p: Option<Prepared>, end: nat)
    ensures p == PreparedAt(a, off) && end == if p.Some? then EndOf(p.value) else off
  {
    hide EncodeAll, H2Frames, HttpHead, SidOffs, HeaderBlock, ContentType, Decimal;
    var body := H1(a);
    if |body| > MAX_ROUTE_BODY {
      return None, off;
    }
    end := off + |body|;
    var h2Body, sidOffs, dataLen := RenderH2(a.body, ContentType(a.extension));
    if |h2Body| <= MAX_ROUTE_BODY {
      BodyShorter(a);
      HeaderBlockSmall(a);
      SidTableSuffices(a.body, ContentType(a.extension));
    }
    var h2 := None;
    if |h2Body| <= MAX_ROUTE_BODY && |sidOffs| <= MAX_SID_OFFS {
      h2 := Some(H2Response(h2Body, end, sidOffs, dataLen));
      end := end + |h2Body|;
    }
    p := Some(Prepared(a, body, off, h2));
  }

  /** The layout loop. It gives up on a path that does not fit a key. */
  method Prepare(assets: seq<Asset>) returns (res: Option<Layout>)
    ensures res == if |assets| <= 16 && PathsFit(assets)
                   then Some(LayoutOf(assets, |assets|)) else None
  {
    if |assets| > MAX_ROUTES {
      return None;
    }
    hide PreparedAt, EndOf, FirstPathsFit;
    var ps: seq<Prepared>, len: nat := [], 0;
    NoPaths(assets);
    for i := 0 to |assets|
      invariant FirstPathsFit(assets, i)
      invariant Layout(ps, len) == LayoutOf(assets, i)
    {
      OneMorePath(assets, i);
      if |assets[i].path| > MAX_ROUTE_PATH || |assets[i].huffPath| > MAX_ROUTE_PATH {
        return None;
      }
      var p, end := PrepareOne(assets[i], len);
      ps := if p.Some? then ps + [p.value] else ps;
      len := end;
    }
    res := Some(Layout(ps, len));
  }

  // ---- filling the arena and the table ----

  /** A table entry: everything in it is cut to 32 bits. */
  function RouteOf(p: Prepared): Route {
    match p.h2
    case None => Route(p.bodyOff % U32, |p.body| % U32, 0, 0, [], 0)
    case Some(h) => Route(p.bodyOff % U32, |p.body| % U32, h.off % U32, |h.body| % U32, h.sidOffs, h.dataLen % U32)
  }

  /** Every response is where its region says, whatever was written after it. */
  ghost predicate Holds(arena: Bytes, rs: seq<Region>) {
    forall i :: 0 <= i < |rs| ==>
      rs[i].off + |rs[i].bytes| <= |arena| && arena[rs[i].off..rs[i].off + |rs[i].bytes|] == rs[i].bytes
  }

  lemma KeptInFront(before: Bytes, now: Bytes, off: nat, done: seq<Region>)
    requires Holds(before, done) && |now| == |before| && off <= |now| && now[..off] == before[..off]
    requires forall i :: 0 <= i < |done| ==> done[i].off + |done[i].bytes| <= off
    ensures Holds(now, done)
  {
    forall i | 0 <= i < |done|
      ensures now[done[i].off..done[i].off + |done[i].bytes|] == done[i].bytes
    {
      var lo, hi := done[i].off, done[i].off + |done[i].bytes|;
      assert now[lo..hi] == now[..off][lo..hi] && before[lo..hi] == before[..off][lo..hi];
    }
  }

  method WriteRegion(arena: array<byte>, off: nat, bytes: Bytes, ghost done: seq<Region>)
    requires off + |bytes| <= arena.Length
    requires Holds(arena[..], done) && forall i :: 0 <= i < |done| ==> done[i].off + |done[i].bytes| <= off
    modifies arena
    ensures Holds(arena[..], done + [Region(off, bytes)])
  {
    ghost var before := arena[..];
    for i := 0 to |bytes|
      invariant arena[..off] == before[..off]
      invariant arena[off..off + i] == bytes[..i]
    {
      arena[off + i] := bytes[i];
    }
    ghost var now := arena[..];
    assert now[..off] == before[..off] && now[off..off + |bytes|] == bytes[..|bytes|];
    KeptInFront(before, now, off, done);
  }

  // How many regions the first `i` prepared routes have.
  lemma {:induction false} RegionsPrefix(ps: seq<Prepared>, i: nat)
    requires i < |ps|
    ensures Regions(ps[..i]) + RegionsOf(ps[i]) <= Regions(ps)
    decreases |ps|
  {
    if i < |ps| - 1 {
      var front := ps[..|ps| - 1];
      assert front[..i] == ps[..i];
      RegionsPrefix(front, i);
    }
  }

  lemma RegionAt(ps: seq<Prepared>, i: nat, k: nat)
    requires i < |ps| && k < |RegionsOf(ps[i])|
    ensures RegionsOf(ps[i])[k] in Regions(ps)
  {
    RegionsPrefix(ps, i);
    var rs := Regions(ps[..i]) + RegionsOf(ps[i]);
    assert rs[|Regions(ps[..i])| + k] == RegionsOf(ps[i])[k];
  }

  method FillOne(arena: array<byte>, p: Prepared, ghost done: seq<Region>, ghost len: nat)
    requires Tiles(done + RegionsOf(p), len) && len <= arena.Length && Holds(arena[..], done)
    modifies arena
    ensures Holds(arena[..], done + RegionsOf(p))
  {
    ghost var now, first := done + RegionsOf(p), [Region(p.bodyOff, p.body)];
    TilesDisjoint(now, len);
    hide Tiles, Holds;
    assert forall k :: 0 <= k < |done| ==> now[k] == done[k];
    assert now[|done|] == first[0];
    WriteRegion(arena, p.bodyOff, p.body, done);
    if p.h2.Some? {
      var h := p.h2.value;
      assert now[|done| + 1] == Region(h.off, h.body);
      assert forall k :: 0 <= k < |done + first| ==> (done + first)[k] == now[k];
      WriteRegion(arena, h.off, h.body, done + first);
      assert done + first + [Region(h.off, h.body)] == now;
    } else {
      assert done + first == now;
    }
  }

  lemma TilesPrefix(rs: seq<Region>, len: nat, n: nat) returns (end: nat)
    requires Tiles(rs, len) && n <= |rs|
    ensures Tiles(rs[..n], end) && end <= len
  {
    if n == |rs| {
      end := len;
      assert rs[..n] == rs;
    } else {
      end := TilesPrefix(rs[..|rs| - 1], rs[|rs| - 1].off, n);
      assert rs[..|rs| - 1][..n] == rs[..n];
    }
  }

  /** Copies every response to where the layout put it. */
  method Fill(arena: array<byte>, ps: seq<Prepared>, ghost len: nat)
    requires Tiles(Regions(ps), len) && len <= arena.Length
    modifies arena
    ensures Holds(arena[..], Regions(ps))
  {
    hide Tiles;
    for i := 0 to |ps|
      invariant Holds(arena[..], Regions(ps[..i]))
    {
      RegionsPrefix(ps, i);
      ghost var now := Regions(ps[..i]) + RegionsOf(ps[i]);
      assert Regions(ps)[..|now|] == now;
      ghost var end := TilesPrefix(Regions(ps), len, |now|);
      FillOne(arena, ps[i], Regions(ps[..i]), end);
      assert ps[..i + 1][..i] == ps[..i];
    }
    assert ps[..|ps|] == ps;
  }

  /** As many whole pages as `len` bytes take, and at least one. */
  function Pages(len: nat): (n: nat)
    ensures n * PAGE_SIZE % PAGE_SIZE == 0 && len <= n * PAGE_SIZE
    ensures n * PAGE_SIZE < len + PAGE_SIZE || (len == 0 && n == 1)
  {
    var n := (len + PAGE_SIZE - 1) / PAGE_SIZE;
    if n == 0 then 1 else n
  }

  /** The arena, in whole pages, with every response in it. */
  method Load(ps: seq<Prepared>, len: nat) returns (arena: array<byte>)
    requires Tiles(Regions(ps), len)
    ensures arena.Length == Pages(len) * PAGE_SIZE
    ensures fresh(arena) && arena.Length % PAGE_SIZE == 0 && len <= arena.Length
    ensures arena.Length < len + PAGE_SIZE || (len == 0 && arena.Length == PAGE_SIZE)
    ensures Holds(arena[..], Regions(ps))
  {
    hide Tiles, Holds, Regions, Pages;
    var pages := Pages(len);
    arena := new byte[pages * PAGE_SIZE];
    Fill(arena, ps, len);
  }

  // ---- what comes out of it ----

  ghost predicate Loaded(ps: seq<Prepared>, len: nat, arena: Bytes) {
    && (forall i :: 0 <= i < |ps| ==> Faithful(ps[i]))
    && Tiles(Regions(ps), len) && len <= |arena| < U32
    && Holds(arena, Regions(ps))
  }

  /**
   `FastPath::attach`, as far as it fills the table and the arena: refused if there are too many
   routes or a path is too long, and otherwise every file that fits has its entry and its bytes.
   */
  method Attach(assets: seq<Asset>) returns (res: Option<Layout>, routes: seq<Route>, arena: array<byte>)
    ensures res == if |assets| <= 16 && PathsFit(assets) then Some(LayoutOf(assets, |assets|)) else None
    ensures res.Some? ==>
              var ps := res.value.prepared;
              && AssetsOf(ps) == Kept(assets, |assets|)
              && Loaded(ps, res.value.len, arena[..])
              && |routes| == |ps| <= MAX_ROUTES && forall i :: 0 <= i < |ps| ==> routes[i] == RouteOf(ps[i])
  {
    hide LayoutOf, Kept, Tiles, Regions, Faithful, PathsFit, Holds, RouteOf;
    routes := [];
    res := Prepare(assets);
    if res == None {
      arena := new byte[0];
      return;
    }
    var ps, len := res.value.prepared, res.value.len;
    LayoutTiles(assets, |assets|);
    for i := 0 to |ps|
      invariant |routes| == i && forall k :: 0 <= k < i ==> routes[k] == RouteOf(ps[k])
    {
      routes := routes + [RouteOf(ps[i])];
    }
    arena := Load(ps, len);
  }

  /** The table the kernel program is handed only points at responses, so nothing it reads is out of reach. */
  lemma RoutesPlaced(ps: seq<Prepared>, len: nat, arena: Bytes, i: nat)
    requires Loaded(ps, len, arena) && i < |ps|
    ensures var p, r := ps[i], RouteOf(ps[i]);
            && Placed(r, arena)
            && r.bodyOff == p.bodyOff && r.bodyLen == |p.body|
            && (p.h2.Some? ==> r.h2BodyOff == p.h2.value.off && r.h2BodyLen == |p.h2.value.body| && r.dataLen == p.h2.value.dataLen)
            && arena[r.bodyOff..r.bodyOff + r.bodyLen] == p.body
            && (p.h2.Some? ==> arena[r.h2BodyOff..r.h2BodyOff + r.h2BodyLen] == p.h2.value.body)
  {
    hide Tiles, EncodeAll, SidOffs, HeaderBlock, H2Frames, HttpHead, ContentType, Decimal, Regions;
    var p, r := ps[i], RouteOf(ps[i]);
    BodyShorter(p.asset);
    RegionAt(ps, i, 0);
    if p.h2.Some? {
      RegionAt(ps, i, 1);
      HeaderBlockSmall(p.asset);
      SidTableSuffices(p.asset.body, ContentType(p.asset.extension));
      SidOffsInside(H2(p.asset), 0);
    }
  }

  /**
   End to end, over HTTP/2: whatever is configured next to it, a route that is answered on a stream
   is answered with one whole response on that stream that carries its file, and what it spends is
   what it carries.
   */
  lemma ServedResponse(ps: seq<Prepared>, len: nat, arena: Bytes, i: nat, sid: u32)
    requires Loaded(ps, len, arena) && i < |ps| && 0 < sid <= MAX_WINDOW
    requires 0 < BodyLen(RouteOf(ps[i]), sid)
    ensures Placed(RouteOf(ps[i]), arena)
    ensures var a := ps[i].asset;
            var fs := Parse(Response(RouteOf(ps[i]), arena, sid));
            var block := HeaderBlock(|a.body|, ContentType(a.extension));
            && fs.Some?
            && WellFormedResponse(fs.value, sid, block, a.body)
            && RouteOf(ps[i]).dataLen == |Payloads(fs.value[1..])|
            && DecodeFields(block, 3) == Some([Indexed(8), Literal(28, Str(false, Decimal(|a.body|))),
                                               Literal(31, Str(false, ContentType(a.extension)))])
  {
    hide Tiles, Holds, EncodeAll, SidOffs, HeaderBlock, H2Frames, HttpHead, ContentType, Decimal, Regions, Parse, Patch, DecodeFields, Payloads, Placed;
    var a := ps[i].asset;
    RoutesPlaced(ps, len, arena, i);
    BodyShorter(a);
    HeaderBlockSmall(a);
    ContentTypeLength(a.extension);
    ServedResponseWellFormed(a.body, ContentType(a.extension), sid);
    HeaderBlockDecodes(|a.body|, ContentType(a.extension));
  }

  /** End to end, over HTTP/1.1. */
  lemma ServedH1Response(ps: seq<Prepared>, len: nat, arena: Bytes, i: nat)
    requires Loaded(ps, len, arena) && i < |ps|
    ensures Placed(RouteOf(ps[i]), arena)
    ensures var a := ps[i].asset;
            && SplitHead(Response(RouteOf(ps[i]), arena, 0)) ==
               Some(([Ascii("HTTP/1.1 200 OK"), Ascii("Content-Length: ") + Decimal(|a.body|),
                      Ascii("Content-Type: ") + ContentType(a.extension), Ascii("Connection: keep-alive")], a.body))
            && (forall k :: 0 <= k < |Decimal(|a.body|)| ==> 48 <= Decimal(|a.body|)[k] <= 57)
            && FromDecimal(Decimal(|a.body|)) == |a.body|
  {
    hide Tiles, Holds, EncodeAll, SidOffs, HeaderBlock, H2Frames, HttpHead, ContentType, Decimal, Regions, SplitHead, Ascii, Placed;
    var a := ps[i].asset;
    RoutesPlaced(ps, len, arena, i);
    ContentTypeOneLine(a.extension);
    H1Reads(a.body, ContentType(a.extension));
  }

  lemma ContentTypeOneLine(extension: Option<string>)
    ensures OneLine(ContentType(extension))
  {
    AsciiOneLine("text/html; charset=utf-8");
    AsciiOneLine("application/javascript");
    AsciiOneLine("text/css");
    AsciiOneLine("application/json");
    AsciiOneLine("application/octet-stream");
  }
}
