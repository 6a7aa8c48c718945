/**
 * The older tile renderer (WtsImage.render): tiles of a fixed local map
 * server, anchored at latitude 45 and longitude -22.5, at a zoom level that
 * truncates log2 of the scale toward zero, kept in an unbounded cache.
 *
 * Doubles are exact reals here; the server, the decoder and the capabilities
 * document are parameters, and the thread pool is replaced by running one
 * tile after the other in loop order.
 */
module WtsImage {
  import opened Wrappers
  import opened Imaging
  import opened TileMath
  import opened Decimal

  /** Edge of a tile, in pixels requested and in local units. */
  const TILE_SIZE: int := 256

  /** Latitude of the top of row 1 and longitude of the left of column 0. */
  const WY0: real := 45.0
  const WX0: real := -22.5

  /** The only layer name render asks for. */
  const REGIONAL: string := "regional"

  /** logIntScale, wtsScale = 2^logIntScale and relScale = wtsScale / scaleFactor. */
  datatype Zoom = Zoom(logIntScale: int, wtsScale: real, relScale: real)

  /**
   * The zoom level is log2 of the scale cast to int, so it rounds toward
   * zero: down above 1 and up below 1. relScale is then in (1/2, 1] for
   * scales of at least 1 and in [1, 2) below.
   */
  function ZoomOf(scaleFactor: real): (z: Zoom)
    requires scaleFactor > 0.0
    ensures z.wtsScale == Pow2(z.logIntScale)
    ensures scaleFactor >= 1.0 ==> z.logIntScale >= 0 && 0.5 < z.relScale <= 1.0
    ensures scaleFactor < 1.0 ==> z.logIntScale <= 0 && 1.0 <= z.relScale < 2.0
    ensures z.relScale * scaleFactor == z.wtsScale
  {
    var k := TruncLog2(scaleFactor);
    Pow2Succ(k);
    Pow2Succ(k - 1);
    RatioBounds(Pow2(k), scaleFactor);
    Zoom(k, Pow2(k), Pow2(k) / scaleFactor)
  }

  /** Where a power of two lies relative to a scale within a factor of two of it. */
  lemma RatioBounds(p: real, s: real)
    requires p > 0.0 && s > 0.0
    ensures (p / s) * s == p
    ensures p <= s < 2.0 * p ==> 0.5 < p / s <= 1.0
    ensures p / 2.0 < s <= p ==> 1.0 <= p / s < 2.0
  {
    var r := p / s;
    assert r * s == p;
    if r > 1.0 { MulLt(1.0, r, s); assert s < p; }
    if r <= 0.5 { MulLe(r, 0.5, s); assert p <= 0.5 * s; }
    if r < 1.0 { MulLt(r, 1.0, s); assert p < s; }
    if r >= 2.0 { MulLe(2.0, r, s); assert 2.0 * s <= p; }
  }

  /** The first loop index: (int) (-off / TILE_SIZE) - 1, the quotient truncated toward zero. */
  function FirstIndex(off: int): (i: int)
    ensures off > 0 ==> i * TILE_SIZE < -off <= (i + 1) * TILE_SIZE
    ensures off <= 0 ==> (i + 1) * TILE_SIZE <= -off < (i + 2) * TILE_SIZE
  {
    JavaDiv(-off, TILE_SIZE) - 1
  }

  /** The loop runs while the index is below (extent - off) / TILE_SIZE * relScale + 1, the quotient taken in int. */
  function IndexBound(extent: int, off: int, relScale: real): real {
    (JavaDiv(extent - off, TILE_SIZE) as real) * relScale + 1.0
  }

  /** The first index the loop does not run: the least integer not below the bound. */
  function IndexEnd(extent: int, off: int, relScale: real): (e: int)
    ensures (e - 1) as real < IndexBound(extent, off, relScale) <= e as real
  {
    Ceil(IndexBound(extent, off, relScale))
  }

  /** The cache key: level, column and row joined by colons. */
  function WtsKey(level: int, ii: int, jj: int): string {
    IntToString(level) + ":" + IntToString(ii) + ":" + IntToString(jj)
  }

  /** Distinct level, column and row give distinct keys. */
  lemma WtsKeyInjective(l1: int, i1: int, j1: int, l2: int, i2: int, j2: int)
    requires WtsKey(l1, i1, j1) == WtsKey(l2, i2, j2)
    ensures l1 == l2 && i1 == i2 && j1 == j2
  {
    var ls1, is1, js1 := IntToString(l1), IntToString(i1), IntToString(j1);
    var ls2, is2, js2 := IntToString(l2), IntToString(i2), IntToString(j2);
    IntToStringHasNoSeparator(l1);
    IntToStringHasNoSeparator(l2);
    IntToStringHasNoSeparator(i1);
    IntToStringHasNoSeparator(i2);
    assert WtsKey(l1, i1, j1) == ls1 + [':'] + (is1 + [':'] + js1);
    assert WtsKey(l2, i2, j2) == ls2 + [':'] + (is2 + [':'] + js2);
    SplitAtSeparator(ls1, is1 + [':'] + js1, ls2, is2 + [':'] + js2, ':');
    SplitAtSeparator(is1, js1, is2, js2, ':');
    IntToStringInjective(l1, l2);
    IntToStringInjective(i1, i2);
    IntToStringInjective(j1, j2);
  }

  /** The bounding box of tile (ii, jj): rows count southward from WY0 + 1/wtsScale, columns eastward from WX0. */
  function WtsBox(ii: int, jj: int, wtsScale: real): BBox
    requires wtsScale > 0.0
  {
    BBox(WY0 - jj as real / wtsScale, WX0 + ii as real / wtsScale,
         WY0 - (jj - 1) as real / wtsScale, WX0 + (ii + 1) as real / wtsScale)
  }

  /**
   * Each box is non-empty and spans 1/wtsScale degrees each way, the anchor
   * gives back the tile index, and neighbouring tiles share an edge.
   */
  lemma WtsBoxShape(ii: int, jj: int, wtsScale: real)
    requires wtsScale > 0.0
    ensures var b := WtsBox(ii, jj, wtsScale);
      && b.minLat < b.maxLat && b.minLon < b.maxLon
      && b.maxLat - b.minLat == 1.0 / wtsScale && b.maxLon - b.minLon == 1.0 / wtsScale
      && (b.minLon - WX0) * wtsScale == ii as real
      && (WY0 - b.minLat) * wtsScale == jj as real
      && WtsBox(ii + 1, jj, wtsScale).minLon == b.maxLon
      && WtsBox(ii, jj + 1, wtsScale).maxLat == b.minLat
  {
    assert (jj - 1) as real / wtsScale == jj as real / wtsScale - 1.0 / wtsScale;
    assert (ii + 1) as real / wtsScale == ii as real / wtsScale + 1.0 / wtsScale;
  }

  /** The request of one tile: PNG, TILE_SIZE square, transparent, EPSG:4326, only the "regional" layers. */
  function WtsRequest(ii: int, jj: int, wtsScale: real, namedLayers: seq<string>): (r: MapRequest)
    requires wtsScale > 0.0
    ensures r.width == r.height == TILE_SIZE
    ensures r.format == PNG && r.srs == EPSG_4326 && r.transparent
    ensures r.bbox == WtsBox(ii, jj, wtsScale)
    ensures forall l | l in r.layers :: l == REGIONAL
    ensures REGIONAL in namedLayers <==> REGIONAL in r.layers
  {
    MapRequest(PNG, TILE_SIZE, TILE_SIZE, true, EPSG_4326, WtsBox(ii, jj, wtsScale),
               KeepWanted(namedLayers, [REGIONAL]))
  }

  /** Where tile (ii, jj) is drawn: origin plus the scaled index, cast to int, and a size cast to int on its own. */
  function DrawRect(ii: int, jj: int, relScale: real, x: int, y: int): Rect
    requires relScale > 0.0
  {
    Rect(x + Trunc((ii * TILE_SIZE) as real / relScale), y + Trunc((jj * TILE_SIZE) as real / relScale),
         Trunc(TILE_SIZE as real / relScale), Trunc(TILE_SIZE as real / relScale))
  }

  /**
   * The drawn square is the scaled tile, each number cast to int: its side is
   * within a pixel of TILE_SIZE / relScale, between 128 and 512 pixels for
   * any zoom, and its corner within a pixel of the scaled tile origin.
   */
  lemma DrawRectApproximates(ii: int, jj: int, scaleFactor: real, x: int, y: int)
    requires scaleFactor > 0.0
    ensures var rel := ZoomOf(scaleFactor).relScale;
      var r := DrawRect(ii, jj, rel, x, y);
      && r.width == r.height && 128 <= r.width <= 512
      && (r.width as real) <= TILE_SIZE as real / rel < (r.width + 1) as real
      && (ii >= 0 ==> ((r.x - x) as real) <= (ii * TILE_SIZE) as real / rel < ((r.x - x + 1) as real))
      && (ii < 0 ==> ((r.x - x - 1) as real) < (ii * TILE_SIZE) as real / rel <= ((r.x - x) as real))
      && (jj >= 0 ==> ((r.y - y) as real) <= (jj * TILE_SIZE) as real / rel < ((r.y - y + 1) as real))
      && (jj < 0 ==> ((r.y - y - 1) as real) < (jj * TILE_SIZE) as real / rel <= ((r.y - y) as real))
  {
    var rel := ZoomOf(scaleFactor).relScale;
    UnitAboveOne(rel);
    var unit := TILE_SIZE as real / rel;
    assert unit * rel == 256.0;
    assert unit <= 512.0 by {
      if unit > 512.0 { MulLt(512.0, unit, rel); }
    }
    assert (ii * TILE_SIZE) as real / rel == (ii as real) * unit;
    assert (jj * TILE_SIZE) as real / rel == (jj as real) * unit;
    if ii >= 0 { MulLe(0.0, ii as real, unit); } else { MulLe(ii as real, 0.0, unit); }
    if jj >= 0 { MulLe(0.0, jj as real, unit); } else { MulLe(jj as real, 0.0, unit); }
  }

  /**
   * At scale 0.6 the level is 0 and relScale is 5/3, so a tile is drawn
   * 153.6 pixels wide, cast to 153: tile 1 ends at 306 while tile 2 starts at
   * 307, and pixel column 306 is painted by neither.
   */
  lemma DrawRectLeavesGap()
    ensures ZoomOf(0.6).relScale == 5.0 / 3.0
    ensures var r1, r2 := DrawRect(1, 0, 5.0 / 3.0, 0, 0), DrawRect(2, 0, 5.0 / 3.0, 0, 0);
      r1.x + r1.width == 306 && r2.x == 307 && !r1.Contains(306, 0) && !r2.Contains(306, 0)
  {
    var z := ZoomOf(0.6);
    assert z.logIntScale == 0 by {
      if z.logIntScale < 0 {
        Pow2Monotone(z.logIntScale, -1);
      }
    }
    assert (1 * TILE_SIZE) as real / (5.0 / 3.0) == 153.6;
    assert (2 * TILE_SIZE) as real / (5.0 / 3.0) == 307.2;
    assert TILE_SIZE as real / (5.0 / 3.0) == 153.6;
  }

  /** Powers of two grow with the exponent. */
  lemma {:induction false} Pow2Monotone(a: int, b: int)
    requires a <= b
    ensures Pow2(a) <= Pow2(b)
    decreases b - a
  {
    if a < b {
      Pow2Monotone(a, b - 1);
      Pow2Succ(b - 1);
    }
  }

  /** The draw position of tile i on one axis, as the code computes it. */
  function DrawEdge(i: int, relScale: real, off: int): int
    requires relScale > 0.0
  {
    off + Trunc((i * TILE_SIZE) as real / relScale)
  }

  /** The draw rectangle with each size taken as the distance to the next tile's position. */
  function AbuttingRect(ii: int, jj: int, relScale: real, x: int, y: int): (r: Rect)
    requires relScale > 0.0
  {
    Rect(DrawEdge(ii, relScale, x), DrawEdge(jj, relScale, y),
         DrawEdge(ii + 1, relScale, x) - DrawEdge(ii, relScale, x),
         DrawEdge(jj + 1, relScale, y) - DrawEdge(jj, relScale, y))
  }

  /** With sizes taken from the next position, neighbouring tiles share their edge and no size is negative. */
  lemma AbuttingRectsTile(ii: int, jj: int, relScale: real, x: int, y: int)
    requires relScale > 0.0
    ensures var r := AbuttingRect(ii, jj, relScale, x, y);
      && r.width >= 0 && r.height >= 0
      && r.x + r.width == AbuttingRect(ii + 1, jj, relScale, x, y).x
      && r.y + r.height == AbuttingRect(ii, jj + 1, relScale, x, y).y
  {
    DrawEdgeMonotone(ii, relScale, x);
    DrawEdgeMonotone(jj, relScale, y);
  }

  lemma DrawEdgeMonotone(i: int, relScale: real, off: int)
    requires relScale > 0.0
    ensures DrawEdge(i, relScale, off) <= DrawEdge(i + 1, relScale, off)
  {
    var inv := 1.0 / relScale;
    assert (i * TILE_SIZE) as real / relScale == (i * TILE_SIZE) as real * inv;
    assert ((i + 1) * TILE_SIZE) as real / relScale == ((i + 1) * TILE_SIZE) as real * inv;
    MulLe((i * TILE_SIZE) as real, ((i + 1) * TILE_SIZE) as real, inv);
    TruncMonotone((i * TILE_SIZE) as real / relScale, ((i + 1) * TILE_SIZE) as real / relScale);
  }

  /** relScale at scale 0.6. */
  const REL_AT_06: real := 5.0 / 3.0

  /**
   * The loop bounds do not cover the view once relScale exceeds 1: 1000
   * pixels wide at scale 0.6 (relScale 5/3) the loop runs columns -1 to 5,
   * and no visited column reaches pixel 921, whether drawn with the
   * truncated size or with abutting sizes.
   */
  lemma LoopBoundsMissRightEdge()
    ensures ZoomOf(0.6).relScale == REL_AT_06
    ensures FirstIndex(0) == -1 && IndexEnd(1000, 0, REL_AT_06) == 6
    ensures forall i | -1 <= i < 6 :: !DrawRect(i, 0, REL_AT_06, 0, 0).Contains(921, 0)
    ensures forall i | -1 <= i < 6 :: !AbuttingRect(i, 0, REL_AT_06, 0, 0).Contains(921, 0)
  {
    var rel := REL_AT_06;
    DrawRectLeavesGap();
    assert IndexBound(1000, 0, rel) == 6.0;
    assert (5 * TILE_SIZE) as real / rel == 768.0;
    assert (6 * TILE_SIZE) as real / rel == 921.6;
    assert TILE_SIZE as real / rel == 153.6;
    forall i | -1 <= i < 6
      ensures !DrawRect(i, 0, rel, 0, 0).Contains(921, 0)
      ensures !AbuttingRect(i, 0, rel, 0, 0).Contains(921, 0)
    {
      DrawEdgeUpTo(i, 5, rel, 0);
      DrawEdgeUpTo(i + 1, 6, rel, 0);
    }
  }

  lemma {:induction false} DrawEdgeUpTo(i: int, k: int, relScale: real, off: int)
    requires relScale > 0.0 && i <= k
    ensures DrawEdge(i, relScale, off) <= DrawEdge(k, relScale, off)
    decreases k - i
  {
    if i < k {
      DrawEdgeMonotone(i, relScale, off);
      DrawEdgeUpTo(i + 1, k, relScale, off);
    }
  }

  /** Loop bounds with relScale applied before the quotient is truncated, keeping the one-tile margins. */
  function CoveringFirst(off: int, relScale: real): int {
    ((-off) as real * relScale / TILE_SIZE as real).Floor - 1
  }

  function CoveringEnd(extent: int, off: int, relScale: real): int {
    Ceil((extent - off) as real * relScale / TILE_SIZE as real + 1.0)
  }

  /** The first covering tile starts at or left of pixel 0. */
  lemma CoveringFirstEdge(off: int, relScale: real)
    requires 0.0 < relScale < 2.0
    ensures DrawEdge(CoveringFirst(off, relScale), relScale, off) <= 0
  {
    var lo := CoveringFirst(off, relScale);
    var unit := TILE_SIZE as real / relScale;
    UnitAboveOne(relScale);
    var a := (-off) as real * relScale / TILE_SIZE as real;
    assert (lo as real) <= a - 1.0;
    MulLe(lo as real, a - 1.0, unit);
    assert a * unit == (-off) as real;
    assert (lo * TILE_SIZE) as real / relScale == (lo as real) * unit;
  }

  /** The last covering tile starts at or right of the view's far edge. */
  lemma CoveringEndEdge(extent: int, off: int, relScale: real)
    requires 0.0 < relScale < 2.0
    ensures DrawEdge(CoveringEnd(extent, off, relScale), relScale, off) >= extent
  {
    var hi := CoveringEnd(extent, off, relScale);
    var unit := TILE_SIZE as real / relScale;
    UnitAboveOne(relScale);
    var b := (extent - off) as real * relScale / TILE_SIZE as real + 1.0;
    assert (hi as real) >= b;
    MulLe(b, hi as real, unit);
    assert b * unit == (extent - off) as real + unit;
    assert (hi * TILE_SIZE) as real / relScale == (hi as real) * unit;
  }

  lemma UnitAboveOne(relScale: real)
    requires 0.0 < relScale < 2.0
    ensures TILE_SIZE as real / relScale > 128.0
  {
    MulLt(relScale, 2.0, 128.0 / relScale);
  }

  /**
   * With those bounds and abutting sizes, every pixel of the view lies in
   * the span of a visited tile.
   */
  lemma CoveringBoundsCover(extent: nat, off: int, relScale: real, v: int)
    requires 0.0 < relScale < 2.0 && 0 <= v < extent
    ensures exists i ::
      && CoveringFirst(off, relScale) <= i < CoveringEnd(extent, off, relScale)
      && DrawEdge(i, relScale, off) <= v < DrawEdge(i + 1, relScale, off)
  {
    var lo := CoveringFirst(off, relScale);
    var hi := CoveringEnd(extent, off, relScale);
    CoveringFirstEdge(off, relScale);
    CoveringEndEdge(extent, off, relScale);
    if hi <= lo {
      DrawEdgeUpTo(hi, lo, relScale, off);
    }
    EdgeWalk((i: int) => DrawEdge(i, relScale, off), lo, hi, v);
  }

  /** What stays fixed across the tiles of one render. */
  datatype Pass = Pass(zoom: Zoom, namedLayers: seq<string>, x: int, y: int)

  predicate PassOk(p: Pass) {
    p.zoom.wtsScale > 0.0 && p.zoom.relScale > 0.0
  }

  /** The plan of every tile of a pass. */
  function PlanOf(p: Pass): Tile -> Plan
    requires PassOk(p)
  {
    (tile: Tile) => Plan(WtsKey(p.zoom.logIntScale, tile.0, tile.1),
                         WtsRequest(tile.0, tile.1, p.zoom.wtsScale, p.namedLayers),
                         DrawRect(tile.0, tile.1, p.zoom.relScale, p.x, p.y))
  }

  /** The cache, the requests issued and the draws made so far. */
  datatype Trace = Trace(images: map<string, Image>, requests: seq<MapRequest>, draws: seq<Draw>)

  /**
   * One tile: a hit draws the cached image; a miss issues the request and,
   * unless that throws, stores the image and draws it.
   */
  function Unit(t: Trace, plan: Plan, fetch: MapRequest -> Fetch): Trace {
    if plan.key in t.images then
      t.(draws := t.draws + [Draw(Some(t.images[plan.key]), plan.rect)])
    else
      var requests := t.requests + [plan.request];
      match fetch(plan.request)
      case Failed => t.(requests := requests)
      case Fetched(img) =>
        Trace(Store(t.images, plan.key, img), requests, t.draws + [Draw(img, plan.rect)])
  }

  /**
   * The cache protocol of one tile: a hit makes no request and keeps the
   * cache; a miss makes exactly the tile's request, and a completed fetch
   * stores its image under the same key; nothing is ever evicted.
   */
  lemma UnitProtocol(t: Trace, plan: Plan, fetch: MapRequest -> Fetch)
    ensures var r := Unit(t, plan, fetch);
      && (plan.key in t.images ==>
            r.images == t.images && r.requests == t.requests
            && r.draws == t.draws + [Draw(Some(t.images[plan.key]), plan.rect)])
      && (plan.key !in t.images ==> r.requests == t.requests + [plan.request])
      && (plan.key !in t.images && fetch(plan.request).Fetched? ==>
            var img := fetch(plan.request).image;
            && (img.Some? ==> plan.key in r.images && r.images[plan.key] == img.value)
            && r.draws == t.draws + [Draw(img, plan.rect)])
      && (forall k | k in t.images :: k in r.images && r.images[k] == t.images[k])
  {
  }

  /** The tiles run one after the other, in the given order. */
  function RunTiles(t: Trace, plan: Tile -> Plan, tiles: seq<Tile>, fetch: MapRequest -> Fetch): Trace
    decreases |tiles|
  {
    if tiles == [] then t
    else Unit(RunTiles(t, plan, tiles[..|tiles| - 1], fetch), plan(tiles[|tiles| - 1]), fetch)
  }

  lemma RunTilesSnoc(t: Trace, plan: Tile -> Plan, tiles: seq<Tile>, tile: Tile, fetch: MapRequest -> Fetch)
    ensures RunTiles(t, plan, tiles + [tile], fetch) == Unit(RunTiles(t, plan, tiles, fetch), plan(tile), fetch)
  {
    assert (tiles + [tile])[..|tiles|] == tiles;
  }

  lemma {:induction false} RunTilesAppend(t: Trace, plan: Tile -> Plan, a: seq<Tile>, b: seq<Tile>,
                                          fetch: MapRequest -> Fetch)
    ensures RunTiles(RunTiles(t, plan, a, fetch), plan, b, fetch) == RunTiles(t, plan, a + b, fetch)
    decreases |b|
  {
    if b == [] {
      assert a + b == a;
    } else {
      var b' := b[..|b| - 1];
      RunTilesAppend(t, plan, a, b', fetch);
      assert a + b == (a + b') + [b[|b| - 1]];
      RunTilesSnoc(t, plan, a + b', b[|b| - 1], fetch);
    }
  }

  /**
   * The unbounded cache only grows: an image once stored stays, so after one
   * render every fetched tile is a hit in the next.
   */
  lemma {:induction false} RunTilesKeepsImages(t: Trace, plan: Tile -> Plan, tiles: seq<Tile>,
                                               fetch: MapRequest -> Fetch)
    ensures var r := RunTiles(t, plan, tiles, fetch);
      forall k | k in t.images :: k in r.images && r.images[k] == t.images[k]
    ensures forall tile | tile in tiles && fetch(plan(tile).request).Fetched? && fetch(plan(tile).request).image.Some? ::
      plan(tile).key in RunTiles(t, plan, tiles, fetch).images
    decreases |tiles|
  {
    if tiles != [] {
      var init := tiles[..|tiles| - 1];
      var last := tiles[|tiles| - 1];
      RunTilesKeepsImages(t, plan, init, fetch);
      var mid := RunTiles(t, plan, init, fetch);
      UnitProtocol(mid, plan(last), fetch);
      forall tile | tile in tiles && fetch(plan(tile).request).Fetched? && fetch(plan(tile).request).image.Some?
        ensures plan(tile).key in RunTiles(t, plan, tiles, fetch).images
      {
        if tile != last {
          assert tile in init;
        }
      }
    }
  }

  /** The body of the per-tile task, run on the calling thread. */
  method RenderTile(cache: WtsCache, p: Pass, tile: Tile, fetch: MapRequest -> Fetch,
                    requests: seq<MapRequest>, draws: seq<Draw>)
    returns (requests': seq<MapRequest>, draws': seq<Draw>)
    requires PassOk(p)
    modifies cache
    ensures Trace(cache.images, requests', draws') == Unit(Trace(old(cache.images), requests, draws), PlanOf(p)(tile), fetch)
  {
    requests', draws' := requests, draws;
    var key := WtsKey(p.zoom.logIntScale, tile.0, tile.1);
    var img := cache.Get(key);
    if img.None? {
      var request := WtsRequest(tile.0, tile.1, p.zoom.wtsScale, p.namedLayers);
      requests' := requests' + [request];
      var fetched := fetch(request);
      if fetched.Failed? {
        return;
      }
      img := fetched.image;
      cache.Put(key, img);
    }
    var rect := DrawRect(tile.0, tile.1, p.zoom.relScale, p.x, p.y);
    draws' := draws' + [Draw(img, rect)];
  }

  /** The inner loop of render: rows from j1 while j < bound, in column i. */
  method RenderColumn(cache: WtsCache, p: Pass, i: int, j1: int, bound: real, fetch: MapRequest -> Fetch,
                      requests: seq<MapRequest>, draws: seq<Draw>)
    returns (requests': seq<MapRequest>, draws': seq<Draw>)
    requires PassOk(p)
    modifies cache
    ensures Trace(cache.images, requests', draws')
      == RunTiles(Trace(old(cache.images), requests, draws), PlanOf(p), Column(i, j1, Ceil(bound)), fetch)
  {
    ghost var t0 := Trace(cache.images, requests, draws);
    ghost var plan := PlanOf(p);
    requests', draws' := requests, draws;
    var j := j1;
    while (j as real) < bound
      invariant j1 <= j && (j == j1 || j <= Ceil(bound))
      invariant Trace(cache.images, requests', draws') == RunTiles(t0, plan, Column(i, j1, j), fetch)
      decreases Ceil(bound) - j
    {
      BelowCeil(j, bound);
      RunTilesSnoc(t0, plan, Column(i, j1, j), (i, j), fetch);
      requests', draws' := RenderTile(cache, p, (i, j), fetch, requests', draws');
      j := j + 1;
    }
    BelowCeil(j, bound);
    assert Column(i, j1, j) == Column(i, j1, Ceil(bound));
  }

  /** The nested loops of render: columns from i1 while i < xBound, each from row j1 while j < yBound. */
  method RenderGrid(cache: WtsCache, p: Pass, i1: int, xBound: real, j1: int, yBound: real, fetch: MapRequest -> Fetch)
    returns (requests: seq<MapRequest>, draws: seq<Draw>)
    requires PassOk(p)
    modifies cache
    ensures Trace(cache.images, requests, draws)
      == RunTiles(Trace(old(cache.images), [], []), PlanOf(p), Grid(i1, Ceil(xBound), j1, Ceil(yBound)), fetch)
  {
    ghost var t0 := Trace(cache.images, [], []);
    ghost var plan := PlanOf(p);
    ghost var xEnd, yEnd := Ceil(xBound), Ceil(yBound);
    requests, draws := [], [];
    var i := i1;
    while (i as real) < xBound
      invariant i1 <= i && (i == i1 || i <= xEnd)
      invariant Trace(cache.images, requests, draws) == RunTiles(t0, plan, Grid(i1, i, j1, yEnd), fetch)
      decreases xEnd - i
    {
      BelowCeil(i, xBound);
      RunGridStep(t0, plan, i1, i, j1, yEnd, fetch);
      requests, draws := RenderColumn(cache, p, i, j1, yBound, fetch, requests, draws);
      i := i + 1;
    }
    BelowCeil(i, xBound);
    GridStop(i1, i, xEnd, j1, yEnd);
  }

  /** A loop that starts at or past its end stops where it started, and visits nothing. */
  lemma GridStop(i1: int, i: int, xEnd: int, j1: int, yEnd: int)
    requires i1 <= i && (i == i1 || i <= xEnd) && xEnd <= i
    ensures Grid(i1, i, j1, yEnd) == Grid(i1, xEnd, j1, yEnd)
  {
    if i != xEnd {
      assert Grid(i1, i, j1, yEnd) == [];
    }
  }

  /** Running the columns up to i + 1 runs those up to i and then column i. */
  lemma RunGridStep(t: Trace, plan: Tile -> Plan, i1: int, i: int, j1: int, yEnd: int, fetch: MapRequest -> Fetch)
    requires i1 <= i
    ensures RunTiles(t, plan, Grid(i1, i + 1, j1, yEnd), fetch)
      == RunTiles(RunTiles(t, plan, Grid(i1, i, j1, yEnd), fetch), plan, Column(i, j1, yEnd), fetch)
  {
    RunTilesAppend(t, plan, Grid(i1, i, j1, yEnd), Column(i, j1, yEnd), fetch);
  }

  /** The static HashMap of tiles; it never drops an entry. */
  class WtsCache {
    var images: map<string, Image>

    constructor ()
      ensures images == map[]
    {
      images := map[];
    }

    /** cache.get(key): null when there is no entry. */
    function Get(key: string): (r: Option<Image>)
      reads this
      ensures r.Some? <==> key in images
      ensures r.Some? ==> r.value == images[key]
    {
      if key in images then Some(images[key]) else None
    }

    /** cache.put(key, img). */
    method Put(key: string, img: Option<Image>)
      modifies this
      ensures images == Store(old(images), key, img)
    {
      images := Store(images, key, img);
    }
  }

  /**
   * render(g2, size, scaleFactor, x, y). namedLayers is what the capabilities
   * document names (None: reaching the server or reading it threw), and fetch
   * issues a request and decodes the answer.
   */
  method Render(cache: WtsCache, width: nat, height: nat, scaleFactor: real, x: int, y: int,
                namedLayers: Option<seq<string>>, fetch: MapRequest -> Fetch)
    returns (requests: seq<MapRequest>, draws: seq<Draw>)
    requires scaleFactor > 0.0
    modifies cache
    ensures namedLayers.None? ==> requests == [] && draws == [] && cache.images == old(cache.images)
    ensures namedLayers.Some? ==>
      var p := Pass(ZoomOf(scaleFactor), namedLayers.value, x, y);
      var tiles := Grid(FirstIndex(x), IndexEnd(width, x, p.zoom.relScale), FirstIndex(y), IndexEnd(height, y, p.zoom.relScale));
      Trace(cache.images, requests, draws) == RunTiles(Trace(old(cache.images), [], []), PlanOf(p), tiles, fetch)
  {
    requests, draws := [], [];
    var zoom := ZoomOf(scaleFactor);
    if namedLayers.None? {
      return;
    }
    var p := Pass(zoom, namedLayers.value, x, y);
    requests, draws := RenderGrid(cache, p, FirstIndex(x), IndexBound(width, x, zoom.relScale),
                                  FirstIndex(y), IndexBound(height, y, zoom.relScale), fetch);
  }
}
