/**
 * The WMS tile renderer (WmsImage.render): the visible part of a zone is cut
 * into 256-pixel tiles at a power-of-two zoom level, each tile is looked up in
 * a process-wide cache and, on a miss, fetched with a GetMap request (OGC Web
 * Map Service 1.3.0, section 7.3) and stored, and every tile is drawn into its
 * screen rectangle.
 *
 * Doubles are exact reals here. The network, the image decoder and the
 * capabilities document are parameters; the thread pool is replaced by
 * running one tile after the other in loop order.
 */
module WmsImage {
  import opened Wrappers
  import opened Imaging
  import opened TileMath
  import opened Decimal

  /** Default pixels per degree: 25 px per metre, 100 km per degree. */
  const WMS_SCALE: int := 25 * 100 * 1000

  /** Edge of a tile in local pixels. */
  const TILE: int := 256

  /** Capacity of the cacheKeys queue. */
  const CACHE_CAPACITY: nat := 200

  /** Shortest URL render accepts. */
  const MIN_URL_LENGTH: nat := 13

  /** What render reads from the zone: its id as text, WMS URL, wanted layer names and scale. */
  datatype ZoneSource = ZoneSource(idText: string, wmsUrl: Option<string>, wmsLayers: seq<string>, wmsScale: real)

  /** The guard of render: a null URL or one shorter than 13 characters stops it. */
  predicate UrlUsable(url: Option<string>) {
    url.Some? && |url.value| >= MIN_URL_LENGTH
  }

  /** logScale, scaleInt = 2^logScale, and scaleFrac = scale / scaleInt. */
  datatype Zoom = Zoom(logScale: int, scaleInt: real, scaleFrac: real)

  /** The zoom level is the largest power of two not above the scale; the rest is scaleFrac. */
  function ZoomOf(scale: real): (z: Zoom)
    requires scale > 0.0
    ensures z.scaleInt == Pow2(z.logScale) && z.scaleInt <= scale < 2.0 * z.scaleInt
    ensures 1.0 <= z.scaleFrac < 2.0
    ensures z.scaleInt * z.scaleFrac == scale
  {
    var k := FloorLog2(scale);
    Pow2Succ(k);
    FractionBounds(scale, Pow2(k));
    Zoom(k, Pow2(k), scale / Pow2(k))
  }

  /** What is left of a scale after dividing out a power of two not above it and above its half. */
  lemma FractionBounds(scale: real, p: real)
    requires 0.0 < p <= scale < 2.0 * p
    ensures 1.0 <= scale / p < 2.0 && p * (scale / p) == scale
  {
    var frac := scale / p;
    assert p * frac == scale;
    if frac < 1.0 {
      MulLt(frac, 1.0, p);
    }
    if frac >= 2.0 {
      MulLe(2.0, frac, p);
    }
  }

  /** Inclusive tile index ranges x1t..x2t and y1t..y2t. */
  datatype TileRange = TileRange(x1t: int, x2t: int, y1t: int, y2t: int)

  /** The viewport [0, extent) in local space on one axis is [(-off) / scaleFrac, (extent - off) / scaleFrac). */
  function LocalStart(off: int, scaleFrac: real): real
    requires scaleFrac > 0.0
  {
    (-off) as real / scaleFrac
  }

  function LocalEnd(extent: int, off: int, scaleFrac: real): real
    requires scaleFrac > 0.0
  {
    (extent - off) as real / scaleFrac
  }

  /**
   * The tile range of the viewport: floor of each local corner divided by
   * TILE. The first tile starts at or before the viewport and the tile after
   * the last starts beyond it.
   */
  function RangeOf(width: nat, height: nat, offx: int, offy: int, scaleFrac: real): (r: TileRange)
    requires scaleFrac > 0.0
    ensures (r.x1t * TILE) as real <= LocalStart(offx, scaleFrac)
    ensures LocalEnd(width, offx, scaleFrac) < ((r.x2t + 1) * TILE) as real
    ensures (r.y1t * TILE) as real <= LocalStart(offy, scaleFrac)
    ensures LocalEnd(height, offy, scaleFrac) < ((r.y2t + 1) * TILE) as real
    ensures r.x1t <= r.x2t && r.y1t <= r.y2t
  {
    var x1u := LocalStart(offx, scaleFrac);
    var y1u := LocalStart(offy, scaleFrac);
    var x2u := LocalEnd(width, offx, scaleFrac);
    var y2u := LocalEnd(height, offy, scaleFrac);
    LocalOrdered(width, offx, scaleFrac);
    LocalOrdered(height, offy, scaleFrac);
    TileRange((x1u / TILE as real).Floor, (x2u / TILE as real).Floor,
              (y1u / TILE as real).Floor, (y2u / TILE as real).Floor)
  }

  /** A viewport of non-negative extent starts no later than it ends, in local units. */
  lemma LocalOrdered(extent: nat, off: int, scaleFrac: real)
    requires scaleFrac > 0.0
    ensures LocalStart(off, scaleFrac) <= LocalEnd(extent, off, scaleFrac)
  {
    var inv := 1.0 / scaleFrac;
    assert LocalStart(off, scaleFrac) == (-off) as real * inv;
    assert LocalEnd(extent, off, scaleFrac) == (extent - off) as real * inv;
    MulLe((-off) as real, (extent - off) as real, inv);
  }

  /** The tiles the nested loop visits, x outer and y inner. */
  function ViewTiles(r: TileRange): seq<Tile> {
    Grid(r.x1t, r.x2t + 1, r.y1t, r.y2t + 1)
  }

  /** Screen coordinate of the edge that starts tile t: (int) (t * TILE * scaleFrac + off). */
  function ScreenEdge(t: int, scaleFrac: real, off: int): int {
    Trunc((t * TILE) as real * scaleFrac + off as real)
  }

  /** Where tile (xt, yt) is drawn: corners cast to int separately, size their difference. */
  function ScreenRect(xt: int, yt: int, scaleFrac: real, offx: int, offy: int): (r: Rect) {
    var x1s := Trunc((xt * TILE) as real * scaleFrac + offx as real);
    var y1s := Trunc((yt * TILE) as real * scaleFrac + offy as real);
    var x2s := Trunc((xt * TILE + TILE) as real * scaleFrac + offx as real);
    var y2s := Trunc((yt * TILE + TILE) as real * scaleFrac + offy as real);
    Rect(x1s, y1s, x2s - x1s, y2s - y1s)
  }

  /** A tile is never drawn with a negative size. */
  lemma ScreenRectSize(xt: int, yt: int, scaleFrac: real, offx: int, offy: int)
    requires scaleFrac > 0.0
    ensures var r := ScreenRect(xt, yt, scaleFrac, offx, offy); r.width >= 0 && r.height >= 0
  {
    SpanOrdered(xt, scaleFrac, offx);
    SpanOrdered(yt, scaleFrac, offy);
  }

  lemma SpanOrdered(t: int, scaleFrac: real, off: int)
    requires scaleFrac > 0.0
    ensures Trunc((t * TILE) as real * scaleFrac + off as real) <= Trunc((t * TILE + TILE) as real * scaleFrac + off as real)
  {
    MulLe((t * TILE) as real, (t * TILE + TILE) as real, scaleFrac);
    TruncMonotone((t * TILE) as real * scaleFrac + off as real, (t * TILE + TILE) as real * scaleFrac + off as real);
  }

  /**
   * Adjacent tiles share their edge exactly, even after the cast: the tile to
   * the right (below) starts where this one ends.
   */
  lemma TilesAbut(xt: int, yt: int, scaleFrac: real, offx: int, offy: int)
    requires scaleFrac > 0.0
    ensures var r := ScreenRect(xt, yt, scaleFrac, offx, offy);
      && r.x == ScreenEdge(xt, scaleFrac, offx) && r.y == ScreenEdge(yt, scaleFrac, offy)
      && r.x + r.width == ScreenRect(xt + 1, yt, scaleFrac, offx, offy).x == ScreenEdge(xt + 1, scaleFrac, offx)
      && r.y + r.height == ScreenRect(xt, yt + 1, scaleFrac, offx, offy).y == ScreenEdge(yt + 1, scaleFrac, offy)
  {
    FarEdge(xt, scaleFrac, offx);
    FarEdge(yt, scaleFrac, offy);
  }

  /** The far edge of tile t, computed from t * TILE + TILE, is the near edge of tile t + 1. */
  lemma FarEdge(t: int, scaleFrac: real, off: int)
    ensures Trunc((t * TILE + TILE) as real * scaleFrac + off as real) == ScreenEdge(t + 1, scaleFrac, off)
  {
    assert t * TILE + TILE == (t + 1) * TILE;
  }

  /** The first tile's edge is at or left of the viewport, the edge after the last at or right of it. */
  lemma {:induction false} RangeEdgesEnclose(extent: nat, off: int, scaleFrac: real, lo: int, hi: int)
    requires scaleFrac > 0.0
    requires (lo * TILE) as real <= LocalStart(off, scaleFrac)
    requires LocalEnd(extent, off, scaleFrac) < ((hi + 1) * TILE) as real
    ensures ScreenEdge(lo, scaleFrac, off) <= 0
    ensures ScreenEdge(hi + 1, scaleFrac, off) >= extent
  {
    var a := (lo * TILE) as real;
    var b := ((hi + 1) * TILE) as real;
    MulOutLe(a, (-off) as real, scaleFrac);
    TruncMonotone(a * scaleFrac + off as real, 0.0);
    MulOutGt(b, (extent - off) as real, scaleFrac);
    TruncMonotone(extent as real, b * scaleFrac + off as real);
  }

  /** On one axis, every pixel of the viewport lies between the edges of one tile of the range. */
  lemma AxisCovered(extent: nat, off: int, scaleFrac: real, lo: int, hi: int, v: int)
    requires scaleFrac > 0.0 && 0 <= v < extent && lo <= hi
    requires (lo * TILE) as real <= LocalStart(off, scaleFrac)
    requires LocalEnd(extent, off, scaleFrac) < ((hi + 1) * TILE) as real
    ensures exists t :: lo <= t <= hi && ScreenEdge(t, scaleFrac, off) <= v < ScreenEdge(t + 1, scaleFrac, off)
  {
    RangeEdgesEnclose(extent, off, scaleFrac, lo, hi);
    EdgeWalk((t: int) => ScreenEdge(t, scaleFrac, off), lo, hi + 1, v);
  }

  /** Every pixel of the viewport lies in the screen rectangle of some visited tile. */
  lemma ViewportCovered(width: nat, height: nat, offx: int, offy: int, scaleFrac: real, px: int, py: int)
    requires scaleFrac > 0.0
    requires 0 <= px < width && 0 <= py < height
    ensures var r := RangeOf(width, height, offx, offy, scaleFrac);
      exists t :: t in ViewTiles(r) && ScreenRect(t.0, t.1, scaleFrac, offx, offy).Contains(px, py)
  {
    var r := RangeOf(width, height, offx, offy, scaleFrac);
    AxisCovered(width, offx, scaleFrac, r.x1t, r.x2t, px);
    AxisCovered(height, offy, scaleFrac, r.y1t, r.y2t, py);
    var xt :| r.x1t <= xt <= r.x2t && ScreenEdge(xt, scaleFrac, offx) <= px < ScreenEdge(xt + 1, scaleFrac, offx);
    var yt :| r.y1t <= yt <= r.y2t && ScreenEdge(yt, scaleFrac, offy) <= py < ScreenEdge(yt + 1, scaleFrac, offy);
    TilesAbut(xt, yt, scaleFrac, offx, offy);
    GridMembership(r.x1t, r.x2t + 1, r.y1t, r.y2t + 1, (xt, yt));
    assert ScreenRect(xt, yt, scaleFrac, offx, offy).Contains(px, py);
  }

  /**
   * A 512 by 512 view at scale 1 with no offset spans exactly two tiles each
   * way, yet the range takes floor of the far corner too, so the loops visit
   * a third column and row whose rectangles start on the far edges of the view.
   */
  lemma ExactViewVisitsNineTiles()
    ensures RangeOf(512, 512, 0, 0, 1.0) == TileRange(0, 2, 0, 2)
    ensures |ViewTiles(RangeOf(512, 512, 0, 0, 1.0))| == 9
    ensures ScreenRect(2, 0, 1.0, 0, 0).x == 512 && ScreenRect(0, 2, 1.0, 0, 0).y == 512
  {
    var r := RangeOf(512, 512, 0, 0, 1.0);
    assert LocalEnd(512, 0, 1.0) / TILE as real == 2.0;
    assert LocalStart(0, 1.0) / TILE as real == 0.0;
    GridSize(0, 3, 0, 3);
  }

  /**
   * The query box of a tile in EPSG:4326 degrees: columns run east and rows
   * run south, each tile spanning 1 / (scaleInt * wmsScale) degrees.
   */
  function QueryBox(xt: int, yt: int, scaleInt: real, wmsScale: real): (b: BBox)
    requires scaleInt > 0.0 && wmsScale > 0.0
  {
    var x1w := xt as real / scaleInt / wmsScale;
    var y1w := (-yt) as real / scaleInt / wmsScale;
    var x2w := (xt + 1) as real / scaleInt / wmsScale;
    var y2w := (-(yt + 1)) as real / scaleInt / wmsScale;
    BBox(y2w, x1w, y1w, x2w)
  }

  /**
   * Each query box is non-empty and one tile span wide and high, its
   * south-west corner gives back the tile index, and the boxes of adjacent
   * tiles share an edge (the next row lies to the south).
   */
  lemma QueryBoxShape(xt: int, yt: int, scaleInt: real, wmsScale: real)
    requires scaleInt > 0.0 && wmsScale > 0.0
    ensures var b := QueryBox(xt, yt, scaleInt, wmsScale);
      var span := 1.0 / (scaleInt * wmsScale);
      && b.minLat < b.maxLat && b.minLon < b.maxLon
      && b.maxLon - b.minLon == span && b.maxLat - b.minLat == span
      && b.minLon * scaleInt * wmsScale == xt as real
      && b.maxLat * scaleInt * wmsScale == (-yt) as real
      && QueryBox(xt + 1, yt, scaleInt, wmsScale).minLon == b.maxLon
      && QueryBox(xt, yt + 1, scaleInt, wmsScale).maxLat == b.minLat
  {
    var d := scaleInt * wmsScale;
    assert d > 0.0 by { MulLt(0.0, scaleInt, wmsScale); }
    assert 1.0 / d > 0.0;
  }

  /** The request of one tile: PNG, 2 * TILE pixels square, transparent, EPSG:4326. */
  function TileRequest(box: BBox, layers: seq<string>): (r: MapRequest)
    ensures r.width == r.height == 2 * TILE
    ensures r.format == PNG && r.srs == EPSG_4326 && r.transparent
    ensures r.bbox == box && r.layers == layers
  {
    MapRequest(PNG, 2 * TILE, 2 * TILE, true, EPSG_4326, box, layers)
  }

  /** The cache key: zone id, zoom level text and tile index, separated by spaces. */
  function TileKey(zoneText: string, levelText: string, xt: int, yt: int): string {
    zoneText + " " + levelText + " " + IntToString(xt) + " " + IntToString(yt)
  }

  /** For one zone and zoom level, distinct tiles have distinct keys. */
  lemma TileKeyInjective(zoneText: string, levelText: string, x1: int, y1: int, x2: int, y2: int)
    requires TileKey(zoneText, levelText, x1, y1) == TileKey(zoneText, levelText, x2, y2)
    ensures x1 == x2 && y1 == y2
  {
    var p := zoneText + " " + levelText + " ";
    var xs1, ys1 := IntToString(x1), IntToString(y1);
    var xs2, ys2 := IntToString(x2), IntToString(y2);
    assert TileKey(zoneText, levelText, x1, y1) == p + (xs1 + [' '] + ys1);
    assert TileKey(zoneText, levelText, x2, y2) == p + (xs2 + [' '] + ys2);
    assert xs1 + [' '] + ys1 == xs2 + [' '] + ys2 by {
      assert (p + (xs1 + [' '] + ys1))[|p|..] == xs1 + [' '] + ys1;
      assert (p + (xs2 + [' '] + ys2))[|p|..] == xs2 + [' '] + ys2;
    }
    IntToStringHasNoSeparator(x1);
    IntToStringHasNoSeparator(x2);
    SplitAtSeparator(xs1, ys1, xs2, ys2, ' ');
    IntToStringInjective(x1, x2);
    IntToStringInjective(y1, y2);
  }

  /** CircularFifoQueue.add on a queue of at most 200 keys: a full queue first drops its oldest key. */
  function Enqueue(q: seq<string>, key: string): (r: seq<string>)
    requires |q| <= CACHE_CAPACITY
    ensures |r| <= CACHE_CAPACITY && |r| > 0 && r[|r| - 1] == key
  {
    if |q| == CACHE_CAPACITY then q[1..] + [key] else q + [key]
  }

  /** The newest 200 of a history of keys, oldest first. */
  function Newest(history: seq<string>): seq<string> {
    if |history| <= CACHE_CAPACITY then history else history[|history| - CACHE_CAPACITY..]
  }

  /** The queue always holds exactly the newest 200 keys ever added, in order. */
  lemma EnqueueKeepsNewest(history: seq<string>, key: string)
    ensures Enqueue(Newest(history), key) == Newest(history + [key])
  {
    if |history| > CACHE_CAPACITY {
      var h := history + [key];
      assert Newest(history)[1..] + [key] == h[|h| - CACHE_CAPACITY..];
    }
  }

  /** The queue after adding a whole history of keys to an empty queue. */
  function EnqueueAll(history: seq<string>): (r: seq<string>)
    ensures |r| <= CACHE_CAPACITY
  {
    if history == [] then [] else Enqueue(EnqueueAll(history[..|history| - 1]), history[|history| - 1])
  }

  lemma {:induction false} EnqueueAllIsNewest(history: seq<string>)
    ensures EnqueueAll(history) == Newest(history)
  {
    if history != [] {
      var h := history[..|history| - 1];
      EnqueueAllIsNewest(h);
      EnqueueKeepsNewest(h, history[|history| - 1]);
      assert h + [history[|history| - 1]] == history;
    }
  }

  /** The static cacheKeys queue and cache map together. */
  datatype CacheState = CacheState(keys: seq<string>, images: map<string, Image>)

  /** The cacheKeys queue, oldest key first, and the weak tile map. */
  class TileCache {
    var keys: seq<string>
    var images: map<string, Image>

    ghost predicate Valid()
      reads this
    {
      |keys| <= CACHE_CAPACITY
    }

    function State(): CacheState
      reads this
    {
      CacheState(keys, images)
    }

    constructor ()
      ensures Valid() && keys == [] && images == map[]
    {
      keys := [];
      images := map[];
    }

    /** cache.get(key): null when there is no entry. */
    function Get(key: string): (r: Option<Image>)
      reads this
      ensures r.Some? <==> key in images
      ensures r.Some? ==> r.value == images[key]
    {
      if key in images then Some(images[key]) else None
    }

    /** cacheKeys.add(key) followed by cache.put(key, img). */
    method Put(key: string, img: Option<Image>)
      requires Valid()
      modifies this
      ensures Valid()
      ensures keys == Enqueue(old(keys), key)
      ensures images == Store(old(images), key, img)
    {
      if |keys| == CACHE_CAPACITY {
        keys := keys[1..];
      }
      keys := keys + [key];
      images := Store(images, key, img);
    }

    /** The garbage collector clears entries of the weak map; the queue is untouched. */
    method Reclaim(victims: set<string>)
      modifies this
      ensures keys == old(keys)
      ensures images == old(images) - victims
    {
      images := images - victims;
    }
  }

  /** What stays fixed across the tiles of one render. */
  datatype Pass = Pass(zoneText: string, levelText: string, zoom: Zoom, wmsScale: real,
                       layers: seq<string>, offx: int, offy: int)

  predicate PassOk(p: Pass) {
    p.zoom.scaleInt > 0.0 && p.zoom.scaleFrac > 0.0 && p.wmsScale > 0.0
  }

  /** The plan of every tile of a pass. */
  function PlanOf(p: Pass): Tile -> Plan
    requires PassOk(p)
  {
    (tile: Tile) => Plan(TileKey(p.zoneText, p.levelText, tile.0, tile.1),
                 TileRequest(QueryBox(tile.0, tile.1, p.zoom.scaleInt, p.wmsScale), p.layers),
                 ScreenRect(tile.0, tile.1, p.zoom.scaleFrac, p.offx, p.offy))
  }

  /** The cache, the requests issued and the draws made so far. */
  datatype Trace = Trace(cache: CacheState, requests: seq<MapRequest>, draws: seq<Draw>)

  /**
   * One tile: the weak map first loses whatever the collector reclaims
   * (gone); then a hit draws the cached image and asks for nothing, and a
   * miss issues the request and, unless that throws, records the key, stores
   * the image and draws it.
   */
  function Unit(t: Trace, plan: Plan, gone: set<string>, fetch: MapRequest -> Fetch): (r: Trace)
    requires |t.cache.keys| <= CACHE_CAPACITY
    ensures |r.cache.keys| <= CACHE_CAPACITY
  {
    var images := t.cache.images - gone;
    if plan.key in images then
      Trace(CacheState(t.cache.keys, images), t.requests, t.draws + [Draw(Some(images[plan.key]), plan.rect)])
    else
      var requests := t.requests + [plan.request];
      match fetch(plan.request)
      case Failed => Trace(CacheState(t.cache.keys, images), requests, t.draws)
      case Fetched(img) =>
        Trace(CacheState(Enqueue(t.cache.keys, plan.key), Store(images, plan.key, img)),
              requests, t.draws + [Draw(img, plan.rect)])
  }

  /**
   * The cache protocol of one tile: whatever was reclaimed is gone and the
   * queue keeps its keys; a hit draws the cached image and changes nothing
   * else; a miss, including a tile reclaimed just now, issues exactly the
   * tile's request, then either nothing more (the fetch threw) or appends the
   * key to the queue, stores the image under it and draws it.
   */
  lemma UnitProtocol(t: Trace, plan: Plan, gone: set<string>, fetch: MapRequest -> Fetch)
    requires |t.cache.keys| <= CACHE_CAPACITY
    ensures var r := Unit(t, plan, gone, fetch);
      var images := t.cache.images - gone;
      var key := plan.key;
      && (forall k | k in gone :: k !in r.cache.images || k == key)
      && (forall k | k in images && k != key :: k in r.cache.images && r.cache.images[k] == images[k])
      && (key in images ==>
            && r.cache == CacheState(t.cache.keys, images) && r.requests == t.requests
            && r.draws == t.draws + [Draw(Some(images[key]), plan.rect)])
      && (key !in images ==> r.requests == t.requests + [plan.request])
      && (key !in images && fetch(plan.request).Failed? ==>
            r.cache == CacheState(t.cache.keys, images) && r.draws == t.draws)
      && (key !in images && fetch(plan.request).Fetched? ==>
            var img := fetch(plan.request).image;
            && r.cache.keys == Enqueue(t.cache.keys, key)
            && (img.Some? ==> key in r.cache.images && r.cache.images[key] == img.value)
            && r.draws == t.draws + [Draw(img, plan.rect)])
  {
  }

  /**
   * The tiles run one after the other, in the given order; gone(tile) is what
   * the collector reclaims from the weak map just before that tile's lookup.
   */
  function RunTiles(t: Trace, plan: Tile -> Plan, tiles: seq<Tile>, gone: Tile -> set<string>,
                    fetch: MapRequest -> Fetch): (r: Trace)
    requires |t.cache.keys| <= CACHE_CAPACITY
    ensures |r.cache.keys| <= CACHE_CAPACITY
    decreases |tiles|
  {
    if tiles == [] then t
    else
      var last := tiles[|tiles| - 1];
      Unit(RunTiles(t, plan, tiles[..|tiles| - 1], gone, fetch), plan(last), gone(last), fetch)
  }

  /** Running one more tile is one more unit. */
  lemma RunTilesSnoc(t: Trace, plan: Tile -> Plan, tiles: seq<Tile>, tile: Tile, gone: Tile -> set<string>,
                     fetch: MapRequest -> Fetch)
    requires |t.cache.keys| <= CACHE_CAPACITY
    ensures RunTiles(t, plan, tiles + [tile], gone, fetch)
      == Unit(RunTiles(t, plan, tiles, gone, fetch), plan(tile), gone(tile), fetch)
  {
    assert (tiles + [tile])[..|tiles|] == tiles;
  }

  /** Running two lists of tiles one after the other is running them joined. */
  lemma {:induction false} RunTilesAppend(t: Trace, plan: Tile -> Plan, a: seq<Tile>, b: seq<Tile>,
                                          gone: Tile -> set<string>, fetch: MapRequest -> Fetch)
    requires |t.cache.keys| <= CACHE_CAPACITY
    ensures RunTiles(RunTiles(t, plan, a, gone, fetch), plan, b, gone, fetch) == RunTiles(t, plan, a + b, gone, fetch)
    decreases |b|
  {
    if b == [] {
      assert a + b == a;
    } else {
      var b' := b[..|b| - 1];
      RunTilesAppend(t, plan, a, b', gone, fetch);
      assert a + b == (a + b') + [b[|b| - 1]];
      RunTilesSnoc(t, plan, a + b', b[|b| - 1], gone, fetch);
    }
  }

  /**
   * Every request a run issues is the request of one of its tiles, at most one
   * per tile, and earlier requests stay.
   */
  lemma {:induction false} RunTilesRequests(t: Trace, plan: Tile -> Plan, tiles: seq<Tile>,
                                            gone: Tile -> set<string>, fetch: MapRequest -> Fetch)
    requires |t.cache.keys| <= CACHE_CAPACITY
    ensures var r := RunTiles(t, plan, tiles, gone, fetch);
      && |t.requests| <= |r.requests| <= |t.requests| + |tiles|
      && r.requests[..|t.requests|] == t.requests
      && forall i | |t.requests| <= i < |r.requests| :: exists tile :: tile in tiles && r.requests[i] == plan(tile).request
    decreases |tiles|
  {
    if tiles != [] {
      var init := tiles[..|tiles| - 1];
      var last := tiles[|tiles| - 1];
      RunTilesRequests(t, plan, init, gone, fetch);
      var mid := RunTiles(t, plan, init, gone, fetch);
      var r := RunTiles(t, plan, tiles, gone, fetch);
      UnitProtocol(mid, plan(last), gone(last), fetch);
      assert r.requests[..|mid.requests|] == mid.requests;
      forall i | |t.requests| <= i < |r.requests|
        ensures exists tile :: tile in tiles && r.requests[i] == plan(tile).request
      {
        if i < |mid.requests| {
          assert r.requests[i] == mid.requests[i];
          var tile :| tile in init && mid.requests[i] == plan(tile).request;
          assert tile in tiles;
        } else {
          assert r.requests[i] == plan(last).request;
        }
      }
    }
  }

  /** Each tile draws at most once; when no fetch throws, every tile is drawn, in order. */
  lemma {:induction false} RunTilesDraws(t: Trace, plan: Tile -> Plan, tiles: seq<Tile>,
                                         gone: Tile -> set<string>, fetch: MapRequest -> Fetch)
    requires |t.cache.keys| <= CACHE_CAPACITY
    ensures |t.draws| <= |RunTiles(t, plan, tiles, gone, fetch).draws| <= |t.draws| + |tiles|
    ensures (forall tile | tile in tiles :: fetch(plan(tile).request).Fetched?) ==>
      var r := RunTiles(t, plan, tiles, gone, fetch);
      && |r.draws| == |t.draws| + |tiles|
      && forall i | 0 <= i < |tiles| :: r.draws[|t.draws| + i].rect == plan(tiles[i]).rect
    decreases |tiles|
  {
    if tiles != [] {
      var init := tiles[..|tiles| - 1];
      var last := tiles[|tiles| - 1];
      RunTilesDraws(t, plan, init, gone, fetch);
      var mid := RunTiles(t, plan, init, gone, fetch);
      UnitProtocol(mid, plan(last), gone(last), fetch);
      if forall tile | tile in tiles :: fetch(plan(tile).request).Fetched? {
        assert forall tile | tile in init :: tile in tiles;
        var r := RunTiles(t, plan, tiles, gone, fetch);
        forall i | 0 <= i < |tiles| ensures r.draws[|t.draws| + i].rect == plan(tiles[i]).rect {
          if i < |init| {
            assert r.draws[|t.draws| + i] == mid.draws[|t.draws| + i];
            assert init[i] == tiles[i];
          }
        }
      }
    }
  }

  /**
   * A view whose tiles are all cached, and none of whose images the collector
   * reclaims during the render (keep holds the view's keys), issues no request,
   * keeps the queue as it was and keeps every image of keep.
   */
  lemma {:induction false} RunTilesAllHits(t: Trace, plan: Tile -> Plan, tiles: seq<Tile>,
                                           gone: Tile -> set<string>, fetch: MapRequest -> Fetch, keep: set<string>)
    requires |t.cache.keys| <= CACHE_CAPACITY
    requires keep <= t.cache.images.Keys
    requires forall tile | tile in tiles :: plan(tile).key in keep
    requires forall tile | tile in tiles :: keep !! gone(tile)
    ensures var r := RunTiles(t, plan, tiles, gone, fetch);
      && r.requests == t.requests
      && r.cache.keys == t.cache.keys
      && forall k | k in keep :: k in r.cache.images && r.cache.images[k] == t.cache.images[k]
    decreases |tiles|
  {
    if tiles != [] {
      var init := tiles[..|tiles| - 1];
      var last := tiles[|tiles| - 1];
      assert forall tile | tile in init :: tile in tiles;
      RunTilesAllHits(t, plan, init, gone, fetch, keep);
      UnitProtocol(RunTiles(t, plan, init, gone, fetch), plan(last), gone(last), fetch);
    }
  }

  /**
   * The body of the per-tile task, run on the calling thread; the collector
   * first reclaims gone from the weak map.
   */
  method RenderTile(cache: TileCache, p: Pass, tile: Tile, gone: set<string>, fetch: MapRequest -> Fetch,
                    requests: seq<MapRequest>, draws: seq<Draw>)
    returns (requests': seq<MapRequest>, draws': seq<Draw>)
    requires cache.Valid() && PassOk(p)
    modifies cache
    ensures cache.Valid()
    ensures Trace(cache.State(), requests', draws')
      == Unit(Trace(old(cache.State()), requests, draws), PlanOf(p)(tile), gone, fetch)
  {
    cache.Reclaim(gone);
    requests', draws' := requests, draws;
    var key := TileKey(p.zoneText, p.levelText, tile.0, tile.1);
    var img := cache.Get(key);
    if img.None? {
      var request := TileRequest(QueryBox(tile.0, tile.1, p.zoom.scaleInt, p.wmsScale), p.layers);
      requests' := requests' + [request];
      var fetched := fetch(request);
      if fetched.Failed? {
        return;
      }
      img := fetched.image;
      cache.Put(key, img);
    }
    var rect := ScreenRect(tile.0, tile.1, p.zoom.scaleFrac, p.offx, p.offy);
    draws' := draws' + [Draw(img, rect)];
  }

  /** The inner loop of render: rows y1 .. yEnd - 1 of column x. */
  method RenderColumn(cache: TileCache, p: Pass, x: int, y1: int, yEnd: int, gone: Tile -> set<string>,
                      fetch: MapRequest -> Fetch, requests: seq<MapRequest>, draws: seq<Draw>)
    returns (requests': seq<MapRequest>, draws': seq<Draw>)
    requires cache.Valid() && PassOk(p) && y1 <= yEnd
    modifies cache
    ensures cache.Valid()
    ensures Trace(cache.State(), requests', draws')
      == RunTiles(Trace(old(cache.State()), requests, draws), PlanOf(p), Column(x, y1, yEnd), gone, fetch)
  {
    ghost var t0 := Trace(cache.State(), requests, draws);
    ghost var plan := PlanOf(p);
    requests', draws' := requests, draws;
    var y := y1;
    while y < yEnd
      invariant y1 <= y <= yEnd
      invariant cache.Valid()
      invariant Trace(cache.State(), requests', draws') == RunTiles(t0, plan, Column(x, y1, y), gone, fetch)
    {
      ghost var before := Trace(cache.State(), requests', draws');
      requests', draws' := RenderTile(cache, p, (x, y), gone((x, y)), fetch, requests', draws');
      y := y + 1;
      RunColumnStep(t0, plan, x, y1, y, gone, fetch, before, Trace(cache.State(), requests', draws'));
    }
  }

  /** The nested loops of render: columns x1 .. xEnd - 1, each from row y1 to yEnd - 1. */
  method RenderGrid(cache: TileCache, p: Pass, x1: int, xEnd: int, y1: int, yEnd: int, gone: Tile -> set<string>,
                    fetch: MapRequest -> Fetch)
    returns (requests: seq<MapRequest>, draws: seq<Draw>)
    requires cache.Valid() && PassOk(p) && x1 <= xEnd && y1 <= yEnd
    modifies cache
    ensures cache.Valid()
    ensures Trace(cache.State(), requests, draws)
      == RunTiles(Trace(old(cache.State()), [], []), PlanOf(p), Grid(x1, xEnd, y1, yEnd), gone, fetch)
  {
    ghost var t0 := Trace(cache.State(), [], []);
    ghost var plan := PlanOf(p);
    requests, draws := [], [];
    var x := x1;
    while x < xEnd
      invariant x1 <= x <= xEnd
      invariant cache.Valid()
      invariant Trace(cache.State(), requests, draws) == RunTiles(t0, plan, Grid(x1, x, y1, yEnd), gone, fetch)
    {
      ghost var before := Trace(cache.State(), requests, draws);
      requests, draws := RenderColumn(cache, p, x, y1, yEnd, gone, fetch, requests, draws);
      x := x + 1;
      RunGridStep(t0, plan, x1, x, y1, yEnd, gone, fetch, before, Trace(cache.State(), requests, draws));
    }
  }

  /** Running the rows up to y of a column runs those up to y - 1 and then tile (x, y - 1). */
  lemma RunColumnStep(t: Trace, plan: Tile -> Plan, x: int, y1: int, y: int, gone: Tile -> set<string>,
                      fetch: MapRequest -> Fetch, before: Trace, after: Trace)
    requires y1 < y && |t.cache.keys| <= CACHE_CAPACITY
    requires before == RunTiles(t, plan, Column(x, y1, y - 1), gone, fetch)
    requires after == Unit(before, plan((x, y - 1)), gone((x, y - 1)), fetch)
    ensures after == RunTiles(t, plan, Column(x, y1, y), gone, fetch)
  {
    RunTilesSnoc(t, plan, Column(x, y1, y - 1), (x, y - 1), gone, fetch);
  }

  /** Running the columns up to x runs those up to x - 1 and then column x - 1. */
  lemma RunGridStep(t: Trace, plan: Tile -> Plan, x1: int, x: int, y1: int, yEnd: int, gone: Tile -> set<string>,
                    fetch: MapRequest -> Fetch, before: Trace, after: Trace)
    requires x1 < x && |t.cache.keys| <= CACHE_CAPACITY
    requires before == RunTiles(t, plan, Grid(x1, x - 1, y1, yEnd), gone, fetch)
    requires after == RunTiles(before, plan, Column(x - 1, y1, yEnd), gone, fetch)
    ensures after == RunTiles(t, plan, Grid(x1, x, y1, yEnd), gone, fetch)
  {
    RunTilesAppend(t, plan, Grid(x1, x - 1, y1, yEnd), Column(x - 1, y1, yEnd), gone, fetch);
  }

  /** The pass render sets up for a zone and a view. */
  function PassFor(zone: ZoneSource, scale: real, offx: int, offy: int, showLevel: real -> string,
                   namedLayers: seq<string>): (p: Pass)
    requires scale > 0.0
    ensures zone.wmsScale > 0.0 ==> PassOk(p)
    ensures forall l :: l in p.layers <==> l in namedLayers && l in zone.wmsLayers
  {
    var zoom := ZoomOf(scale);
    Pass(zone.idText, showLevel(zoom.scaleInt), zoom, zone.wmsScale,
         KeepWanted(namedLayers, zone.wmsLayers), offx, offy)
  }

  /**
   * render(zone, g2, size, scale, offx, offy). namedLayers is what the
   * capabilities document names (None: reaching the server or reading it
   * threw), showLevel is Double.toString, fetch issues a request and decodes
   * the answer, and gone(tile) is what the collector clears from the weak map
   * before that tile is looked up.
   */
  method Render(cache: TileCache, zone: ZoneSource, width: nat, height: nat, scale: real, offx: int, offy: int,
                showLevel: real -> string, namedLayers: Option<seq<string>>, gone: Tile -> set<string>,
                fetch: MapRequest -> Fetch)
    returns (requests: seq<MapRequest>, draws: seq<Draw>)
    requires cache.Valid() && scale > 0.0 && zone.wmsScale > 0.0
    modifies cache
    ensures cache.Valid()
    ensures !UrlUsable(zone.wmsUrl) || namedLayers.None? ==>
      requests == [] && draws == [] && cache.State() == old(cache.State())
    ensures UrlUsable(zone.wmsUrl) && namedLayers.Some? ==>
      var p := PassFor(zone, scale, offx, offy, showLevel, namedLayers.value);
      var range := RangeOf(width, height, offx, offy, p.zoom.scaleFrac);
      Trace(cache.State(), requests, draws)
        == RunTiles(Trace(old(cache.State()), [], []), PlanOf(p), ViewTiles(range), gone, fetch)
  {
    requests := [];
    draws := [];
    if !UrlUsable(zone.wmsUrl) {
      return;
    }
    if namedLayers.None? {
      return;
    }
    var p := PassFor(zone, scale, offx, offy, showLevel, namedLayers.value);
    var range := RangeOf(width, height, offx, offy, p.zoom.scaleFrac);
    requests, draws := RenderGrid(cache, p, range.x1t, range.x2t + 1, range.y1t, range.y2t + 1, gone, fetch);
  }
}
