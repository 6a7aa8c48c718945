/**
 * What the two tile renderers share: the decoded tile image, screen
 * rectangles, the GetMap request they build (OGC Web Map Service 1.3.0,
 * section 7.3), the outcome of fetching one tile, the draw calls they make,
 * and the order in which their nested loops visit tile indices.
 */
module Imaging {
  import opened Wrappers

  /** A decoded raster, by its pixels. Only its identity matters here. */
  type Image = seq<int>

  /** A destination rectangle on the drawing surface, in whole pixels. */
  datatype Rect = Rect(x: int, y: int, width: int, height: int) {
    predicate Contains(px: int, py: int) {
      x <= px < x + width && y <= py < y + height
    }
  }

  /**
   * The BBOX parameter of a GetMap request in EPSG:4326, whose axis order in
   * WMS 1.3.0 is latitude first: minLat,minLon,maxLat,maxLon.
   */
  datatype BBox = BBox(minLat: real, minLon: real, maxLat: real, maxLon: real)

  /** The parameters a renderer sets on a GetMapRequest. */
  datatype MapRequest = MapRequest(
    format: string, width: int, height: int, transparent: bool, srs: string, bbox: BBox, layers: seq<string>)

  const PNG: string := "image/png"
  const EPSG_4326: string := "EPSG:4326"

  /**
   * What fetching one tile gives: an exception somewhere in issueRequest or
   * ImageIO.read, or the decoded image, which ImageIO.read reports as null
   * when no reader recognises the bytes.
   */
  datatype Fetch = Failed | Fetched(image: Option<Image>)

  /** One call of Graphics2D.drawImage(img, x, y, w, h, null). */
  datatype Draw = Draw(image: Option<Image>, rect: Rect)

  /** What one tile's task computes before it touches the cache: key, request and screen rectangle. */
  datatype Plan = Plan(key: string, request: MapRequest, rect: Rect)

  /**
   * Map.put of a decoded image: a null image (no reader for the bytes) reads
   * back as null, like no entry at all.
   */
  function Store(images: map<string, Image>, key: string, img: Option<Image>): (r: map<string, Image>)
    ensures key in r <==> img.Some?
    ensures img.Some? ==> r[key] == img.value
    ensures forall k | k != key :: (k in r <==> k in images) && (k in r ==> r[k] == images[k])
  {
    if img.Some? then images[key := img.value] else images - {key}
  }

  /**
   * Between the edges of tiles a and b, a pixel lies between the edges of one
   * tile from a to b - 1, whatever the edges are.
   */
  lemma {:induction false} EdgeWalk(edge: int -> int, a: int, b: int, v: int)
    requires a < b && edge(a) <= v < edge(b)
    ensures exists t :: a <= t < b && edge(t) <= v < edge(t + 1)
    decreases b - a
  {
    if edge(b - 1) <= v {
      assert a <= b - 1 < b;
    } else {
      EdgeWalk(edge, a, b - 1, v);
    }
  }

  /** A tile index (column, row). */
  type Tile = (int, int)

  /** The rows y1 .. yEnd - 1 of column x, in increasing order. */
  function Column(x: int, y1: int, yEnd: int): seq<Tile>
    decreases yEnd - y1
  {
    if yEnd <= y1 then [] else Column(x, y1, yEnd - 1) + [(x, yEnd - 1)]
  }

  /**
   * The tiles visited by `for (x = x1; x < xEnd; x++) for (y = y1; y < yEnd; y++)`,
   * in the order the loops visit them.
   */
  function Grid(x1: int, xEnd: int, y1: int, yEnd: int): seq<Tile>
    decreases xEnd - x1
  {
    if xEnd <= x1 then [] else Grid(x1, xEnd - 1, y1, yEnd) + Column(xEnd - 1, y1, yEnd)
  }

  lemma {:induction false} ColumnShape(x: int, y1: int, yEnd: int)
    ensures |Column(x, y1, yEnd)| == if yEnd <= y1 then 0 else yEnd - y1
    ensures forall i :: 0 <= i < |Column(x, y1, yEnd)| ==> Column(x, y1, yEnd)[i] == (x, y1 + i)
    decreases yEnd - y1
  {
    if yEnd > y1 {
      ColumnShape(x, y1, yEnd - 1);
    }
  }

  /** A tile is visited exactly when it lies in the index rectangle. */
  lemma {:induction false} GridMembership(x1: int, xEnd: int, y1: int, yEnd: int, t: Tile)
    ensures t in Grid(x1, xEnd, y1, yEnd) <==> x1 <= t.0 < xEnd && y1 <= t.1 < yEnd
    decreases xEnd - x1
  {
    if xEnd > x1 {
      GridMembership(x1, xEnd - 1, y1, yEnd, t);
      ColumnShape(xEnd - 1, y1, yEnd);
      if t.0 == xEnd - 1 && y1 <= t.1 < yEnd {
        assert Column(xEnd - 1, y1, yEnd)[t.1 - y1] == t;
      }
    }
  }

  /**
   * The loops visit tiles column by column and, within a column, row by row;
   * so no tile is visited twice.
   */
  predicate Before(s: Tile, t: Tile) {
    s.0 < t.0 || (s.0 == t.0 && s.1 < t.1)
  }

  predicate RowMajor(g: seq<Tile>) {
    forall i, j :: 0 <= i < j < |g| ==> Before(g[i], g[j])
  }

  lemma {:induction false} GridOrder(x1: int, xEnd: int, y1: int, yEnd: int)
    ensures RowMajor(Grid(x1, xEnd, y1, yEnd))
    decreases xEnd - x1
  {
    if xEnd > x1 {
      var g0 := Grid(x1, xEnd - 1, y1, yEnd);
      var c := Column(xEnd - 1, y1, yEnd);
      GridOrder(x1, xEnd - 1, y1, yEnd);
      ColumnShape(xEnd - 1, y1, yEnd);
      forall i | 0 <= i < |g0| ensures g0[i].0 < xEnd - 1 {
        GridMembership(x1, xEnd - 1, y1, yEnd, g0[i]);
      }
      var g := g0 + c;
      forall i, j | 0 <= i < j < |g| ensures Before(g[i], g[j]) {
        if j < |g0| {
          assert g[i] == g0[i] && g[j] == g0[j];
          assert Before(g0[i], g0[j]);
        } else if i < |g0| {
          assert g[i] == g0[i] && g[j] == c[j - |g0|];
          assert g[i].0 < xEnd - 1 == g[j].0;
        } else {
          assert g[i] == c[i - |g0|] == (xEnd - 1, y1 + i - |g0|);
          assert g[j] == c[j - |g0|] == (xEnd - 1, y1 + j - |g0|);
        }
      }
    }
  }

  lemma GridVisitsOnce(x1: int, xEnd: int, y1: int, yEnd: int)
    ensures var g := Grid(x1, xEnd, y1, yEnd);
      forall i, j :: 0 <= i < j < |g| ==> g[i] != g[j]
  {
    GridOrder(x1, xEnd, y1, yEnd);
    var g := Grid(x1, xEnd, y1, yEnd);
    forall i, j | 0 <= i < j < |g| ensures g[i] != g[j] {
      assert Before(g[i], g[j]);
    }
  }

  /** The loops visit (xEnd - x1) * (yEnd - y1) tiles. */
  lemma {:induction false} GridSize(x1: int, xEnd: int, y1: int, yEnd: int)
    requires x1 <= xEnd && y1 <= yEnd
    ensures |Grid(x1, xEnd, y1, yEnd)| == (xEnd - x1) * (yEnd - y1)
    decreases xEnd - x1
  {
    if x1 < xEnd {
      GridSize(x1, xEnd - 1, y1, yEnd);
      ColumnShape(xEnd - 1, y1, yEnd);
      assert (xEnd - x1) * (yEnd - y1) == (xEnd - 1 - x1) * (yEnd - y1) + (yEnd - y1);
    }
  }

  /**
   * The layers a request asks for: those the service names that are also
   * wanted, in the service's order (a stream filter over the named layers).
   */
  function KeepWanted(found: seq<string>, wanted: seq<string>): (r: seq<string>)
    ensures |r| <= |found|
    ensures forall l :: l in r <==> l in found && l in wanted
  {
    if found == [] then []
    else (if found[0] in wanted then [found[0]] else []) + KeepWanted(found[1..], wanted)
  }
}
