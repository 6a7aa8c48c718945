# MapTool note book, map tiles and assets in Dafny

This project models four parts of MapTool, a virtual tabletop:

- **The campaign note book** (`NoteBook`). It indexes notes by id, by zone and by reference. It also keeps a set of removed zones, and notes for those zones are refused.
- **The WMS tile renderer** (`WmsImage.render`). It cuts the visible part of a zone into 256-pixel tiles at a power-of-two zoom level. Each tile goes through a bounded key queue and a weak image cache, and a cache miss issues a GetMap request (OGC Web Map Service 1.3.0, section 7.3). The renderer then draws the tile into its screen rectangle.
- **The older fixed-server tile renderer** (`WtsImage.render`). It uses a truncating zoom level, a fixed anchor at latitude 45 and longitude -22.5, and an unbounded cache.
- **The image asset** (`Asset`). It has a content id and a memoised file extension with a `"data"` fallback. It also holds the GeoTIFF tie point and pixel scale, read from the image metadata tree (GeoTIFF Format Specification 1.0, section 2.6.1: ModelTiepointTag 33922 and ModelPixelScaleTag 33550). Its `equals`, `hashCode` and `toString` are based on the id.

Modules:

- `Wrappers`: the `Option` type.
- `Decimal`: the decimal text of `int` values, used in cache keys and `toString`.
- `TileMath`: powers of two, and the zoom level as a floored or truncated log2. It also has Java's `(int)` cast of a double and Java's integer division.
- `Imaging`: what both renderers share: rectangles, GetMap requests, draws, and the order in which the tile loops visit tiles.
- `NoteBooks`, `WmsImage`, `WtsImage` and `Assets`: one module per source class.

How the source's form carries over:

- **NoteBook** is a class with the four collections as fields. `RemoveEntry`, `PutEntry`, `PutEntries` and `ZoneAdded` are proved to leave exactly the state that a pure function on an `Index` value describes, failed calls included. `ZoneRemoved` does so when it completes; when one of its removals throws, it promises only that the id map and the removed zones are unchanged. The invariants and the properties of the class are lemmas about those functions.
- **Both renderers** keep their cache in a class that the per-tile code updates in place. Their nested loops are `while` loops, proved equal to a left fold (`RunTiles`) over the tiles in loop order.
- **`Asset.getGeoTiffMetadata`** writes into a Java `double[]`. Here it is a recursive method over an `array<real>`, proved equal to the pure walk `Walk`.
- **`getImageExtension`** memoises into the fields of the `Asset` class.

Doubles are exact reals. The zoom level is exactly floor(log2 scale) in `WmsImage` and exactly log2 of the scale truncated toward zero in `WtsImage`.

`removeEntry` reads the entry's reference set and zone map without a null check. The model does not forbid such calls by a precondition. It returns `ok == false` for them, keeping the partial update that Java leaves behind. The reason is that the replace path of `putEntry` and the loop of `zoneRemoved` can reach `removeEntry` with state that no caller controls. `Remove`, `Put` and the methods state exactly when this happens (`ok <==> Removable(...)`).

Two behaviours of the code worth knowing:

- A 512 by 512 WMS view at scale 1 visits 9 tiles, not 4. The loops run to `floor(x2u / TILE)` inclusive, so they add a column and a row that start on the far edges of the view (`WmsImage.ExactViewVisitsNineTiles`).
- The `WtsImage` renderer (`WtsImage.Render`) keeps the draw rectangle and the loop bounds as written. The corrected forms sit beside it, with their own proofs (see Findings).

## Model

| member | source | states |
|---|---|---|
| NoteBooks.Remove | src/main/java/net/rptools/maptool/model/notebook/NoteBook.java:329-351 | removeEntry completes iff the entry's reference set and, for an entry with a zone, its zone map exist; idEntryMap and removedZones are never touched |
| NoteBooks.RemoveTouchesOnlyItsKeys | src/main/java/net/rptools/maptool/model/notebook/NoteBook.java:332-343 | only the entry's own zone map (never the NO_ZONE_ID map) and its own reference set change; the set loses the entry and is dropped once empty |
| NoteBooks.Put | src/main/java/net/rptools/maptool/model/notebook/NoteBook.java:141-169 | an entry of a removed zone (a zone-less one checked under NO_ZONE_ID) changes nothing; otherwise a completed put leaves the entry stored by id, in its zone map and in its reference set; it fails exactly when the replace path's removeEntry fails |
| NoteBooks.PutTouchesOnlyItsKeys | src/main/java/net/rptools/maptool/model/notebook/NoteBook.java:158-169 | putEntry changes only the zone map of the entry's zone and the entry's reference set, whether it completes or not; on completion the zone map is the old one (or a new one) with the entry under its id, and the reference set the old one (or a new one) plus the entry |
| NoteBooks.PutQueries | src/main/java/net/rptools/maptool/model/notebook/NoteBook.java:141-169 | after a completed put of an entry whose zone is not removed, the zone's contents are the entry plus the old entries with other ids, the reference's set is the old one plus the entry, and every other zone and reference answers as before |
| NoteBooks.PutTouchesOnlyItsId | src/main/java/net/rptools/maptool/model/notebook/NoteBook.java:158-162 | putEntry rebinds only the entry's id in the id map and no id ever leaves it |
| NoteBooks.RemoveConsistent | src/main/java/net/rptools/maptool/model/notebook/NoteBook.java:329-343 | removeEntry keeps the index consistent: keys agree with entries, no reference set is empty, a removed zone has no zone map |
| NoteBooks.PutConsistent | src/main/java/net/rptools/maptool/model/notebook/NoteBook.java:141-169 | putEntry keeps the index consistent |
| NoteBooks.InsertConsistent | src/main/java/net/rptools/maptool/model/notebook/NoteBook.java:162-169 | the three puts keep the index consistent for an entry whose zone is not removed |
| NoteBooks.ReplaceLeavesOldEntry | src/main/java/net/rptools/maptool/model/notebook/NoteBook.java:158-160 | replacing an entry unindexes the new entry, so the replaced one stays in a reference set or zone map the new one does not share, while getById no longer returns it |
| NoteBooks.WithZoneAdded | src/main/java/net/rptools/maptool/model/notebook/NoteBook.java:413-424 | zoneAdded removes only the zone's removed mark; every other collection is unchanged |
| NoteBooks.AfterZoneRemoved | src/main/java/net/rptools/maptool/model/notebook/NoteBook.java:294-319 | after zoneRemoved the zone is marked removed, has no zone map and no entries, its entries have left every reference set, the id map and all other zone maps are unchanged |
| NoteBooks.AfterZoneRemovedConsistent | src/main/java/net/rptools/maptool/model/notebook/NoteBook.java:294-319 | zoneRemoved keeps the index consistent |
| NoteBooks.RemovedZoneRefusesUntilAdded | src/main/java/net/rptools/maptool/model/notebook/NoteBook.java:149-152 | after zoneRemoved(z) a put for z changes nothing, and after zoneAdded(z) a put for z is filed again |
| NoteBooks.StripOneMore | src/main/java/net/rptools/maptool/model/notebook/NoteBook.java:302-304 | each removal in the zoneRemoved loop strips one more entry from the reference sets |
| NoteBooks.StripStep | src/main/java/net/rptools/maptool/model/notebook/NoteBook.java:302-304 | one removal of the zoneRemoved loop strips its entry from the reference sets and touches no zone map but z's |
| NoteBooks.PendingStillIndexed | src/main/java/net/rptools/maptool/model/notebook/NoteBook.java:300-304 | while zoneRemoved strips its entries, an entry not yet removed still finds its reference set, so its removal does not fail |
| NoteBooks.StripNothing | src/main/java/net/rptools/maptool/model/notebook/NoteBook.java:299 | a zone without a zone map strips nothing from the reference sets |
| NoteBooks.PutAll | src/main/java/net/rptools/maptool/model/notebook/NoteBook.java:190-206 | putEntries never changes the removed zones |
| NoteBooks.PutAllFirst | src/main/java/net/rptools/maptool/model/notebook/NoteBook.java:194-199 | one round of putEntries: collect the displaced entry, put the note, continue with the rest |
| NoteBooks.PutAllConsistent | src/main/java/net/rptools/maptool/model/notebook/NoteBook.java:190-206 | putEntries keeps the index consistent |
| NoteBooks.PutAllReportsReplaced | src/main/java/net/rptools/maptool/model/notebook/NoteBook.java:194-199 | the reported old entries are exactly those displaced: each shares an id with a note, and every entry filed under a note's id beforehand is reported |
| NoteBooks.PutAllKeepsOtherIds | src/main/java/net/rptools/maptool/model/notebook/NoteBook.java:194-199 | entries under ids no note carries are left alone |
| NoteBooks.PutAllLastWins | src/main/java/net/rptools/maptool/model/notebook/NoteBook.java:194-199 | in a completed batch, getById returns the last accepted note with each id |
| NoteBooks.NoteBook.constructor | src/main/java/net/rptools/maptool/model/notebook/NoteBook.java:86-98 | a new note book has four empty collections |
| NoteBooks.NoteBook.RemoveEntry | src/main/java/net/rptools/maptool/model/notebook/NoteBook.java:358-360 | removeEntry(entry) updates the fields in place to Remove of the old state; ok iff the entry's sets exist |
| NoteBooks.NoteBook.PutEntry | src/main/java/net/rptools/maptool/model/notebook/NoteBook.java:127-129 | putEntry(entry) updates the fields in place to Put of the old state; a removed zone's entry changes nothing; an accepted one is stored in all three indexes |
| NoteBooks.NoteBook.CollectDisplaced | src/main/java/net/rptools/maptool/model/notebook/NoteBook.java:195-197 | adds the entry currently filed under the note's id, if any, to the replaced set |
| NoteBooks.NoteBook.PutEntries | src/main/java/net/rptools/maptool/model/notebook/NoteBook.java:190-206 | the loop leaves the state PutAll describes and returns the replaced entries it reports |
| NoteBooks.NoteBook.GetById | src/main/java/net/rptools/maptool/model/notebook/NoteBook.java:389-401 | empty iff the id is unknown; otherwise the entry with that id |
| NoteBooks.NoteBook.GetEntries | src/main/java/net/rptools/maptool/model/notebook/NoteBook.java:213-220 | exactly the entries of the id map: each returned entry is what getById gives for its id, and every entry filed by id is returned |
| NoteBooks.NoteBook.GetZoneContents | src/main/java/net/rptools/maptool/model/notebook/NoteBook.java:263-277 | exactly the entries of the key's zone map, each filed there under its own id and belonging to that key; none when the key has no zone map |
| NoteBooks.NoteBook.GetZoneEntries | src/main/java/net/rptools/maptool/model/notebook/NoteBook.java:263-277 | exactly the entries of the zone's map, each with that zone id; none when the zone has no map, in particular when it is removed |
| NoteBooks.NoteBook.GetZoneLessEntries | src/main/java/net/rptools/maptool/model/notebook/NoteBook.java:284-286 | exactly the entries of the NO_ZONE_ID map, each without a zone; none before the first zone-less put |
| NoteBooks.NoteBook.GetByReference | src/main/java/net/rptools/maptool/model/notebook/NoteBook.java:369-381 | the reference's set when it is indexed, every entry of which has that reference; empty iff the reference is not indexed |
| NoteBooks.NoteBook.RemoveZoneMembers | src/main/java/net/rptools/maptool/model/notebook/NoteBook.java:299-305 | the loop strips every entry of the zone from the reference sets in any order, leaves the id map, removed zones and other zone maps alone, and succeeds whenever the zone's entries are all indexed by reference |
| NoteBooks.NoteBook.ZoneRemoved | src/main/java/net/rptools/maptool/model/notebook/NoteBook.java:294-319 | on success the state is AfterZoneRemoved of the old state; it succeeds whenever the zone's entries are indexed; a failure leaves removedZones as it was |
| NoteBooks.NoteBook.ZoneAdded | src/main/java/net/rptools/maptool/model/notebook/NoteBook.java:413-424 | the state becomes WithZoneAdded of the old state |
| NoteBooks.NoteBook.GetEntriesByZone | src/main/java/net/rptools/maptool/model/notebook/NoteBook.java:238-255 | each zone's entry set, the NO_ZONE_ID one under the null key, and no other key |
| TileMath.FloorLog2 | src/main/java/net/rptools/lib/image/WmsImage.java:81 | the zoom level k satisfies 2^k <= scale < 2^(k+1) |
| TileMath.TruncLog2 | src/main/java/net/rptools/lib/image/WtsImage.java:42 | log2 cast to int rounds toward zero: 2^k <= s < 2^(k+1) with k >= 0 above 1, 2^(k-1) < s <= 2^k with k <= 0 below 1 |
| TileMath.Trunc | src/main/java/net/rptools/lib/image/WmsImage.java:146-149 | the (int) cast truncates toward zero, within one unit of the value |
| TileMath.JavaDiv | src/main/java/net/rptools/lib/image/WtsImage.java:52-53 | Java int division truncates toward zero for either sign of the dividend |
| TileMath.Ceil | src/main/java/net/rptools/lib/image/WtsImage.java:53 | the first index a loop `i < b` does not run |
| TileMath.BelowCeil | src/main/java/net/rptools/lib/image/WtsImage.java:53 | i < b holds exactly for the indices below Ceil(b) |
| Decimal.ParseIntToString | src/main/java/net/rptools/lib/image/WmsImage.java:122 | the decimal text of an int parses back to it |
| Decimal.IntToStringInjective | src/main/java/net/rptools/lib/image/WmsImage.java:122 | distinct ints have distinct texts |
| Imaging.Store | src/main/java/net/rptools/lib/image/WmsImage.java:143 | cache.put of a decoded image binds the key; a null image reads back as a miss; other keys are unchanged |
| Imaging.GridMembership | src/main/java/net/rptools/lib/image/WmsImage.java:115-117 | the nested loops visit a tile iff it lies in the index rectangle |
| Imaging.GridOrder | src/main/java/net/rptools/lib/image/WmsImage.java:115-117 | tiles are visited column by column and row by row within a column |
| Imaging.GridVisitsOnce | src/main/java/net/rptools/lib/image/WmsImage.java:115-117 | no tile is visited twice |
| Imaging.GridSize | src/main/java/net/rptools/lib/image/WmsImage.java:115-117 | the loops visit (xEnd - x1) * (yEnd - y1) tiles |
| Imaging.ColumnShape | src/main/java/net/rptools/lib/image/WmsImage.java:117 | the inner loop visits rows y1 .. yEnd - 1 of its column, in order |
| Imaging.KeepWanted | src/main/java/net/rptools/lib/image/WmsImage.java:110-113 | the requested layers are exactly the named layers that the zone wants |
| WmsImage.ZoomOf | src/main/java/net/rptools/lib/image/WmsImage.java:81-83 | scaleInt is the power of two with scaleInt <= scale < 2 scaleInt, scaleFrac lies in [1, 2), and scaleInt * scaleFrac == scale |
| WmsImage.RangeOf | src/main/java/net/rptools/lib/image/WmsImage.java:86-94 | the tile range covers the viewport on each axis: x1t * TILE <= x1u and x2u < (x2t + 1) * TILE, likewise for y |
| WmsImage.LocalOrdered | src/main/java/net/rptools/lib/image/WmsImage.java:86-89 | the local start of the viewport is not past its end |
| WmsImage.ScreenRectSize | src/main/java/net/rptools/lib/image/WmsImage.java:146-152 | no tile is drawn with a negative size |
| WmsImage.TilesAbut | src/main/java/net/rptools/lib/image/WmsImage.java:146-149 | the right (bottom) edge of a tile is exactly the left (top) edge of the next, after the int cast |
| WmsImage.RangeEdgesEnclose | src/main/java/net/rptools/lib/image/WmsImage.java:91-94 | the first visited tile starts at or before the viewport and the one after the last at or beyond its far edge |
| WmsImage.AxisCovered | src/main/java/net/rptools/lib/image/WmsImage.java:91-94 | on one axis every viewport pixel lies between the edges of a visited tile |
| WmsImage.ViewportCovered | src/main/java/net/rptools/lib/image/WmsImage.java:86-149 | every viewport pixel lies in the screen rectangle of some visited tile |
| WmsImage.ExactViewVisitsNineTiles | src/main/java/net/rptools/lib/image/WmsImage.java:91-94 | a 512 by 512 view at scale 1 visits 3 by 3 tiles, the third column and row starting on the view's far edge |
| WmsImage.QueryBoxShape | src/main/java/net/rptools/lib/image/WmsImage.java:126-136 | each query box is non-empty (y2w < y1w), one tile span wide and high, gives back the tile index, and shares its edges with the next tile's box |
| WmsImage.TileRequest | src/main/java/net/rptools/lib/image/WmsImage.java:131-139 | a PNG, 2 * TILE square, transparent EPSG:4326 request for the box and layers |
| WmsImage.TileKeyInjective | src/main/java/net/rptools/lib/image/WmsImage.java:122 | for one zone and zoom level, distinct tiles have distinct keys |
| WmsImage.Enqueue | src/main/java/net/rptools/lib/image/WmsImage.java:58 | the queue never holds more than 200 keys and the added key is the newest |
| WmsImage.EnqueueKeepsNewest | src/main/java/net/rptools/lib/image/WmsImage.java:142 | adding to a full queue drops the oldest key: the queue stays the newest 200 keys in order |
| WmsImage.EnqueueAllIsNewest | src/main/java/net/rptools/lib/image/WmsImage.java:58 | after any history of adds the queue is the newest 200 keys |
| WmsImage.TileCache.constructor | src/main/java/net/rptools/lib/image/WmsImage.java:58-59 | an empty queue and an empty map |
| WmsImage.TileCache.Get | src/main/java/net/rptools/lib/image/WmsImage.java:123 | a hit iff the key is cached, with the cached image |
| WmsImage.TileCache.Put | src/main/java/net/rptools/lib/image/WmsImage.java:142-143 | the key joins the bounded queue, then the image is stored under it |
| WmsImage.TileCache.Reclaim | src/main/java/net/rptools/lib/image/WmsImage.java:59 | the collector removes exactly the given keys from the weak map; the queue is unaffected |
| WmsImage.Unit | src/main/java/net/rptools/lib/image/WmsImage.java:121-155 | one tile, after the collector has reclaimed its victims, keeps the queue within its capacity |
| WmsImage.UnitProtocol | src/main/java/net/rptools/lib/image/WmsImage.java:123-152 | reclaimed keys are gone unless the tile re-stores its own; other entries stay; a hit on what is left makes no request and keeps queue and map; a miss, including a tile just reclaimed, makes exactly the tile's request, and a completed fetch appends the key, stores the image and draws it |
| WmsImage.RunTiles | src/main/java/net/rptools/lib/image/WmsImage.java:115-158 | any run of tiles keeps the queue within its capacity |
| WmsImage.RunTilesAppend | src/main/java/net/rptools/lib/image/WmsImage.java:115-158 | running two tile lists in turn is running them joined |
| WmsImage.RunTilesRequests | src/main/java/net/rptools/lib/image/WmsImage.java:123-140 | a run issues at most one request per tile, each the request of a visited tile |
| WmsImage.RunTilesDraws | src/main/java/net/rptools/lib/image/WmsImage.java:146-152 | each tile draws at most once, and when no fetch throws every tile is drawn in its rectangle, in order |
| WmsImage.RunTilesAllHits | src/main/java/net/rptools/lib/image/WmsImage.java:123-124 | a view whose tiles are all cached, with none of their images reclaimed during the render, issues no request, keeps the queue, and keeps every one of those images |
| WmsImage.PassFor | src/main/java/net/rptools/lib/image/WmsImage.java:81-113 | the requested layers are exactly the layers the server names that the zone wants |
| WmsImage.RenderTile | src/main/java/net/rptools/lib/image/WmsImage.java:121-155 | the collector's reclamation followed by the per-tile task updates the cache in place as Unit describes |
| WmsImage.RenderColumn | src/main/java/net/rptools/lib/image/WmsImage.java:117-157 | the inner loop is the run of its column |
| WmsImage.RenderGrid | src/main/java/net/rptools/lib/image/WmsImage.java:115-158 | the nested loops are the run of the grid in loop order |
| WmsImage.Render | src/main/java/net/rptools/lib/image/WmsImage.java:73-160 | a null or short URL, or a failure before the loops, does nothing; otherwise the cache, requests and draws are those of running the view's tiles in loop order, with the weak map losing each tile's victims just before its lookup |
| WtsImage.ZoomOf | src/main/java/net/rptools/lib/image/WtsImage.java:42-44 | wtsScale = 2^logIntScale with the level truncated toward zero; relScale in (1/2, 1] for scales from 1 and in [1, 2) below; relScale * scaleFactor == wtsScale |
| WtsImage.FirstIndex | src/main/java/net/rptools/lib/image/WtsImage.java:52 | the loop starts one tile before -x / TILE_SIZE, with the quotient truncated toward zero |
| WtsImage.IndexEnd | src/main/java/net/rptools/lib/image/WtsImage.java:53 | the first index the loop does not run is the least integer not below the int quotient times relScale plus one |
| WtsImage.WtsKeyInjective | src/main/java/net/rptools/lib/image/WtsImage.java:63 | distinct level, column and row give distinct keys |
| WtsImage.WtsBoxShape | src/main/java/net/rptools/lib/image/WtsImage.java:78-85 | each box has min < max on both axes, spans 1/wtsScale each way, is anchored at (WY0, WX0) by the tile index, and shares edges with its neighbours |
| WtsImage.WtsRequest | src/main/java/net/rptools/lib/image/WtsImage.java:65-88 | a PNG, TILE_SIZE square, transparent EPSG:4326 request for the tile's box asking only for "regional", and for it exactly when the server names it |
| WtsImage.DrawRectApproximates | src/main/java/net/rptools/lib/image/WtsImage.java:93-99 | the drawn square's side is within a pixel of TILE_SIZE / relScale and between 128 and 512 pixels; its corner is within a pixel of the scaled origin |
| WtsImage.DrawRectLeavesGap | src/main/java/net/rptools/lib/image/WtsImage.java:93-99 | at scale 0.6, tile 1 ends at pixel 306 and tile 2 starts at 307, so column 306 is painted by neither |
| WtsImage.AbuttingRectsTile | src/main/java/net/rptools/lib/image/WtsImage.java:93-99 | with sizes taken to the next tile's position, neighbouring tiles share their edges and no size is negative |
| WtsImage.DrawEdgeMonotone | src/main/java/net/rptools/lib/image/WtsImage.java:95 | tile positions never decrease with the index |
| WtsImage.LoopBoundsMissRightEdge | src/main/java/net/rptools/lib/image/WtsImage.java:52-57 | 1000 pixels wide at scale 0.6 the loop visits columns -1 to 5 and none of them reaches pixel 921 |
| WtsImage.CoveringFirstEdge | src/main/java/net/rptools/lib/image/WtsImage.java:52 | with relScale applied before truncation, the first tile starts at or left of pixel 0 |
| WtsImage.CoveringEndEdge | src/main/java/net/rptools/lib/image/WtsImage.java:53 | with relScale applied before truncation, the last bound lies at or right of the view's far edge |
| WtsImage.CoveringBoundsCover | src/main/java/net/rptools/lib/image/WtsImage.java:52-57 | with the corrected bounds every pixel of the view lies in the span of a visited tile |
| WtsImage.UnitProtocol | src/main/java/net/rptools/lib/image/WtsImage.java:63-99 | a hit makes no request and keeps the cache; a miss makes exactly the tile's request and a completed fetch stores its image under the same key |
| WtsImage.RunTilesAppend | src/main/java/net/rptools/lib/image/WtsImage.java:52-105 | running two tile lists in turn is running them joined |
| WtsImage.RunTilesKeepsImages | src/main/java/net/rptools/lib/image/WtsImage.java:38 | the unbounded cache only grows, and every fetched image is cached after the run |
| WtsImage.WtsCache.constructor | src/main/java/net/rptools/lib/image/WtsImage.java:38 | an empty cache |
| WtsImage.WtsCache.Get | src/main/java/net/rptools/lib/image/WtsImage.java:63 | a hit iff the key is cached, with the cached image |
| WtsImage.WtsCache.Put | src/main/java/net/rptools/lib/image/WtsImage.java:91 | the image is stored under the key |
| WtsImage.RenderTile | src/main/java/net/rptools/lib/image/WtsImage.java:61-103 | the per-tile task updates the cache in place as Unit describes |
| WtsImage.RenderColumn | src/main/java/net/rptools/lib/image/WtsImage.java:55-104 | the inner loop is the run of its column up to the real bound |
| WtsImage.RenderGrid | src/main/java/net/rptools/lib/image/WtsImage.java:52-105 | the nested loops are the run of the grid between the loop bounds |
| WtsImage.Render | src/main/java/net/rptools/lib/image/WtsImage.java:40-111 | a failure before the loops does nothing; otherwise the cache, requests and draws are those of running the loop's tiles in order |
| Assets.NamedItem | src/main/java/net/rptools/maptool/model/Asset.java:270 | the value of the first attribute with the name (no earlier attribute has it), none iff no attribute has it |
| Assets.ValueOfChild | src/main/java/net/rptools/maptool/model/Asset.java:263-272 | a value exists only when the first child has the child index asked for |
| Assets.Assign | src/main/java/net/rptools/maptool/model/Asset.java:224-227 | the assignments write only their slots and never the counter |
| Assets.AssignStopsAtThrow | src/main/java/net/rptools/maptool/model/Asset.java:224-232 | the assignments stop at the first extraction that throws: the array holds exactly the assignments before it, and the node is left exactly when one threw |
| Assets.TagPass | src/main/java/net/rptools/maptool/model/Asset.java:223-234 | a tag adds its weight to the counter unless an extraction threw |
| Assets.AttrStep | src/main/java/net/rptools/maptool/model/Asset.java:223-234 | one attribute never decreases the counter |
| Assets.AttrLoop | src/main/java/net/rptools/maptool/model/Asset.java:221-239 | the attribute loop never decreases the counter and returns early only on completion or an exception |
| Assets.Walk | src/main/java/net/rptools/maptool/model/Asset.java:215-257 | the walk returns seven slots and never decreases the counter |
| Assets.ChildLoop | src/main/java/net/rptools/maptool/model/Asset.java:243-250 | the child loop returns seven slots and never decreases the counter |
| Assets.Zeros | src/main/java/net/rptools/maptool/model/Asset.java:216 | a fresh array is seven zeros |
| Assets.AttrStepCounts | src/main/java/net/rptools/maptool/model/Asset.java:228-233 | one attribute adds 0, 2 or 4 to the counter, since its number cannot be both tags |
| Assets.WalkSettles | src/main/java/net/rptools/maptool/model/Asset.java:215-257 | from a counter of 0, 2 or 4 the walk ends at 0, 2, 4, 6 or 8 |
| Assets.AttrLoopSettles | src/main/java/net/rptools/maptool/model/Asset.java:221-239 | the attribute loop keeps the counter among the settled values |
| Assets.ChildLoopSettles | src/main/java/net/rptools/maptool/model/Asset.java:243-250 | the child loop keeps the counter among the settled values |
| Assets.TiepointSets | src/main/java/net/rptools/maptool/model/Asset.java:223-229 | a 33922 attribute sets slots 0..3 from children 0, 1, 3, 4 and adds 4, leaving the pixel scale alone |
| Assets.PixelScaleSets | src/main/java/net/rptools/maptool/model/Asset.java:230-234 | a 33550 attribute sets slots 4 and 5 from children 0 and 1 and adds 2 |
| Assets.ThrowKeepsPartial | src/main/java/net/rptools/maptool/model/Asset.java:251-256 | an exception is swallowed with the partial result returned and the rest of the node unvisited |
| Assets.TiepointThrows | src/main/java/net/rptools/maptool/model/Asset.java:224-225 | a tie point whose second value throws has written only slot 0 |
| Assets.AssignSameFirstChild | src/main/java/net/rptools/maptool/model/Asset.java:224-232 | extractions read only the node's first child, so nodes sharing it assign alike |
| Assets.AttrStepSameFirstChild | src/main/java/net/rptools/maptool/model/Asset.java:223-234 | likewise for one attribute's two tag tests |
| Assets.AttrLoopSameFirstChild | src/main/java/net/rptools/maptool/model/Asset.java:221-239 | likewise for the attribute loop |
| Assets.HaltEndsNode | src/main/java/net/rptools/maptool/model/Asset.java:221-256 | when the attribute loop is left by an exception or by completion, the walk of the node returns the array as the loop left it and walks no child: children beyond the first do not matter |
| Assets.CompletedAttrsIgnoreRest | src/main/java/net/rptools/maptool/model/Asset.java:236-238 | once the counter passes 5.9 in the attribute loop, later attributes are never read |
| Assets.CompletedChildrenIgnoreRest | src/main/java/net/rptools/maptool/model/Asset.java:246-248 | once a child completes the walk, later children are never read |
| Assets.GetGeoTiffMetadata | src/main/java/net/rptools/maptool/model/Asset.java:215-257 | the recursive in-place walk leaves the array equal to Walk of its old contents |
| Assets.AttributeStep | src/main/java/net/rptools/maptool/model/Asset.java:223-234 | the two tag tests update the array in place as AttrStep describes |
| Assets.AssignFromChildren | src/main/java/net/rptools/maptool/model/Asset.java:224-232 | the extractions write the array in place as Assign describes |
| Assets.NewGeoTiffMetadata | src/main/java/net/rptools/maptool/model/Asset.java:216 | a null result starts the walk from a fresh array of zeros |
| Assets.FirstGeo | src/main/java/net/rptools/maptool/model/Asset.java:130-136 | the walk of the first tree whose counter exceeds 5.9, none iff no tree completes |
| Assets.Lower | src/main/java/net/rptools/maptool/model/Asset.java:124 | each ASCII capital becomes lower case, everything else is kept |
| Assets.Probing | src/main/java/net/rptools/maptool/model/Asset.java:116-146 | "" iff the image is missing or short, the stream fails, or the metadata read fails under an empty name; bytes no reader knows get exactly "data" and keep geoopts; with a reader the extension is its lower-cased format name, an empty one becoming "data" unless the metadata read failed, and geoopts is set to the first completed tree (none without trees); geoopts is set iff a reader was found, and only to a completed array |
| Assets.ReaderNameIsExtension | src/main/java/net/rptools/maptool/model/Asset.java:124 | a recognised image gets its reader's format name in lower case |
| Assets.Asset.constructor | src/main/java/net/rptools/maptool/model/Asset.java:62-70 | with bytes the id is their digest and the extension is probed at once; without, nothing else is set |
| Assets.Asset.FromId | src/main/java/net/rptools/maptool/model/Asset.java:86-88 | an asset known only by its id |
| Assets.Asset.GetImageExtension | src/main/java/net/rptools/maptool/model/Asset.java:113-149 | a known extension is returned unchanged; otherwise it is computed by Probing and geoopts updated accordingly |
| Assets.Asset.ScanTrees | src/main/java/net/rptools/maptool/model/Asset.java:128-136 | the format-name loop stops at the first completed walk and keeps it |
| Assets.Asset.SetImage | src/main/java/net/rptools/maptool/model/Asset.java:102-106 | the new bytes are stored and the extension recomputed from them |
| Assets.Asset.GetGeopts | src/main/java/net/rptools/maptool/model/Asset.java:108-111 | null, or a fresh copy with the same contents |
| Assets.Asset.ToString | src/main/java/net/rptools/maptool/model/Asset.java:189-191 | id/name(length), with "-" for the length when there is no image |
| Assets.Asset.HashCode | src/main/java/net/rptools/maptool/model/Asset.java:194-196 | the id's hash, and a failure iff there is no id |
| Assets.Asset.Equals | src/main/java/net/rptools/maptool/model/Asset.java:199-205 | false for null, a failure iff the other has no id, otherwise whether the ids agree |
| Assets.EqualsAgreesWithHashCode | src/main/java/net/rptools/maptool/model/Asset.java:194-205 | equal assets hash alike |
| Assets.EqualsSymmetric | src/main/java/net/rptools/maptool/model/Asset.java:199-205 | between assets with ids, equals is symmetric and reflexive |
| Assets.ToStringShowsLength | src/main/java/net/rptools/maptool/model/Asset.java:189-191 | equal texts have the same image presence and length |

## Left out

- Network access, the WMS client (`WebMapServer`, `getCapabilities`, `issueRequest`) and `ImageIO` are foreign I/O. The renderers take the layers the capabilities name, and the outcome of fetching one tile, as parameters. `Asset` takes the reader lookup and the metadata trees as a parameter.
- Thread pools, `awaitTermination` with its 10-second deadline, and concurrent draws are concurrency. The tiles run one after another in loop order, so a task still running at the deadline is not modelled.
- The GetMap request is a record, not its query string. The BBOX text order `y2w,x1w,y1w,x2w` is the record's field order.
- Double rounding, `Math.log`, `Math.pow` and `Double.toString` are not modelled: arithmetic is exact over reals. The text of the WMS zoom level is a function parameter.
- WmsImage.Render: requires scale > 0 and wmsScale > 0. A zero scale or map scale would divide by zero, and the IEEE infinities and NaN that follow are not modelled. A negative map scale, which Java accepts and turns into finite, mirrored query boxes, is excluded as meaningless for a map, and a negative scale is excluded because its logarithm is NaN.
- WtsImage.Render: requires scaleFactor > 0, for the same reason.
- `WeakHashMap` reclamation is `TileCache.Reclaim`, run with each tile's victim set just before that tile's lookup. Once a tile has looked up its image, it holds that image in a local variable, so a later reclamation cannot change that tile's draw. Reclamation between the put and the draw shows up at the next tile's lookup. In Java a key still held by the 200-key `cacheKeys` queue keeps its weak-map entry alive, which is why the queue exists; the model lets the collector reclaim any entry, a superset of what Java allows, so every property proved here also holds under that pinning.
- A null `zone.getWmsLayers()` is not modelled; the wanted layers are a list.
- The `Zone` overload of `getZoneEntries` (NoteBook.java:228-230) only passes the zone's id on, so it is `GetZoneEntries` on that id.
- Locks, `PropertyChangeSupport` and the events of `NoteBook` are left out. `putEntries` returns the old entries its event would carry.
- `Asset.getProperties`, `isTransfering`, `getType` with the `type` field, the XStream converter, and MD5 hashing are left out. The digest is a function parameter.
- The `BufferedImage` constructor of `Asset` is left out, because image encoding is foreign.
- The plain accessors `getId`, `setId`, `getImage` and `getName` are left out; they read or write one field.
- Assets.Lower: lower-cases ASCII letters only. Format names are ASCII, and full Unicode case mapping is out of scope.
- Unchecked exceptions that escape `getImageExtension` are left out, such as an `IllegalArgumentException` from a null image stream. The model covers the `IOException` paths only.
- Logging and `System.out` / `System.err` output are left out.
- NoteBooks.NoteBook.GetEntries, GetZoneContents, GetZoneEntries and GetZoneLessEntries return the entries at the time of the call. In Java, `getEntries` returns an unmodifiable live view of the id map, and `getZoneEntries` returns the zone map's live `values()` view, through which a caller can remove entries without touching the other indexes. The aliasing, later puts showing through a view, and writes through it are not modelled.
- Note book entries are values compared on id, zone id and reference. NoteBookEntry is not part of this model, so its `equals` and `hashCode` are assumed to compare those three fields. `ReplaceLeavesOldEntry`, and the `entries.remove(entry)` of removeEntry (NoteBook.java:335), depend on this.
- TileMath.Trunc: Java's saturating `(int)` cast of doubles beyond the int range is not modelled, and neither is the 32-bit wrap-around of int arithmetic such as `xt * TILE`, `size.width - offx` or `ii * TILE_SIZE`. Integers are unbounded, which is exact for views and tile indices far below 2^31.

## Findings

| source | as written | input that shows it | evidently intended | confidence | as-written member | corrected member |
|---|---|---|---|---|---|---|
| src/main/java/net/rptools/lib/image/WtsImage.java:93-99 | each tile's width and height are `(int) (TILE_SIZE / relScale)`, truncated independently of its position | scaleFactor 0.6 (relScale 5/3), x = 0: tile 1 covers pixels 153..305, tile 2 starts at 307, so column 306 is never painted | neighbouring tiles abut: each size runs to the next tile's position | not executed | WtsImage.DrawRectLeavesGap | WtsImage.AbuttingRectsTile |
| src/main/java/net/rptools/lib/image/WtsImage.java:52-57 | the loop bound `(size.width - x) / TILE_SIZE * relScale + 1` truncates the int quotient before applying relScale | width 1000, x = 0, scaleFactor 0.6: columns -1..5 are visited and pixels 921..999 are never painted | the visited tiles cover the whole view for every zoom | not executed | WtsImage.LoopBoundsMissRightEdge | WtsImage.CoveringBoundsCover |
