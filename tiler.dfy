/** The tiler: cuts the source image into 512 x 512 tiles in row-major order,
    clipping the tiles on the right and bottom edges, names each tile after
    its origin and writes one metadata row per tile. */
module Tiler {
  import opened Text
  import opened Raster

  const TileSize: nat := 512

  /** One entry of `tiles_info`, and one row of the metadata table. */
  datatype TileInfo = TileInfo(name: string, xStart: nat, yStart: nat, width: nat, height: nat)

  /** `f"tile_{x}_{y}.jpg"` */
  function TileName(x: nat, y: nat): string
  {
    "tile_" + Decimal(x) + "_" + Decimal(y) + ".jpg"
  }

  /** The part of a tile name in front of its extension. */
  function TileStem(x: nat, y: nat): string
  {
    "tile_" + Decimal(x) + "_" + Decimal(y)
  }

  lemma StemHasNoDot(x: nat, y: nat)
    ensures '.' !in TileStem(x, y) && '_' !in Decimal(y)
  {
    var dx, dy := Decimal(x), Decimal(y);
    assert forall k :: 0 <= k < |dx| ==> IsDigit(dx[k]);
    assert forall k :: 0 <= k < |dy| ==> IsDigit(dy[k]);
    assert TileStem(x, y) == "tile_" + dx + "_" + dy;
  }

  /** Two tiles get the same name only when they have the same origin. */
  lemma TileNameInjective(x1: nat, y1: nat, x2: nat, y2: nat)
    ensures TileName(x1, y1) == TileName(x2, y2) <==> x1 == x2 && y1 == y2
  {
    if TileName(x1, y1) == TileName(x2, y2) {
      var n := TileName(x1, y1);
      assert TileStem(x1, y1) == n[..|n| - 4] == TileStem(x2, y2);
      var a1, a2 := "tile_" + Decimal(x1), "tile_" + Decimal(x2);
      StemHasNoDot(x1, y1);
      StemHasNoDot(x2, y2);
      assert TileStem(x1, y1) == a1 + ['_'] + Decimal(y1);
      assert TileStem(x2, y2) == a2 + ['_'] + Decimal(y2);
      SplitAtLast('_', a1, Decimal(y1), a2, Decimal(y2));
      assert Decimal(x1) == a1[5..] == a2[5..] == Decimal(x2);
      DecimalInjective(x1, x2);
      DecimalInjective(y1, y2);
    }
  }

  /** The tile whose origin is (x, y) in a `w` x `h` image: its right and lower
      edges are `min(x + 512, w)` and `min(y + 512, h)`. */
  function TileAt(w: nat, h: nat, x: nat, y: nat): (t: TileInfo)
    requires x < w && y < h
    ensures t.name == TileName(x, y) && t.xStart == x && t.yStart == y
    ensures 1 <= t.width <= TileSize && t.xStart + t.width <= w
    ensures 1 <= t.height <= TileSize && t.yStart + t.height <= h
    ensures t.width == TileSize || t.xStart + t.width == w
    ensures t.height == TileSize || t.yStart + t.height == h
  {
    TileInfo(TileName(x, y), x, y, Min(x + TileSize, w) - x, Min(y + TileSize, h) - y)
  }

  /** The tiles of row `y`, from column `x` on: `for x in range(x, w, 512)`. */
  function RowFrom(w: nat, h: nat, y: nat, x: nat): seq<TileInfo>
    requires y < h
    decreases w - x
  {
    if x >= w then [] else [TileAt(w, h, x, y)] + RowFrom(w, h, y, x + TileSize)
  }

  /** The rows from `y` down: `for y in range(y, h, 512)`. */
  function RowsFrom(w: nat, h: nat, y: nat): seq<TileInfo>
    decreases h - y
  {
    if y >= h then [] else RowFrom(w, h, y, 0) + RowsFrom(w, h, y + TileSize)
  }

  /** The whole tiling of a `w` x `h` image, in the order the tiler emits it. */
  function TileGrid(w: nat, h: nat): seq<TileInfo>
  {
    RowsFrom(w, h, 0)
  }

  predicate InsideImage(img: Raster, t: TileInfo)
  {
    t.xStart + t.width <= Width(img) && t.yStart + t.height <= Height(img)
  }

  /** The pixels of a tile, cut out of the source image. */
  function TilePixels(img: Raster, t: TileInfo): (c: Raster)
    requires Rectangular(img) && InsideImage(img, t)
    ensures HasShape(c, t.height, t.width)
  {
    Crop(img, t.yStart, t.xStart, t.height, t.width)
  }

  /** The tile directory after saving `tiles` in order (a later save of the
      same name overwrites an earlier one). */
  function TileFiles(img: Raster, tiles: seq<TileInfo>): map<string, Raster>
    requires Rectangular(img) && forall t :: t in tiles ==> InsideImage(img, t)
    decreases |tiles|
  {
    if tiles == [] then map[]
    else
      var last := tiles[|tiles| - 1];
      TileFiles(img, tiles[..|tiles| - 1])[last.name := TilePixels(img, last)]
  }

  const MetadataHeader: seq<string> := ["tile_name", "x_start", "y_start", "width", "height"]

  function MetadataRow(t: TileInfo): seq<string>
  {
    [t.name, Decimal(t.xStart), Decimal(t.yStart), Decimal(t.width), Decimal(t.height)]
  }

  function MetadataRows(tiles: seq<TileInfo>): seq<seq<string>>
    decreases |tiles|
  {
    if tiles == [] then [] else MetadataRows(tiles[..|tiles| - 1]) + [MetadataRow(tiles[|tiles| - 1])]
  }

  /** The metadata CSV as a table of fields: the header, then one row per tile. */
  function MetadataTable(tiles: seq<TileInfo>): seq<seq<string>>
  {
    [MetadataHeader] + MetadataRows(tiles)
  }

  /** Reading one metadata row back, as the stitcher's `read_csv` does. */
  function ParseRow(row: seq<string>): Option<TileInfo>
  {
    if |row| != 5 then None
    else match (ParseNat(row[1]), ParseNat(row[2]), ParseNat(row[3]), ParseNat(row[4]))
      case (Some(x), Some(y), Some(w), Some(h)) => Some(TileInfo(row[0], x, y, w, h))
      case _ => None
  }

  function ParseRows(rows: seq<seq<string>>): Option<seq<TileInfo>>
    decreases |rows|
  {
    if rows == [] then Some([])
    else match (ParseRows(rows[..|rows| - 1]), ParseRow(rows[|rows| - 1]))
      case (Some(ts), Some(t)) => Some(ts + [t])
      case _ => None
  }

  function ParseMetadata(table: seq<seq<string>>): Option<seq<TileInfo>>
  {
    if table == [] || table[0] != MetadataHeader then None else ParseRows(table[1..])
  }

  /** The state the tiler's loops carry: the entries so far, all inside the
      image, the tile directory and the metadata table written for them. */
  predicate TilerState(img: Raster, tiles: seq<TileInfo>, files: map<string, Raster>, table: seq<seq<string>>)
  {
    && Rectangular(img)
    && (forall t :: t in tiles ==> InsideImage(img, t))
    && files == TileFiles(img, tiles)
    && table == MetadataTable(tiles)
  }

  /** `tile_image_with_mapping`: the nested loops over rows and columns, each
      iteration cutting one tile, saving it under its name, appending its
      entry to `tiles_info` and writing its metadata row. */
  method TileImage(img: Raster) returns (tiles: seq<TileInfo>, files: map<string, Raster>, table: seq<seq<string>>)
    requires Rectangular(img)
    ensures tiles == TileGrid(Width(img), Height(img))
    ensures TilerState(img, tiles, files, table)
  {
    var width, height := Width(img), Height(img);
    tiles, files, table := [], map[], [MetadataHeader];
    var y: nat := 0;
    while y < height
      invariant tiles + RowsFrom(width, height, y) == TileGrid(width, height)
      invariant TilerState(img, tiles, files, table)
    {
      ghost var done, row, rest := tiles, RowFrom(width, height, y, 0), RowsFrom(width, height, y + TileSize);
      assert RowsFrom(width, height, y) == row + rest;
      tiles, files, table := CutRow(img, y, tiles, files, table);
      assert tiles + rest == done + (row + rest);
      y := y + TileSize;
    }
  }

  /** One pass of the outer loop: the inner loop over the columns of row `y`. */
  method CutRow(img: Raster, y: nat, tiles0: seq<TileInfo>, files0: map<string, Raster>, table0: seq<seq<string>>)
    returns (tiles: seq<TileInfo>, files: map<string, Raster>, table: seq<seq<string>>)
    requires TilerState(img, tiles0, files0, table0)
    requires y < Height(img)
    ensures tiles == tiles0 + RowFrom(Width(img), Height(img), y, 0)
    ensures TilerState(img, tiles, files, table)
  {
    var width, height := Width(img), Height(img);
    tiles, files, table := tiles0, files0, table0;
    var x: nat := 0;
    while x < width
      invariant tiles + RowFrom(width, height, y, x) == tiles0 + RowFrom(width, height, y, 0)
      invariant TilerState(img, tiles, files, table)
    {
      tiles, files, table := CutTile(img, x, y, tiles, files, table);
      x := x + TileSize;
    }
  }

  /** The body of the inner loop: cut the tile at (x, y), save it, record it. */
  method CutTile(img: Raster, x: nat, y: nat, tiles0: seq<TileInfo>, files0: map<string, Raster>, table0: seq<seq<string>>)
    returns (tiles: seq<TileInfo>, files: map<string, Raster>, table: seq<seq<string>>)
    requires TilerState(img, tiles0, files0, table0)
    requires x < Width(img) && y < Height(img)
    ensures tiles == tiles0 + [TileAt(Width(img), Height(img), x, y)]
    ensures TilerState(img, tiles, files, table)
  {
    var width, height := Width(img), Height(img);
    var right := Min(x + TileSize, width);
    var lower := Min(y + TileSize, height);
    var name := TileName(x, y);
    var info := TileInfo(name, x, y, right - x, lower - y);
    files := files0[name := Crop(img, y, x, lower - y, right - x)];
    tiles := tiles0 + [info];
    table := table0 + [MetadataRow(info)];
    assert tiles[..|tiles| - 1] == tiles0;
  }

  // ---------------------------------------------------------------------------
  // Geometry of the tiling

  /** (x, y) lies in the tile's rectangle. */
  predicate Covers(t: TileInfo, x: int, y: int)
  {
    t.xStart <= x < t.xStart + t.width && t.yStart <= y < t.yStart + t.height
  }

  /** `a` is emitted before `b` in row-major order. */
  predicate Precedes(a: TileInfo, b: TileInfo)
  {
    a.yStart < b.yStart || (a.yStart == b.yStart && a.xStart < b.xStart)
  }

  predicate RowMajor(tiles: seq<TileInfo>)
  {
    forall i, j :: 0 <= i < j < |tiles| ==> Precedes(tiles[i], tiles[j])
  }

  /** A tile of the grid: origin on a multiple of 512 inside the image, and
      the clipped size `TileAt` gives it. */
  predicate OnGrid(w: nat, h: nat, t: TileInfo)
  {
    t.xStart % TileSize == 0 && t.yStart % TileSize == 0 && t.xStart < w && t.yStart < h
    && t == TileAt(w, h, t.xStart, t.yStart)
  }

  /** Two distinct multiples of 512 are at least 512 apart. */
  lemma NextMultiple(a: nat, b: nat)
    requires a % TileSize == 0 && b % TileSize == 0 && a < b
    ensures a + TileSize <= b
  {
    var p, q := a / TileSize, b / TileSize;
    assert a == p * TileSize && b == q * TileSize;
    assert p < q;
    assert (q - p) * TileSize >= TileSize;
  }

  lemma {:induction false} RowFromMembers(w: nat, h: nat, y: nat, x: nat, t: TileInfo)
    requires y < h && x % TileSize == 0
    ensures t in RowFrom(w, h, y, x) <==>
      t.yStart == y && x <= t.xStart < w && t.xStart % TileSize == 0 && t == TileAt(w, h, t.xStart, y)
    decreases w - x
  {
    if x < w {
      RowFromMembers(w, h, y, x + TileSize, t);
      assert RowFrom(w, h, y, x) == [TileAt(w, h, x, y)] + RowFrom(w, h, y, x + TileSize);
      if t.xStart % TileSize == 0 && x < t.xStart {
        NextMultiple(x, t.xStart);
      }
    }
  }

  lemma {:induction false} RowsFromMembers(w: nat, h: nat, y: nat, t: TileInfo)
    requires y % TileSize == 0
    ensures t in RowsFrom(w, h, y) <==> y <= t.yStart && OnGrid(w, h, t)
    decreases h - y
  {
    if y < h {
      RowFromMembers(w, h, y, 0, t);
      RowsFromMembers(w, h, y + TileSize, t);
      if t.yStart % TileSize == 0 && y < t.yStart {
        NextMultiple(y, t.yStart);
      }
    }
  }

  /** The grid holds exactly the tiles whose origins are multiples of 512
      inside the image, each with the clipped size: so every tile lies inside
      the image and measures between 1 and 512 in each direction. */
  lemma GridMembers(w: nat, h: nat, t: TileInfo)
    ensures t in TileGrid(w, h) <==> OnGrid(w, h, t)
    ensures t in TileGrid(w, h) ==>
      1 <= t.width <= TileSize && t.xStart + t.width <= w && 1 <= t.height <= TileSize && t.yStart + t.height <= h
  {
    RowsFromMembers(w, h, 0, t);
  }

  lemma GridInside(img: Raster)
    ensures forall t :: t in TileGrid(Width(img), Height(img)) ==> InsideImage(img, t)
  {
    forall t | t in TileGrid(Width(img), Height(img)) ensures InsideImage(img, t) {
      GridMembers(Width(img), Height(img), t);
    }
  }

  /** The tile directory the tiler leaves behind for `img`. */
  function TiledFiles(img: Raster): map<string, Raster>
    requires Rectangular(img)
  {
    GridInside(img);
    TileFiles(img, TileGrid(Width(img), Height(img)))
  }

  /** The number of 512-wide steps needed to cover `n`: `ceil(n / 512)`. */
  function Steps(n: nat): nat { (n + TileSize - 1) / TileSize }

  lemma {:induction false} RowFromLength(w: nat, h: nat, y: nat, x: nat)
    requires y < h
    ensures |RowFrom(w, h, y, x)| == if x >= w then 0 else Steps(w - x)
    decreases w - x
  {
    if x < w {
      RowFromLength(w, h, y, x + TileSize);
    }
  }

  lemma {:induction false} RowsFromLength(w: nat, h: nat, y: nat)
    ensures |RowsFrom(w, h, y)| == if y >= h then 0 else Steps(h - y) * Steps(w)
    decreases h - y
  {
    if y < h {
      RowFromLength(w, h, y, 0);
      RowsFromLength(w, h, y + TileSize);
      var r := if y + TileSize >= h then 0 else Steps(h - y - TileSize);
      assert Steps(h - y) == r + 1;
      assert (r + 1) * Steps(w) == Steps(w) + r * Steps(w);
    }
  }

  /** There are ceil(w / 512) * ceil(h / 512) tiles. */
  lemma GridSize(w: nat, h: nat)
    ensures |TileGrid(w, h)| == Steps(w) * Steps(h)
  {
    RowsFromLength(w, h, 0);
    if h == 0 {
      assert Steps(h) == 0;
    }
  }

  lemma ConcatRowMajor(a: seq<TileInfo>, b: seq<TileInfo>)
    requires RowMajor(a) && RowMajor(b)
    requires forall i, j :: 0 <= i < |a| && 0 <= j < |b| ==> Precedes(a[i], b[j])
    ensures RowMajor(a + b)
  {
    var c := a + b;
    forall i, j | 0 <= i < j < |c| ensures Precedes(c[i], c[j]) {
      if j < |a| {
        assert c[i] == a[i] && c[j] == a[j];
      } else if i >= |a| {
        assert c[i] == b[i - |a|] && c[j] == b[j - |a|];
      } else {
        assert c[i] == a[i] && c[j] == b[j - |a|];
      }
    }
  }

  lemma {:induction false} RowFromOrdered(w: nat, h: nat, y: nat, x: nat)
    requires y < h
    ensures RowMajor(RowFrom(w, h, y, x))
    ensures forall k :: 0 <= k < |RowFrom(w, h, y, x)| ==>
      RowFrom(w, h, y, x)[k].yStart == y && RowFrom(w, h, y, x)[k].xStart >= x
    decreases w - x
  {
    if x < w {
      RowFromOrdered(w, h, y, x + TileSize);
      ConcatRowMajor([TileAt(w, h, x, y)], RowFrom(w, h, y, x + TileSize));
    }
  }

  lemma {:induction false} RowsFromOrdered(w: nat, h: nat, y: nat)
    ensures RowMajor(RowsFrom(w, h, y))
    ensures forall k :: 0 <= k < |RowsFrom(w, h, y)| ==> RowsFrom(w, h, y)[k].yStart >= y
    decreases h - y
  {
    if y < h {
      RowFromOrdered(w, h, y, 0);
      RowsFromOrdered(w, h, y + TileSize);
      ConcatRowMajor(RowFrom(w, h, y, 0), RowsFrom(w, h, y + TileSize));
    }
  }

  /** Tiles come out in row-major order: by increasing y, then increasing x. */
  lemma GridRowMajor(w: nat, h: nat)
    ensures RowMajor(TileGrid(w, h))
  {
    RowsFromOrdered(w, h, 0);
  }

  /** Every pixel of the image lies in the tile whose origin is the pixel's
      coordinates rounded down to multiples of 512. */
  lemma GridCovers(w: nat, h: nat, x: nat, y: nat)
    requires x < w && y < h
    ensures (x / TileSize) * TileSize < w && (y / TileSize) * TileSize < h
    ensures TileAt(w, h, (x / TileSize) * TileSize, (y / TileSize) * TileSize) in TileGrid(w, h)
    ensures Covers(TileAt(w, h, (x / TileSize) * TileSize, (y / TileSize) * TileSize), x, y)
  {
    RoundDown(x);
    RoundDown(y);
    var t := TileAt(w, h, (x / TileSize) * TileSize, (y / TileSize) * TileSize);
    GridMembers(w, h, t);
  }

  /** Rounding down to a multiple of 512 lands less than a tile below. */
  lemma RoundDown(p: nat)
    ensures var s := (p / TileSize) * TileSize; 0 <= s <= p < s + TileSize && s % TileSize == 0
  {
    var q := p / TileSize;
    assert q * TileSize <= p < q * TileSize + TileSize;
    assert (q * TileSize) % TileSize == 0;
  }

  /** A tile on the grid that covers a pixel has the rounded-down origin. */
  lemma CoveringTileOrigin(w: nat, h: nat, t: TileInfo, x: int, y: int)
    requires OnGrid(w, h, t) && Covers(t, x, y)
    ensures t.xStart == (x / TileSize) * TileSize && t.yStart == (y / TileSize) * TileSize
  {
    assert t.width <= TileSize && t.height <= TileSize;
    AlignedFloor(t.xStart, x);
    AlignedFloor(t.yStart, y);
  }

  /** A point less than a tile past a multiple of 512 rounds down to it. */
  lemma AlignedFloor(start: nat, p: int)
    requires start % TileSize == 0 && start <= p < start + TileSize
    ensures start == (p / TileSize) * TileSize
  {
    var q := start / TileSize;
    assert start == q * TileSize;
    assert q * TileSize <= p < (q + 1) * TileSize;
  }

  /** No two tiles of the grid share a pixel. */
  lemma GridDisjoint(w: nat, h: nat, i: nat, j: nat, x: int, y: int)
    requires i < j < |TileGrid(w, h)|
    ensures !(Covers(TileGrid(w, h)[i], x, y) && Covers(TileGrid(w, h)[j], x, y))
  {
    var g := TileGrid(w, h);
    GridRowMajor(w, h);
    assert Precedes(g[i], g[j]);
    if Covers(g[i], x, y) && Covers(g[j], x, y) {
      GridMembers(w, h, g[i]);
      GridMembers(w, h, g[j]);
      CoveringTileOrigin(w, h, g[i], x, y);
      CoveringTileOrigin(w, h, g[j], x, y);
    }
  }

  /** Every tile of the grid has its own name, so no tile file is saved over
      another. */
  lemma GridNamesDistinct(w: nat, h: nat, i: nat, j: nat)
    requires i < j < |TileGrid(w, h)|
    ensures TileGrid(w, h)[i].name != TileGrid(w, h)[j].name
  {
    var g := TileGrid(w, h);
    GridRowMajor(w, h);
    assert Precedes(g[i], g[j]);
    GridMembers(w, h, g[i]);
    GridMembers(w, h, g[j]);
    TileNameInjective(g[i].xStart, g[i].yStart, g[j].xStart, g[j].yStart);
  }

  /** A 1024 x 1024 image gives four tiles with origins (0,0), (512,0),
      (0,512), (512,512), each 512 x 512. */
  lemma Example1024()
    ensures TileGrid(1024, 1024) ==
      [TileInfo(TileName(0, 0), 0, 0, 512, 512), TileInfo(TileName(512, 0), 512, 0, 512, 512),
       TileInfo(TileName(0, 512), 0, 512, 512, 512), TileInfo(TileName(512, 512), 512, 512, 512, 512)]
  {
    assert RowFrom(1024, 1024, 0, 1024) == [];
    assert RowFrom(1024, 1024, 512, 1024) == [];
    assert RowsFrom(1024, 1024, 1024) == [];
    assert RowsFrom(1024, 1024, 512) == RowFrom(1024, 1024, 512, 0);
  }

  /** A 600-wide image gets a right-edge tile 88 pixels wide, not 512. */
  lemma Example600(h: nat)
    requires 0 < h <= TileSize
    ensures TileGrid(600, h) == [TileInfo(TileName(0, 0), 0, 0, 512, h), TileInfo(TileName(512, 0), 512, 0, 88, h)]
  {
    assert RowFrom(600, h, 0, 1024) == [];
    assert RowsFrom(600, h, 512) == [];
  }

  // ---------------------------------------------------------------------------
  // The saved tiles and the metadata table

  /** Looking up a tile's name in the tile directory gives that tile's pixels,
      when the names are distinct. */
  lemma {:induction false} TileFilesLookup(img: Raster, tiles: seq<TileInfo>, k: nat)
    requires Rectangular(img) && forall t :: t in tiles ==> InsideImage(img, t)
    requires forall i, j :: 0 <= i < j < |tiles| ==> tiles[i].name != tiles[j].name
    requires k < |tiles|
    ensures tiles[k].name in TileFiles(img, tiles)
    ensures TileFiles(img, tiles)[tiles[k].name] == TilePixels(img, tiles[k])
    decreases |tiles|
  {
    if k < |tiles| - 1 {
      var prefix := tiles[..|tiles| - 1];
      assert prefix[k] == tiles[k];
      TileFilesLookup(img, prefix, k);
    }
  }

  lemma {:induction false} TileFilesKeys(img: Raster, tiles: seq<TileInfo>, name: string)
    requires Rectangular(img) && forall t :: t in tiles ==> InsideImage(img, t)
    ensures name in TileFiles(img, tiles) <==> exists t :: t in tiles && t.name == name
    decreases |tiles|
  {
    if tiles != [] {
      var prefix := tiles[..|tiles| - 1];
      TileFilesKeys(img, prefix, name);
      assert tiles == prefix + [tiles[|tiles| - 1]];
    }
  }

  lemma {:induction false} MetadataRowsRoundTrip(tiles: seq<TileInfo>)
    ensures ParseRows(MetadataRows(tiles)) == Some(tiles)
    decreases |tiles|
  {
    if tiles != [] {
      var prefix, last := tiles[..|tiles| - 1], tiles[|tiles| - 1];
      var rows := MetadataRows(tiles);
      assert rows[..|rows| - 1] == MetadataRows(prefix);
      MetadataRowsRoundTrip(prefix);
      ParseDecimal(last.xStart);
      ParseDecimal(last.yStart);
      ParseDecimal(last.width);
      ParseDecimal(last.height);
      assert ParseRow(MetadataRow(last)) == Some(last);
      assert prefix + [last] == tiles;
    }
  }

  /** The metadata table round-trips: reading it back gives every
      `tiles_info` entry, in order, with its name, origin and size. */
  lemma MetadataRoundTrip(tiles: seq<TileInfo>)
    ensures ParseMetadata(MetadataTable(tiles)) == Some(tiles)
  {
    MetadataRowsRoundTrip(tiles);
    assert MetadataTable(tiles)[1..] == MetadataRows(tiles);
  }
}
