/** The stitcher: reads the metadata table back, allocates a black canvas of
    (largest x_start + largest width) x (largest y_start + largest height),
    and pastes every annotated tile that can be read at its origin, later
    rows overwriting earlier ones. */
module Stitcher {
  import opened Text
  import opened Raster
  import opened Tiler
  import opened Detection

  /** The largest element, as pandas' `Series.max` gives it. */
  function Largest(s: seq<nat>): (m: nat)
    requires s != []
    ensures m in s && forall k :: 0 <= k < |s| ==> s[k] <= m
    decreases |s|
  {
    if |s| == 1 then s[0]
    else
      var p := Largest(s[..|s| - 1]);
      if s[|s| - 1] > p then s[|s| - 1] else p
  }

  /** A column of the metadata table. */
  datatype Field = XStartCol | YStartCol | WidthCol | HeightCol

  function FieldOf(t: TileInfo, f: Field): nat
  {
    match f
    case XStartCol => t.xStart
    case YStartCol => t.yStart
    case WidthCol => t.width
    case HeightCol => t.height
  }

  function Column(tiles: seq<TileInfo>, f: Field): (col: seq<nat>)
    ensures |col| == |tiles| && forall k :: 0 <= k < |tiles| ==> col[k] == FieldOf(tiles[k], f)
  {
    seq(|tiles|, k requires 0 <= k < |tiles| => FieldOf(tiles[k], f))
  }

  /** `df['x_start'].max() + df['width'].max()`. */
  function CanvasWidth(tiles: seq<TileInfo>): nat
    requires tiles != []
  {
    Largest(Column(tiles, XStartCol)) + Largest(Column(tiles, WidthCol))
  }

  /** `df['y_start'].max() + df['height'].max()`. */
  function CanvasHeight(tiles: seq<TileInfo>): nat
    requires tiles != []
  {
    Largest(Column(tiles, YStartCol)) + Largest(Column(tiles, HeightCol))
  }

  /** The canvas reaches at least as far as every metadata row says its tile
      does. */
  lemma CanvasCoversRows(tiles: seq<TileInfo>, k: nat)
    requires k < |tiles|
    ensures tiles[k].xStart + tiles[k].width <= CanvasWidth(tiles)
    ensures tiles[k].yStart + tiles[k].height <= CanvasHeight(tiles)
  {
    assert Column(tiles, XStartCol)[k] == tiles[k].xStart && Column(tiles, WidthCol)[k] == tiles[k].width;
    assert Column(tiles, YStartCol)[k] == tiles[k].yStart && Column(tiles, HeightCol)[k] == tiles[k].height;
  }

  /** The tile image read for row `t` covers the cell in row `r`, column `c`
      of the canvas: the pasted rectangle has the image's own size. */
  predicate Paints(tile: Raster, t: TileInfo, r: int, c: int)
  {
    t.yStart <= r < t.yStart + Height(tile) && t.xStart <= c < t.xStart + Width(tile)
  }

  /** Row `k` of the metadata names a readable tile that covers cell (r, c). */
  predicate PaintsAt(tiles: seq<TileInfo>, annotated: map<string, Raster>, k: int, r: int, c: int)
  {
    0 <= k < |tiles| && tiles[k].name in annotated && Paints(annotated[tiles[k].name], tiles[k], r, c)
  }

  /** The pixel the tile of row `k` puts in cell (r, c). */
  function TilePixel(tiles: seq<TileInfo>, annotated: map<string, Raster>, k: int, r: int, c: int): Pixel
    requires AllRectangular(annotated) && PaintsAt(tiles, annotated, k, r, c)
  {
    var t := tiles[k];
    annotated[t.name][r - t.yStart][c - t.xStart]
  }

  /** Cell (r, c) of the canvas after pasting the rows of `tiles` in order. */
  function CellAt(tiles: seq<TileInfo>, annotated: map<string, Raster>, r: int, c: int): Pixel
    requires AllRectangular(annotated)
    decreases |tiles|
  {
    if tiles == [] then Black
    else if PaintsAt(tiles, annotated, |tiles| - 1, r, c) then TilePixel(tiles, annotated, |tiles| - 1, r, c)
    else CellAt(tiles[..|tiles| - 1], annotated, r, c)
  }

  /** numpy's broadcasting rule for one axis of the slice assignment: the
      tile's side `n` must equal the target slice's side `len`, or be 1. */
  predicate SideFits(n: nat, len: nat)
  {
    n == len || n == 1
  }

  /** `canvas[y:y+th, x:x+tw] = tile` goes through on a `w` x `h` canvas.
      The target slice is cut short at the canvas edge; the assignment
      raises unless on each axis the tile's side equals the slice's or is 1.
      A slice is never longer than the tile, so a side of 1 that differs
      broadcasts into an empty slice and writes nothing. */
  predicate Fits(annotated: map<string, Raster>, t: TileInfo, w: nat, h: nat)
  {
    t.name in annotated ==>
      var tile := annotated[t.name];
      && SideFits(Height(tile), SliceLen(h, t.yStart, t.yStart + Height(tile)))
      && SideFits(Width(tile), SliceLen(w, t.xStart, t.xStart + Width(tile)))
  }

  /** A tile inside the canvas fits; a tile whose side is more than 1 and
      runs past the canvas edge does not. */
  lemma FitsMeaning(annotated: map<string, Raster>, t: TileInfo, w: nat, h: nat)
    requires t.name in annotated
    ensures t.xStart + Width(annotated[t.name]) <= w && t.yStart + Height(annotated[t.name]) <= h
            ==> Fits(annotated, t, w, h)
    ensures Height(annotated[t.name]) > 1 && t.yStart + Height(annotated[t.name]) > h ==> !Fits(annotated, t, w, h)
    ensures Width(annotated[t.name]) > 1 && t.xStart + Width(annotated[t.name]) > w ==> !Fits(annotated, t, w, h)
  {
  }

  /** A tile one pixel high that starts below the canvas is broadcast into
      the empty slice: with rows `a` at (0, 0) and `b` at (0, 3), both of
      height 0 in the table and both 1 x 2 tiles, the canvas has 3 rows and 2
      columns, the stitch succeeds, and `b` paints no cell of it. */
  lemma BroadcastExample(px: Pixel)
    ensures var tiles := [TileInfo("a", 0, 0, 2, 0), TileInfo("b", 0, 3, 2, 0)];
            var files := map["a" := [[px, px]], "b" := [[px, px]]];
            && CanvasWidth(tiles) == 2 && CanvasHeight(tiles) == 3
            && Stitchable(tiles, files)
            && forall r, c :: 0 <= r < 3 && 0 <= c < 2 ==> !PaintsAt(tiles, files, 1, r, c)
  {
    var tiles := [TileInfo("a", 0, 0, 2, 0), TileInfo("b", 0, 3, 2, 0)];
    assert Column(tiles, XStartCol) == [0, 0] && Column(tiles, WidthCol) == [2, 2];
    assert Column(tiles, YStartCol) == [0, 3] && Column(tiles, HeightCol) == [0, 0];
  }

  /** The stitcher finishes: there is at least one metadata row (otherwise
      the maxima are NaN and allocating the canvas raises) and every readable
      tile fits. */
  predicate Stitchable(tiles: seq<TileInfo>, annotated: map<string, Raster>)
  {
    tiles != [] && forall k :: 0 <= k < |tiles| ==> Fits(annotated, tiles[k], CanvasWidth(tiles), CanvasHeight(tiles))
  }

  /** A cell that no readable tile covers keeps the canvas's zero value. */
  lemma {:induction false} CellUncovered(tiles: seq<TileInfo>, annotated: map<string, Raster>, r: int, c: int)
    requires AllRectangular(annotated)
    requires forall k :: 0 <= k < |tiles| ==> !PaintsAt(tiles, annotated, k, r, c)
    ensures CellAt(tiles, annotated, r, c) == Black
    decreases |tiles|
  {
    if tiles != [] {
      var prefix := tiles[..|tiles| - 1];
      forall k | 0 <= k < |prefix| ensures !PaintsAt(prefix, annotated, k, r, c) {
        assert prefix[k] == tiles[k] && !PaintsAt(tiles, annotated, k, r, c);
      }
      CellUncovered(prefix, annotated, r, c);
    }
  }

  /** A covered cell holds the pixel of the last readable tile that covers
      it: later tiles overwrite earlier ones. */
  lemma {:induction false} CellFromLast(tiles: seq<TileInfo>, annotated: map<string, Raster>, r: int, c: int, k: nat)
    requires AllRectangular(annotated)
    requires PaintsAt(tiles, annotated, k, r, c)
    requires forall l :: k < l < |tiles| ==> !PaintsAt(tiles, annotated, l, r, c)
    ensures CellAt(tiles, annotated, r, c) == TilePixel(tiles, annotated, k, r, c)
    decreases |tiles|
  {
    if k < |tiles| - 1 {
      var prefix := tiles[..|tiles| - 1];
      assert prefix[k] == tiles[k];
      forall l | k < l < |prefix| ensures !PaintsAt(prefix, annotated, l, r, c) {
        assert prefix[l] == tiles[l] && !PaintsAt(tiles, annotated, l, r, c);
      }
      CellFromLast(prefix, annotated, r, c, k);
    }
  }

  /** `canvas[y:y+h, x:x+w] = tile` for a tile that fits: the rectangle is
      overwritten cell by cell and nothing else changes. */
  method Paste(canvas: array2<Pixel>, tile: Raster, x: nat, y: nat)
    requires Rectangular(tile)
    requires y + Height(tile) <= canvas.Length0 && x + Width(tile) <= canvas.Length1
    modifies canvas
    ensures forall r, c :: 0 <= r < canvas.Length0 && 0 <= c < canvas.Length1 ==>
      canvas[r, c] == if y <= r < y + Height(tile) && x <= c < x + Width(tile) then tile[r - y][c - x] else old(canvas[r, c])
  {
    var h, w := Height(tile), Width(tile);
    for i := 0 to h
      invariant forall r, c :: 0 <= r < canvas.Length0 && 0 <= c < canvas.Length1 ==>
        canvas[r, c] == if y <= r < y + i && x <= c < x + w then tile[r - y][c - x] else old(canvas[r, c])
    {
      for j := 0 to w
        invariant forall r, c :: 0 <= r < canvas.Length0 && 0 <= c < canvas.Length1 ==>
          canvas[r, c] == if (y <= r < y + i && x <= c < x + w) || (r == y + i && x <= c < x + j)
                          then tile[r - y][c - x] else old(canvas[r, c])
      {
        canvas[y + i, x + j] := tile[i][j];
      }
    }
  }

  /** Pasting the rows up to `k` is pasting those before it, then row `k`. */
  lemma CellAtStep(tiles: seq<TileInfo>, annotated: map<string, Raster>, k: nat, r: int, c: int)
    requires AllRectangular(annotated) && k < |tiles|
    ensures CellAt(tiles[..k + 1], annotated, r, c)
         == if PaintsAt(tiles, annotated, k, r, c) then TilePixel(tiles, annotated, k, r, c) else CellAt(tiles[..k], annotated, r, c)
  {
    var p := tiles[..k + 1];
    assert p[..k] == tiles[..k] && p[k] == tiles[k];
    assert PaintsAt(p, annotated, k, r, c) == PaintsAt(tiles, annotated, k, r, c);
  }

  /** One pass of the stitcher's loop: the tile of row `k`, when readable,
      is pasted if the assignment goes through (a one-pixel side broadcast
      into an empty slice writes nothing), so the canvas then holds the rows
      up to `k`; `fits` is false when it would raise. */
  method PasteRow(canvas: array2<Pixel>, tiles: seq<TileInfo>, annotated: map<string, Raster>, k: nat) returns (fits: bool)
    requires AllRectangular(annotated) && k < |tiles|
    requires forall r, c :: 0 <= r < canvas.Length0 && 0 <= c < canvas.Length1 ==>
      canvas[r, c] == CellAt(tiles[..k], annotated, r, c)
    modifies canvas
    ensures fits <==> Fits(annotated, tiles[k], canvas.Length1, canvas.Length0)
    ensures fits ==> forall r, c :: 0 <= r < canvas.Length0 && 0 <= c < canvas.Length1 ==>
      canvas[r, c] == CellAt(tiles[..k + 1], annotated, r, c)
  {
    var t := tiles[k];
    if t.name in annotated {
      var tile := annotated[t.name];
      var rows := SliceLen(canvas.Length0, t.yStart, t.yStart + Height(tile));
      var cols := SliceLen(canvas.Length1, t.xStart, t.xStart + Width(tile));
      if !SideFits(Height(tile), rows) || !SideFits(Width(tile), cols) {
        return false;
      }
      if t.yStart + Height(tile) <= canvas.Length0 && t.xStart + Width(tile) <= canvas.Length1 {
        Paste(canvas, tile, t.xStart, t.yStart);
      } else {
        // broadcast into an empty slice: the tile covers no cell of the canvas
        assert t.yStart >= canvas.Length0 || t.xStart >= canvas.Length1;
      }
    }
    forall r, c | 0 <= r < canvas.Length0 && 0 <= c < canvas.Length1
      ensures canvas[r, c] == CellAt(tiles[..k + 1], annotated, r, c)
    {
      CellAtStep(tiles, annotated, k, r, c);
    }
    return true;
  }

  /** The loop of `restitch_tiles` over a black canvas: `ok` is false when
      some tile's assignment would raise, and otherwise every cell holds what
      the last tile painting it put there. */
  method PasteAll(canvas: array2<Pixel>, tiles: seq<TileInfo>, annotated: map<string, Raster>) returns (ok: bool)
    requires AllRectangular(annotated)
    requires forall r, c :: 0 <= r < canvas.Length0 && 0 <= c < canvas.Length1 ==> canvas[r, c] == Black
    modifies canvas
    ensures ok <==> forall l :: 0 <= l < |tiles| ==> Fits(annotated, tiles[l], canvas.Length1, canvas.Length0)
    ensures ok ==> forall r, c :: 0 <= r < canvas.Length0 && 0 <= c < canvas.Length1 ==>
      canvas[r, c] == CellAt(tiles, annotated, r, c)
  {
    assert tiles[..0] == [];
    for k := 0 to |tiles|
      invariant forall l :: 0 <= l < k ==> Fits(annotated, tiles[l], canvas.Length1, canvas.Length0)
      invariant forall r, c :: 0 <= r < canvas.Length0 && 0 <= c < canvas.Length1 ==>
        canvas[r, c] == CellAt(tiles[..k], annotated, r, c)
    {
      ok := PasteRow(canvas, tiles, annotated, k);
      if !ok {
        return;
      }
    }
    assert tiles[..|tiles|] == tiles;
    return true;
  }

  /** `restitch_tiles` over the rows read back from the metadata table and
      the annotation directory; `None` stands for the exception raised on an
      empty table or a tile whose assignment raises. */
  method Restitch(tiles: seq<TileInfo>, annotated: map<string, Raster>) returns (canvas: Option<array2<Pixel>>)
    requires AllRectangular(annotated)
    ensures canvas.Some? <==> Stitchable(tiles, annotated)
    ensures canvas.Some? ==>
      && fresh(canvas.value)
      && canvas.value.Length0 == CanvasHeight(tiles) && canvas.value.Length1 == CanvasWidth(tiles)
      && forall r, c :: 0 <= r < canvas.value.Length0 && 0 <= c < canvas.value.Length1 ==>
           canvas.value[r, c] == CellAt(tiles, annotated, r, c)
  {
    if tiles == [] {
      return None;
    }
    var a := new Pixel[CanvasHeight(tiles), CanvasWidth(tiles)]((r, c) => Black);
    var ok := PasteAll(a, tiles, annotated);
    if !ok {
      return None;
    }
    return Some(a);
  }

  // ---------------------------------------------------------------------------
  // Stitching the tiles the tiler wrote

  lemma LargestIs(s: seq<nat>, v: nat)
    requires v in s && forall k :: 0 <= k < |s| ==> s[k] <= v
    ensures Largest(s) == v
  {
  }

  /** How far the canvas reaches along a side of `n` pixels tiled by 512:
      the last tile origin plus the widest tile. */
  function Extent(n: nat): nat
    requires n > 0
  {
    (Steps(n) - 1) * TileSize + Min(n, TileSize)
  }

  lemma StepsBounds(n: nat)
    requires n > 0
    ensures Steps(n) >= 1 && (Steps(n) - 1) * TileSize < n <= Steps(n) * TileSize
  {
    var s := Steps(n);
    assert n + TileSize - 1 == TileSize * s + (n + TileSize - 1) % TileSize;
  }

  /** The canvas side is never shorter than the image side, and is equal to
      it exactly when the side is at most 512 or a multiple of 512;
      otherwise the last tile's clipped width is replaced by a full 512. */
  lemma ExtentMeaning(n: nat)
    requires n > 0
    ensures Extent(n) >= n
    ensures Extent(n) == n <==> n <= TileSize || n % TileSize == 0
  {
    StepsBounds(n);
    var s := Steps(n);
    if n > TileSize {
      assert s >= 2;
      assert Extent(n) == s * TileSize;
      if n % TileSize == 0 {
        assert n == TileSize * (n / TileSize);
        assert (n + TileSize - 1) / TileSize == n / TileSize;
      }
    } else {
      assert s == 1;
    }
  }

  /** A multiple of 512 below `n` is at most the last origin. */
  lemma OriginBound(n: nat, x: nat)
    requires x < n && x % TileSize == 0
    ensures x <= (Steps(n) - 1) * TileSize
  {
    StepsBounds(n);
    var q := x / TileSize;
    assert x == q * TileSize;
    assert q * TileSize < Steps(n) * TileSize;
  }

  lemma GridIndex(w: nat, h: nat, t: TileInfo) returns (k: nat)
    requires t in TileGrid(w, h)
    ensures k < |TileGrid(w, h)| && TileGrid(w, h)[k] == t
  {
    var g := TileGrid(w, h);
    k :| 0 <= k < |g| && g[k] == t;
  }

  /** Along the x axis the grid's largest origin is the last multiple of 512
      below the width, and its widest tile is min(w, 512) wide. */
  lemma GridColumnsX(w: nat, h: nat)
    requires w > 0 && h > 0
    ensures TileGrid(w, h) != []
    ensures Largest(Column(TileGrid(w, h), XStartCol)) == (Steps(w) - 1) * TileSize
    ensures Largest(Column(TileGrid(w, h), WidthCol)) == Min(w, TileSize)
  {
    var g := TileGrid(w, h);
    StepsBounds(w);
    var lastX := (Steps(w) - 1) * TileSize;
    var corner, right := TileAt(w, h, 0, 0), TileAt(w, h, lastX, 0);
    GridMembers(w, h, corner);
    GridMembers(w, h, right);
    var kc := GridIndex(w, h, corner);
    var kr := GridIndex(w, h, right);
    forall k | 0 <= k < |g| ensures g[k].xStart <= lastX && g[k].width <= Min(w, TileSize) {
      GridMembers(w, h, g[k]);
      OriginBound(w, g[k].xStart);
    }
    assert Column(g, XStartCol)[kr] == lastX;
    LargestIs(Column(g, XStartCol), lastX);
    assert Column(g, WidthCol)[kc] == Min(w, TileSize);
    LargestIs(Column(g, WidthCol), Min(w, TileSize));
  }

  /** Along the y axis likewise. */
  lemma GridColumnsY(w: nat, h: nat)
    requires w > 0 && h > 0
    ensures TileGrid(w, h) != []
    ensures Largest(Column(TileGrid(w, h), YStartCol)) == (Steps(h) - 1) * TileSize
    ensures Largest(Column(TileGrid(w, h), HeightCol)) == Min(h, TileSize)
  {
    var g := TileGrid(w, h);
    StepsBounds(h);
    var lastY := (Steps(h) - 1) * TileSize;
    var corner, bottom := TileAt(w, h, 0, 0), TileAt(w, h, 0, lastY);
    GridMembers(w, h, corner);
    GridMembers(w, h, bottom);
    var kc := GridIndex(w, h, corner);
    var kb := GridIndex(w, h, bottom);
    forall k | 0 <= k < |g| ensures g[k].yStart <= lastY && g[k].height <= Min(h, TileSize) {
      GridMembers(w, h, g[k]);
      OriginBound(h, g[k].yStart);
    }
    assert Column(g, YStartCol)[kb] == lastY;
    LargestIs(Column(g, YStartCol), lastY);
    assert Column(g, HeightCol)[kc] == Min(h, TileSize);
    LargestIs(Column(g, HeightCol), Min(h, TileSize));
  }

  /** The canvas for a tiled `w` x `h` image measures Extent(w) x Extent(h):
      at least the image, and exactly the image when each side is at most
      512 or a multiple of 512. */
  lemma GridCanvas(w: nat, h: nat)
    requires w > 0 && h > 0
    ensures TileGrid(w, h) != []
    ensures CanvasWidth(TileGrid(w, h)) == Extent(w) && CanvasHeight(TileGrid(w, h)) == Extent(h)
    ensures CanvasWidth(TileGrid(w, h)) >= w && CanvasHeight(TileGrid(w, h)) >= h
    ensures CanvasWidth(TileGrid(w, h)) == w <==> w <= TileSize || w % TileSize == 0
    ensures CanvasHeight(TileGrid(w, h)) == h <==> h <= TileSize || h % TileSize == 0
  {
    GridColumnsX(w, h);
    GridColumnsY(w, h);
    ExtentMeaning(w);
    ExtentMeaning(h);
  }

  /** The tile files the tiler wrote for its grid: each tile name holds that
      tile's crop. */
  lemma GridFiles(img: Raster, k: nat)
    requires Rectangular(img)
    requires k < |TileGrid(Width(img), Height(img))|
    ensures var g := TileGrid(Width(img), Height(img));
            g[k].name in TiledFiles(img) && HasShape(TiledFiles(img)[g[k].name], g[k].height, g[k].width)
            && InsideImage(img, g[k]) && forall r, c :: 0 <= r < g[k].height && 0 <= c < g[k].width ==>
                 TiledFiles(img)[g[k].name][r][c] == img[g[k].yStart + r][g[k].xStart + c]
  {
    var w, h := Width(img), Height(img);
    var g := TileGrid(w, h);
    GridInside(img);
    forall i, j | 0 <= i < j < |g| ensures g[i].name != g[j].name {
      GridNamesDistinct(w, h, i, j);
    }
    TileFilesLookup(img, g, k);
  }

  lemma GridFilesRectangular(img: Raster)
    requires Rectangular(img)
    ensures AllRectangular(TiledFiles(img))
  {
    var w, h := Width(img), Height(img);
    var g := TileGrid(w, h);
    GridInside(img);
    var files := TiledFiles(img);
    forall n | n in files ensures Rectangular(files[n]) {
      TileFilesKeys(img, g, n);
      var t :| t in g && t.name == n;
      var k := GridIndex(w, h, t);
      GridFiles(img, k);
      GridMembers(w, h, t);
    }
  }

  /** On the tiler's own output a grid tile's file paints exactly the cells
      the tile covers. */
  lemma GridPaints(img: Raster, k: nat, r: int, c: int)
    requires Rectangular(img)
    requires k < |TileGrid(Width(img), Height(img))|
    ensures PaintsAt(TileGrid(Width(img), Height(img)), TiledFiles(img), k, r, c) <==> Covers(TileGrid(Width(img), Height(img))[k], c, r)
  {
    var g := TileGrid(Width(img), Height(img));
    GridFiles(img, k);
    GridMembers(Width(img), Height(img), g[k]);
    var tile := TiledFiles(img)[g[k].name];
    assert Height(tile) == g[k].height;
    assert |tile[0]| == g[k].width;
  }

  /** Stitching the tiler's own tiles gives the image back in the top-left
      corner of the canvas, and black everywhere else. */
  lemma StitchRoundTrip(img: Raster, r: nat, c: nat)
    requires Rectangular(img) && Width(img) > 0 && Height(img) > 0
    ensures AllRectangular(TiledFiles(img)) && Stitchable(TileGrid(Width(img), Height(img)), TiledFiles(img))
    ensures AllRectangular(TiledFiles(img)) &&
            CellAt(TileGrid(Width(img), Height(img)), TiledFiles(img), r, c)
            == if r < Height(img) && c < Width(img) then img[r][c] else Black
  {
    var w, h := Width(img), Height(img);
    var g := TileGrid(w, h);
    var files := TiledFiles(img);
    GridFilesRectangular(img);
    GridTilesFit(img);
    if r < h && c < w {
      StitchedInside(img, r, c);
    } else {
      forall l | 0 <= l < |g| ensures !PaintsAt(g, files, l, r, c) {
        GridPaints(img, l, r, c);
        GridMembers(w, h, g[l]);
      }
      CellUncovered(g, files, r, c);
    }
  }

  lemma GridTilesFit(img: Raster)
    requires Rectangular(img) && Width(img) > 0 && Height(img) > 0
    ensures AllRectangular(TiledFiles(img)) && Stitchable(TileGrid(Width(img), Height(img)), TiledFiles(img))
  {
    var w, h := Width(img), Height(img);
    var g := TileGrid(w, h);
    var files := TiledFiles(img);
    GridFilesRectangular(img);
    GridCanvas(w, h);
    forall k | 0 <= k < |g| ensures Fits(files, g[k], CanvasWidth(g), CanvasHeight(g)) {
      GridFiles(img, k);
      GridMembers(w, h, g[k]);
      var tile := files[g[k].name];
      assert Height(tile) == g[k].height && |tile[0]| == g[k].width;
    }
  }

  /** The grid tile holding a pixel of the image paints it, and no later
      grid tile does. */
  lemma LastPainter(img: Raster, r: nat, c: nat) returns (k: nat)
    requires Rectangular(img) && r < Height(img) && c < Width(img)
    ensures k < |TileGrid(Width(img), Height(img))|
    ensures PaintsAt(TileGrid(Width(img), Height(img)), TiledFiles(img), k, r, c)
    ensures forall l :: k < l < |TileGrid(Width(img), Height(img))| ==>
              !PaintsAt(TileGrid(Width(img), Height(img)), TiledFiles(img), l, r, c)
  {
    var w, h := Width(img), Height(img);
    var g := TileGrid(w, h);
    GridCovers(w, h, c, r);
    var t := TileAt(w, h, (c / TileSize) * TileSize, (r / TileSize) * TileSize);
    k := GridIndex(w, h, t);
    GridPaints(img, k, r, c);
    forall l | k < l < |g| ensures !PaintsAt(g, TiledFiles(img), l, r, c) {
      GridPaints(img, l, r, c);
      GridDisjoint(w, h, k, l, c, r);
    }
  }

  /** A pixel of the image is painted last by the grid tile whose crop holds
      that very pixel. */
  lemma StitchedInside(img: Raster, r: nat, c: nat)
    requires Rectangular(img) && r < Height(img) && c < Width(img)
    ensures AllRectangular(TiledFiles(img))
    ensures CellAt(TileGrid(Width(img), Height(img)), TiledFiles(img), r, c) == img[r][c]
  {
    var g := TileGrid(Width(img), Height(img));
    var files := TiledFiles(img);
    GridFilesRectangular(img);
    var k := LastPainter(img, r, c);
    CellFromLast(g, files, r, c, k);
    GridFiles(img, k);
    assert TilePixel(g, files, k, r, c) == files[g[k].name][r - g[k].yStart][c - g[k].xStart];
  }

  /** When both sides are at most 512 or multiples of 512, the canvas is the
      image itself, cell for cell. */
  lemma StitchRestoresImage(img: Raster)
    requires Rectangular(img) && Width(img) > 0 && Height(img) > 0
    requires Width(img) <= TileSize || Width(img) % TileSize == 0
    requires Height(img) <= TileSize || Height(img) % TileSize == 0
    ensures AllRectangular(TiledFiles(img)) && Stitchable(TileGrid(Width(img), Height(img)), TiledFiles(img))
    ensures CanvasWidth(TileGrid(Width(img), Height(img))) == Width(img)
    ensures CanvasHeight(TileGrid(Width(img), Height(img))) == Height(img)
    ensures AllRectangular(TiledFiles(img)) &&
            forall r, c :: 0 <= r < Height(img) && 0 <= c < Width(img) ==>
              CellAt(TileGrid(Width(img), Height(img)), TiledFiles(img), r, c) == img[r][c]
  {
    GridCanvas(Width(img), Height(img));
    GridTilesFit(img);
    forall r, c | 0 <= r < Height(img) && 0 <= c < Width(img)
      ensures CellAt(TileGrid(Width(img), Height(img)), TiledFiles(img), r, c) == img[r][c]
    {
      StitchedInside(img, r, c);
    }
  }

  /** Two tile directories holding the same names with the same sizes. */
  predicate SameShapes(a: map<string, Raster>, b: map<string, Raster>)
  {
    a.Keys == b.Keys && forall n :: n in a ==> Height(a[n]) == Height(b[n]) && Width(a[n]) == Width(b[n])
  }

  /** Whether the stitch succeeds, and which tile paints which cell, depend
      only on the names and sizes of the tile files, not on their pixels. */
  lemma ShapesDecide(tiles: seq<TileInfo>, a: map<string, Raster>, b: map<string, Raster>)
    requires SameShapes(a, b)
    ensures Stitchable(tiles, a) <==> Stitchable(tiles, b)
    ensures forall k, r, c :: PaintsAt(tiles, a, k, r, c) <==> PaintsAt(tiles, b, k, r, c)
  {
    if tiles != [] {
      var w, h := CanvasWidth(tiles), CanvasHeight(tiles);
      assert forall k :: 0 <= k < |tiles| ==> (Fits(a, tiles[k], w, h) <==> Fits(b, tiles[k], w, h));
    }
  }
}
