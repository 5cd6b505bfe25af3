/** `process_image`: reads the GPS position, then runs tiling, detection,
    classification, stitching and the report over cleared scratch
    directories, and gathers what the API returns for one image. */
module Pipeline {
  import opened Text
  import opened Raster
  import opened Scratch
  import opened Tiler
  import opened Detection
  import opened Classification
  import opened Stitcher
  import opened Report
  import opened Gps

  /** What the pipeline consults but does not compute: the detector, the
      colour statistics of a crop, the classifier, the drawing rasteriser,
      and the directory listing (`sorted(os.listdir(...))`). */
  datatype Models = Models(detect: Raster -> seq<Box>, stats: Raster -> Averages, classify: Raster -> Prediction,
                           ink: (Mark, nat, nat, Pixel) -> Pixel, listDir: set<string> -> seq<string>)

  /** `listing` names every file of a directory holding `names` once. */
  ghost predicate Enumerates(listing: seq<string>, names: set<string>)
  {
    && |listing| == |names|
    && (forall n :: n in listing <==> n in names)
    && (forall i, j :: 0 <= i < j < |listing| ==> listing[i] != listing[j])
  }

  ghost predicate ListsDirectories(m: Models)
  {
    forall names :: Enumerates(m.listDir(names), names)
  }

  /** Why processing one image raised. */
  datatype Fault = Undecodable | GpsUnreadable(error: GpsError) | ProcessingFailed

  /** What `process_image` returns on success (`success` is True), with the
      two files it writes: the stitched canvas and the workbook. */
  datatype ImageReport = ImageReport(annotatedImage: string, excelReport: string, summary: ReportSummary,
                                     detailedResults: seq<PanelResult>, position: Option<(real, real)>,
                                     canvas: Raster, workbook: Workbook)

  datatype Outcome = Done(report: ImageReport) | Raised(fault: Fault)

  /** `os.path.splitext(p)[0]` for '/'-separated paths: the last extension
      is dropped, unless the final component is only dots before it. */
  function SplitextRoot(p: string): string
  {
    var sep, dot := LastIndex(p, '/'), LastIndex(p, '.');
    if dot > sep && exists k :: sep < k < dot && p[k] != '.' then p[..dot] else p
  }

  /** `os.path.basename(p)` */
  function Basename(p: string): string
  {
    p[LastIndex(p, '/') + 1..]
  }

  /** An upload name with a stem and one extension loses exactly the
      extension. */
  lemma SplitextDropsExtension(stem: string, ext: string)
    requires '/' !in stem && '/' !in ext && '.' !in ext
    requires exists k :: 0 <= k < |stem| && stem[k] != '.'
    ensures SplitextRoot(stem + "." + ext) == stem
  {
    var p := stem + "." + ext;
    LastIndexOfSplit(stem, '.', ext);
    assert p == stem + ['.'] + ext;
    assert LastIndex(p, '/') == -1 by {
      NoSlash(p);
    }
    var k :| 0 <= k < |stem| && stem[k] != '.';
    assert p[k] == stem[k];
    assert p[..|stem|] == stem;
  }

  lemma {:induction false} NoSlash(s: string)
    requires '/' !in s
    ensures LastIndex(s, '/') == -1
    decreases |s|
  {
    if s != [] {
      assert s[|s| - 1] in s;
      assert forall c :: c in s[..|s| - 1] ==> c in s;
      NoSlash(s[..|s| - 1]);
    }
  }

  // ---------------------------------------------------------------------------
  // The stages, run one after the other over cleared directories

  /** The directories after `run_yolo_and_store_boxes`, the tile directory
      holding what the tiler wrote. */
  function DetectStage(img: Raster, m: Models): (d: Detected)
    requires Rectangular(img)
    ensures AllRectangular(d.annotated)
  {
    GridFilesRectangular(img);
    var files := TiledFiles(img);
    StagedRectangular(m.listDir(files.Keys), files, m.detect, m.stats);
    DetectTiles(Empty(), m.listDir(files.Keys), files, m.detect, m.stats)
  }

  /** The directories and results after `classify_detected_panels`. */
  function ClassifyStage(img: Raster, m: Models): (c: Classified)
    requires Rectangular(img) && ListsDirectories(m)
    ensures AllRectangular(c.annotated)
  {
    var d := DetectStage(img, m);
    assert Enumerates(m.listDir(d.boxes.Keys), d.boxes.Keys);
    ClassifyFiles(Classified(d.annotated, [], false), m.listDir(d.boxes.Keys), d.boxes, m.classify, m.ink)
  }

  /** The canvas `restitch_tiles` writes. */
  function StitchedImage(tiles: seq<TileInfo>, annotated: map<string, Raster>): (canvas: Raster)
    requires AllRectangular(annotated) && tiles != []
    ensures HasShape(canvas, CanvasHeight(tiles), CanvasWidth(tiles))
  {
    seq(CanvasHeight(tiles), r requires 0 <= r < CanvasHeight(tiles) =>
      seq(CanvasWidth(tiles), c requires 0 <= c < CanvasWidth(tiles) => CellAt(tiles, annotated, r, c)))
  }

  /** `process_image` for a decoded image: `Raised(ProcessingFailed)` is the
      HTTP 500 raised from inside its `try`; a GPS error is raised before it. */
  function RunPipeline(img: Raster, exif: Option<map<string, ExifEntry>>, name: string, m: Models, timestamp: string): Outcome
    requires Rectangular(img) && ListsDirectories(m)
  {
    var position := GetLatLon(exif);
    if position.Failure? then Raised(GpsUnreadable(position.error))
    else
      var c := ClassifyStage(img, m);
      var meta := ParseMetadata(MetadataTable(TileGrid(Width(img), Height(img))));
      if c.failed || meta.None? || !Stitchable(meta.value, c.annotated) then Raised(ProcessingFailed)
      else Done(Assemble(c, meta.value, position.value, name, timestamp))
  }

  /** The dictionary `process_image` returns once every stage has run. */
  function Assemble(c: Classified, tiles: seq<TileInfo>, position: Option<(real, real)>, name: string, timestamp: string)
    : ImageReport
    requires AllRectangular(c.annotated) && tiles != []
  {
    var base := SplitextRoot(name);
    var imagePath, excelPath := "outputs/" + base + "_annotated.jpg", "outputs/" + base + "_report.xlsx";
    ImageReport("/outputs/" + Basename(imagePath), "/outputs/" + Basename(excelPath),
                ReportSummary(|c.results|, ClassCounts(c.results), excelPath), c.results, position,
                StitchedImage(tiles, c.annotated),
                Workbook(Summary(|c.results|, ClassCounts(c.results), timestamp), c.results))
  }

  /** Tiling, detection and classification over fresh directories: the
      classification stage's directories and results, and the metadata
      table the tiler wrote. */
  method RunStages(img: Raster, m: Models) returns (annotated: map<string, Raster>, results: seq<PanelResult>,
                                                    failed: bool, table: seq<seq<string>>)
    requires Rectangular(img) && ListsDirectories(m)
    ensures Classified(annotated, results, failed) == ClassifyStage(img, m)
    ensures table == MetadataTable(TileGrid(Width(img), Height(img)))
  {
    var ws := new Workspace();
    var tiles, files, table' := TileImage(img);
    ws.tileDir, ws.metadata := files, table';
    GridFilesRectangular(img);
    assert ws.tileDir == TiledFiles(img);
    var records := DetectAndStoreBoxes(ws, m.listDir(ws.tileDir.Keys), m.detect, m.stats);
    assert Detected(ws.boxesDir, ws.annotatedDir, records) == DetectStage(img, m);
    assert Enumerates(m.listDir(ws.boxesDir.Keys), ws.boxesDir.Keys);
    results, failed := ClassifyDetectedPanels(ws, m.listDir(ws.boxesDir.Keys), m.classify, m.ink);
    annotated, table := ws.annotatedDir, ws.metadata;
  }

  /** `restitch_tiles` followed by reading the written canvas back. */
  method StitchCanvas(tiles: seq<TileInfo>, annotated: map<string, Raster>) returns (pixels: Option<Raster>)
    requires AllRectangular(annotated)
    ensures pixels.Some? <==> Stitchable(tiles, annotated)
    ensures pixels.Some? ==> tiles != [] && pixels.value == StitchedImage(tiles, annotated)
  {
    var canvas := Restitch(tiles, annotated);
    if canvas.None? {
      return None;
    }
    var a := canvas.value;
    var rows := seq(a.Length0, r requires 0 <= r < a.Length0 reads a =>
                  seq(a.Length1, c requires 0 <= c < a.Length1 reads a => a[r, c]));
    var stitched := StitchedImage(tiles, annotated);
    assert |rows| == |stitched|;
    forall r | 0 <= r < |rows|
      ensures rows[r] == stitched[r]
    {
      assert |rows[r]| == |stitched[r]|;
      assert forall c :: 0 <= c < |rows[r]| ==> rows[r][c] == a[r, c] == stitched[r][c];
    }
    pixels := Some(rows);
  }

  /** `process_image`, stage by stage. */
  method ProcessImage(img: Raster, exif: Option<map<string, ExifEntry>>, name: string, m: Models, timestamp: string)
    returns (outcome: Outcome)
    requires Rectangular(img) && ListsDirectories(m)
    ensures outcome == RunPipeline(img, exif, name, m, timestamp)
  {
    var position := GetLatLon(exif);
    if position.Failure? {
      return Raised(GpsUnreadable(position.error));
    }
    var base := SplitextRoot(name);
    var imagePath, excelPath := "outputs/" + base + "_annotated.jpg", "outputs/" + base + "_report.xlsx";
    var annotated, results, failed, table := RunStages(img, m);
    if failed {
      return Raised(ProcessingFailed);
    }
    var meta := ParseMetadata(table);
    if meta.None? {
      return Raised(ProcessingFailed);
    }
    var pixels := StitchCanvas(meta.value, annotated);
    if pixels.None? {
      return Raised(ProcessingFailed);
    }
    var book, report := GenerateReport(results, excelPath, timestamp);
    outcome := Done(ImageReport("/outputs/" + Basename(imagePath), "/outputs/" + Basename(excelPath),
                                report, results, position.value, pixels.value, book));
  }

  // ---------------------------------------------------------------------------
  // What the stages guarantee one another

  /** Every file the tiler writes carries a tile name. */
  lemma TiledName(img: Raster, f: string) returns (x: nat, y: nat)
    requires Rectangular(img) && f in TiledFiles(img)
    ensures f == TileName(x, y)
  {
    GridInside(img);
    TileFilesKeys(img, TileGrid(Width(img), Height(img)), f);
    var t :| t in TileGrid(Width(img), Height(img)) && t.name == f;
    GridMembers(Width(img), Height(img), t);
    x, y := t.xStart, t.yStart;
  }

  /** Detection stages every tile the tiler wrote, unchanged. */
  lemma StagedTiles(img: Raster, m: Models)
    requires Rectangular(img) && ListsDirectories(m)
    ensures DetectStage(img, m).annotated == TiledFiles(img)
  {
    GridFilesRectangular(img);
    var files := TiledFiles(img);
    var listing := m.listDir(files.Keys);
    var staged := DetectStage(img, m).annotated;
    assert Enumerates(listing, files.Keys);
    forall f | f in files ensures f in staged && staged[f] == files[f] {
      var x, y := TiledName(img, f);
      TileBoxesFile(x, y);
      StagedForAnnotation(listing, files, m.detect, m.stats, f);
    }
    forall f | f in staged ensures f in files {
      StagedForAnnotation(listing, files, m.detect, m.stats, f);
    }
  }

  /** Every boxes file is named after a tile the tiler wrote, and leads back
      to it. */
  lemma BoxesOfTiles(img: Raster, m: Models, key: string)
    requires Rectangular(img) && key in DetectStage(img, m).boxes
    ensures EndsWith(key, ".json") && TileNameOf(key) in TiledFiles(img) && BoxesFileName(TileNameOf(key)) == key
  {
    GridFilesRectangular(img);
    var files := TiledFiles(img);
    var listing := m.listDir(files.Keys);
    BoxesKeys(listing, files, m.detect, m.stats, key);
    var i :| 0 <= i < |listing| && Readable(files, listing[i]) && BoxesFileName(listing[i]) == key;
    var x, y := TiledName(img, listing[i]);
    TileBoxesFile(x, y);
  }

  /** The boxes files classification lists are those detection wrote, each
      for a different staged tile. */
  lemma StagedListing(img: Raster, m: Models)
    requires Rectangular(img) && ListsDirectories(m)
    ensures var d := DetectStage(img, m);
            var listing := m.listDir(d.boxes.Keys);
            && d.annotated == TiledFiles(img)
            && (forall n :: n in listing ==> n in d.boxes)
            && (forall j :: 0 <= j < |listing| && EndsWith(listing[j], ".json") ==> TileNameOf(listing[j]) in d.annotated)
            && (forall j, l :: 0 <= j < l < |listing| && EndsWith(listing[j], ".json") && EndsWith(listing[l], ".json")
                  ==> TileNameOf(listing[j]) != TileNameOf(listing[l]))
  {
    var d := DetectStage(img, m);
    var listing := m.listDir(d.boxes.Keys);
    assert Enumerates(listing, d.boxes.Keys);
    StagedTiles(img, m);
    forall j | 0 <= j < |listing| && EndsWith(listing[j], ".json") ensures TileNameOf(listing[j]) in d.annotated {
      BoxesOfTiles(img, m, listing[j]);
    }
    forall j, l | 0 <= j < l < |listing| && EndsWith(listing[j], ".json") && EndsWith(listing[l], ".json")
      ensures TileNameOf(listing[j]) != TileNameOf(listing[l])
    {
      BoxesOfTiles(img, m, listing[j]);
      BoxesOfTiles(img, m, listing[l]);
    }
  }

  /** Over what detection left behind, classification never raises, keeps
      every tile's size, gives every panel its own id and labels each with
      one of the four classes. */
  lemma ClassificationSucceeds(img: Raster, m: Models)
    requires Rectangular(img) && ListsDirectories(m)
    ensures var c := ClassifyStage(img, m);
            && !c.failed
            && SameShapes(c.annotated, TiledFiles(img))
            && IdsDistinct(c.results)
            && KnownLabels(c.results)
  {
    var d := DetectStage(img, m);
    var listing := m.listDir(d.boxes.Keys);
    StagedListing(img, m);
    var c := ClassifyFiles(Classified(d.annotated, [], false), listing, d.boxes, m.classify, m.ink);
    FailsIffMissing(d.annotated, listing, d.boxes, m.classify, m.ink);
    AnnotatedShapes(d.annotated, listing, d.boxes, m.classify, m.ink);
    forall n | n in c.annotated ensures Height(c.annotated[n]) == Height(d.annotated[n]) && Width(c.annotated[n]) == Width(d.annotated[n]) {
      if Height(d.annotated[n]) > 0 {
        assert |c.annotated[n][0]| == Width(d.annotated[n]);
      }
    }
    PanelIdsUnique(d.annotated, listing, d.boxes, m.classify, m.ink);
    forall k | 0 <= k < |c.results| ensures c.results[k].classification in ClassNames {
      ResultsOrigin(d.annotated, listing, d.boxes, m.classify, m.ink, k);
    }
  }

  // ---------------------------------------------------------------------------
  // The whole pipeline

  /** A decoded image whose position reads (or is absent) gets a report
      exactly when it has at least one pixel; an empty image yields no tile,
      and the stitch then raises. */
  lemma PipelineOutcome(img: Raster, exif: Option<map<string, ExifEntry>>, name: string, m: Models, timestamp: string)
    requires Rectangular(img) && ListsDirectories(m) && GetLatLon(exif).Success?
    ensures RunPipeline(img, exif, name, m, timestamp).Done? <==> Width(img) > 0 && Height(img) > 0
    ensures RunPipeline(img, exif, name, m, timestamp).Raised? ==>
              RunPipeline(img, exif, name, m, timestamp).fault == ProcessingFailed
  {
    if Width(img) > 0 && Height(img) > 0 {
      Completes(img, exif, name, m, timestamp);
    } else {
      EmptyImageFails(img, exif, name, m, timestamp);
    }
  }

  /** An image without pixels has no tiles, so the stitch finds no canvas
      size and raises. */
  lemma EmptyImageFails(img: Raster, exif: Option<map<string, ExifEntry>>, name: string, m: Models, timestamp: string)
    requires Rectangular(img) && ListsDirectories(m) && GetLatLon(exif).Success?
    requires Width(img) == 0 || Height(img) == 0
    ensures RunPipeline(img, exif, name, m, timestamp) == Raised(ProcessingFailed)
  {
    GridSize(Width(img), Height(img));
    MetadataRoundTrip(TileGrid(Width(img), Height(img)));
  }

  /** A non-empty image whose position reads runs to the end: its report is
      assembled from the classification stage over the whole tile grid. */
  lemma Completes(img: Raster, exif: Option<map<string, ExifEntry>>, name: string, m: Models, timestamp: string)
    requires Rectangular(img) && ListsDirectories(m) && GetLatLon(exif).Success?
    requires Width(img) > 0 && Height(img) > 0
    ensures TileGrid(Width(img), Height(img)) != []
    ensures RunPipeline(img, exif, name, m, timestamp)
            == Done(Assemble(ClassifyStage(img, m), TileGrid(Width(img), Height(img)), GetLatLon(exif).value, name, timestamp))
  {
    MetadataRoundTrip(TileGrid(Width(img), Height(img)));
    ClassificationSucceeds(img, m);
    CanvasBorder(img, m);
  }

  /** The URL of a file written under `outputs/` is its name under `/outputs/`. */
  lemma OutputName(base: string, suffix: string)
    requires '/' !in base && '/' !in suffix
    ensures Basename("outputs/" + base + suffix) == base + suffix
  {
    LastIndexOfSplit("outputs", '/', base + suffix);
    assert "outputs/" + base + suffix == "outputs" + ['/'] + (base + suffix);
  }

  /** The stitched canvas of a non-empty image is whole tiles covering it,
      and black beyond its edges, whatever was drawn on the tiles. */
  lemma CanvasBorder(img: Raster, m: Models)
    requires Rectangular(img) && ListsDirectories(m) && Width(img) > 0 && Height(img) > 0
    ensures var g, annotated := TileGrid(Width(img), Height(img)), ClassifyStage(img, m).annotated;
      && g != []
      && Stitchable(g, annotated)
      && HasShape(StitchedImage(g, annotated), Extent(Height(img)), Extent(Width(img)))
      && forall r, c :: 0 <= r < Extent(Height(img)) && 0 <= c < Extent(Width(img)) && (r >= Height(img) || c >= Width(img))
           ==> StitchedImage(g, annotated)[r][c] == Black
  {
    var w, h := Width(img), Height(img);
    var g := TileGrid(w, h);
    var annotated := ClassifyStage(img, m).annotated;
    ClassificationSucceeds(img, m);
    GridCanvas(w, h);
    GridTilesFit(img);
    ShapesDecide(g, annotated, TiledFiles(img));
    forall r, col | 0 <= r < Extent(h) && 0 <= col < Extent(w) && (r >= h || col >= w)
      ensures StitchedImage(g, annotated)[r][col] == Black
    {
      forall k | 0 <= k < |g| ensures !PaintsAt(g, annotated, k, r, col) {
        GridPaints(img, k, r, col);
        GridMembers(w, h, g[k]);
      }
      CellUncovered(g, annotated, r, col);
    }
  }

  lemma OutputNames(base: string)
    requires '/' !in base
    ensures Basename("outputs/" + base + "_annotated.jpg") == base + "_annotated.jpg"
    ensures Basename("outputs/" + base + "_report.xlsx") == base + "_report.xlsx"
  {
    OutputName(base, "_annotated.jpg");
    OutputName(base, "_report.xlsx");
  }

  /** The canvas of a report is whole tiles covering the image, black
      beyond the image's edges. */
  lemma PipelineCanvas(img: Raster, exif: Option<map<string, ExifEntry>>, name: string, m: Models, timestamp: string)
    requires Rectangular(img) && ListsDirectories(m) && GetLatLon(exif).Success?
    requires Width(img) > 0 && Height(img) > 0
    ensures var o := RunPipeline(img, exif, name, m, timestamp);
      && o.Done?
      && HasShape(o.report.canvas, Extent(Height(img)), Extent(Width(img)))
      && forall r, c :: 0 <= r < Extent(Height(img)) && 0 <= c < Extent(Width(img)) && (r >= Height(img) || c >= Width(img))
           ==> o.report.canvas[r][c] == Black
  {
    var g, c := TileGrid(Width(img), Height(img)), ClassifyStage(img, m);
    Completes(img, exif, name, m, timestamp);
    CanvasBorder(img, m);
    var a := Assemble(c, g, GetLatLon(exif).value, name, timestamp);
    assert RunPipeline(img, exif, name, m, timestamp).report == a;
    assert a.canvas == StitchedImage(g, c.annotated);
  }

  /** What else a report holds: the position read, the panels with distinct
      ids, and class counts adding up to the panel total. */
  lemma PipelineReport(img: Raster, exif: Option<map<string, ExifEntry>>, name: string, m: Models, timestamp: string)
    requires Rectangular(img) && ListsDirectories(m) && GetLatLon(exif).Success?
    requires Width(img) > 0 && Height(img) > 0
    ensures var o := RunPipeline(img, exif, name, m, timestamp);
      && o.Done?
      && o.report.position == GetLatLon(exif).value
      && IdsDistinct(o.report.detailedResults)
      && o.report.summary.classDistribution == ClassCounts(o.report.detailedResults)
      && o.report.summary.totalPanels == |o.report.detailedResults| == CountsTotal(ClassCounts(o.report.detailedResults))
  {
    var g, c := TileGrid(Width(img), Height(img)), ClassifyStage(img, m);
    Completes(img, exif, name, m, timestamp);
    ClassificationSucceeds(img, m);
    ReportAddsUp(c.results);
    assert RunPipeline(img, exif, name, m, timestamp).report == Assemble(c, g, GetLatLon(exif).value, name, timestamp);
  }

  /** The report's files are named after the uploaded file without its
      extension. */
  lemma PipelineOutputs(img: Raster, exif: Option<map<string, ExifEntry>>, name: string, m: Models, timestamp: string)
    requires Rectangular(img) && ListsDirectories(m) && GetLatLon(exif).Success?
    requires Width(img) > 0 && Height(img) > 0
    ensures var o := RunPipeline(img, exif, name, m, timestamp);
      && o.Done?
      && o.report.summary.filePath == "outputs/" + SplitextRoot(name) + "_report.xlsx"
      && ('/' !in SplitextRoot(name) ==>
            && o.report.annotatedImage == "/outputs/" + SplitextRoot(name) + "_annotated.jpg"
            && o.report.excelReport == "/outputs/" + SplitextRoot(name) + "_report.xlsx")
  {
    var g, c := TileGrid(Width(img), Height(img)), ClassifyStage(img, m);
    Completes(img, exif, name, m, timestamp);
    AssembledNames(c, g, GetLatLon(exif).value, name, timestamp);
  }

  /** The paths a report names are derived from the upload's name alone. */
  lemma AssembledNames(c: Classified, tiles: seq<TileInfo>, position: Option<(real, real)>, name: string, timestamp: string)
    requires AllRectangular(c.annotated) && tiles != []
    ensures var a := Assemble(c, tiles, position, name, timestamp);
      && a.summary.filePath == "outputs/" + SplitextRoot(name) + "_report.xlsx"
      && ('/' !in SplitextRoot(name) ==>
            && a.annotatedImage == "/outputs/" + SplitextRoot(name) + "_annotated.jpg"
            && a.excelReport == "/outputs/" + SplitextRoot(name) + "_report.xlsx")
  {
    if '/' !in SplitextRoot(name) {
      OutputNames(SplitextRoot(name));
    }
  }

  /** No box survives filtering in any tile. */
  ghost predicate NothingSurvives(img: Raster, m: Models)
    requires Rectangular(img)
  {
    GridFilesRectangular(img);
    forall f :: f in TiledFiles(img) ==> Survivors(TiledFiles(img), f, m.detect, m.stats) == []
  }

  /** When no detection survives, no boxes file is written, so
      classification has nothing to do: the staged tiles stay as the tiler
      wrote them and there are no results. */
  lemma NoBoxesFiles(img: Raster, m: Models)
    requires Rectangular(img) && ListsDirectories(m) && NothingSurvives(img, m)
    ensures ClassifyStage(img, m) == Classified(TiledFiles(img), [], false)
  {
    GridFilesRectangular(img);
    var files := TiledFiles(img);
    var d := DetectStage(img, m);
    forall key | key in d.boxes ensures false {
      BoxesKeys(m.listDir(files.Keys), files, m.detect, m.stats, key);
    }
    var listing := m.listDir(d.boxes.Keys);
    assert Enumerates(listing, d.boxes.Keys);
    assert d.boxes.Keys == {};
    StagedTiles(img, m);
  }

  /** When no detection survives in any tile, no panel is reported and the
      canvas is the image itself, padded with black to whole tiles. */
  lemma NothingDetected(img: Raster, exif: Option<map<string, ExifEntry>>, name: string, m: Models, timestamp: string)
    requires Rectangular(img) && ListsDirectories(m) && GetLatLon(exif).Success?
    requires Width(img) > 0 && Height(img) > 0 && NothingSurvives(img, m)
    ensures var o := RunPipeline(img, exif, name, m, timestamp);
      && o.Done?
      && o.report.detailedResults == []
      && forall r, c :: 0 <= r < |o.report.canvas| && 0 <= c < |o.report.canvas[r]| ==>
           o.report.canvas[r][c] == if r < Height(img) && c < Width(img) then img[r][c] else Black
  {
    var g := TileGrid(Width(img), Height(img));
    Completes(img, exif, name, m, timestamp);
    NoBoxesFiles(img, m);
    GridFilesRectangular(img);
    var a := Assemble(ClassifyStage(img, m), g, GetLatLon(exif).value, name, timestamp);
    assert RunPipeline(img, exif, name, m, timestamp).report == a;
    assert a.canvas == StitchedImage(g, TiledFiles(img)) && a.detailedResults == [];
    forall r, c | 0 <= r < |a.canvas| && 0 <= c < |a.canvas[r]|
      ensures a.canvas[r][c] == if r < Height(img) && c < Width(img) then img[r][c] else Black
    {
      StitchRoundTrip(img, r, c);
    }
  }
}
