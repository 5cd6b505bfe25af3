/** The detector adapter: runs the external detector on every tile image of
    the tile directory, keeps the boxes whose clamped crop is at least 20 x 20
    and looks like a panel, stores the kept boxes per tile and stages every
    readable tile for annotation. */
module Detection {
  import opened Text
  import opened Raster
  import opened Scratch

  /** The three means `is_likely_panel` computes of a crop: mean HSV value,
      mean HSV saturation, and the mean over all BGR channels. */
  datatype Averages = Averages(brightness: real, saturation: real, meanIntensity: real)

  /** The smallest crop side either stage accepts. */
  const MinCropSide: nat := 20

  /** `is_likely_panel` once its averages are known: each lies strictly
      inside its interval. */
  predicate IsLikelyPanel(a: Averages)
  {
    && 40.0 < a.brightness < 180.0
    && 30.0 < a.saturation < 140.0
    && 30.0 < a.meanIntensity < 180.0
  }

  /** Rows of the detector's crop `img[max(0, y1):min(h, y2), ...]`. */
  function ClampedRows(img: Raster, b: Box): nat
  {
    SliceLen(Height(img), Max(0, b.y1), Min(Height(img), b.y2))
  }

  /** Columns of the detector's crop `img[..., max(0, x1):min(w, x2)]`. */
  function ClampedCols(img: Raster, b: Box): nat
  {
    SliceLen(Width(img), Max(0, b.x1), Min(Width(img), b.x2))
  }

  function ClampedCrop(img: Raster, b: Box): (c: Raster)
    requires Rectangular(img)
    ensures HasShape(c, ClampedRows(img, b), ClampedCols(img, b))
  {
    PyCrop(img, Max(0, b.y1), Min(Height(img), b.y2), Max(0, b.x1), Min(Width(img), b.x2))
  }

  /** The test a raw detection must pass to be kept. `stats` stands for the
      colour conversion and the means taken of the crop; it is only consulted
      once the size test has passed (`or` short-circuits). */
  predicate Keeps(img: Raster, b: Box, stats: Raster -> Averages)
    requires Rectangular(img)
  {
    && ClampedRows(img, b) >= MinCropSide
    && ClampedCols(img, b) >= MinCropSide
    && IsLikelyPanel(stats(ClampedCrop(img, b)))
  }

  /** The detections that survive both filters, in detector order. */
  function KeptBoxes(img: Raster, raw: seq<Box>, stats: Raster -> Averages): seq<Box>
    requires Rectangular(img)
    decreases |raw|
  {
    if raw == [] then []
    else
      var last := raw[|raw| - 1];
      KeptBoxes(img, raw[..|raw| - 1], stats) + (if Keeps(img, last, stats) then [last] else [])
  }

  /** A box is kept exactly when the detector reported it and it passes both
      the size and the colour test. */
  lemma {:induction false} KeptBoxesMembers(img: Raster, raw: seq<Box>, stats: Raster -> Averages, b: Box)
    requires Rectangular(img)
    ensures b in KeptBoxes(img, raw, stats) <==> b in raw && Keeps(img, b, stats)
    decreases |raw|
  {
    if raw != [] {
      KeptBoxesMembers(img, raw[..|raw| - 1], stats, b);
      assert raw == raw[..|raw| - 1] + [raw[|raw| - 1]];
    }
  }

  /** Filtering commutes with concatenation: the kept boxes keep the
      detector's order, and no box is moved or repeated. */
  lemma {:induction false} KeptBoxesAppend(img: Raster, a: seq<Box>, b: seq<Box>, stats: Raster -> Averages)
    requires Rectangular(img)
    ensures KeptBoxes(img, a + b, stats) == KeptBoxes(img, a, stats) + KeptBoxes(img, b, stats)
    decreases |b|
  {
    if b == [] {
      assert a + b == a;
    } else {
      var b' := b[..|b| - 1];
      assert (a + b)[..|a + b| - 1] == a + b';
      KeptBoxesAppend(img, a, b', stats);
    }
  }

  lemma {:induction false} KeptBoxesLength(img: Raster, raw: seq<Box>, stats: Raster -> Averages)
    requires Rectangular(img)
    ensures |KeptBoxes(img, raw, stats)| <= |raw|
    decreases |raw|
  {
    if raw != [] {
      KeptBoxesLength(img, raw[..|raw| - 1], stats);
    }
  }

  /** The inner loop of `run_yolo_and_store_boxes`: every raw box is cropped,
      checked and, when it passes, appended to `valid_boxes`. */
  method FilterDetections(img: Raster, raw: seq<Box>, stats: Raster -> Averages) returns (valid: seq<Box>)
    requires Rectangular(img)
    ensures valid == KeptBoxes(img, raw, stats)
  {
    valid := [];
    var k := 0;
    while k < |raw|
      invariant k <= |raw|
      invariant valid == KeptBoxes(img, raw[..k], stats)
    {
      var b := raw[k];
      var rows, cols := ClampedRows(img, b), ClampedCols(img, b);
      assert raw[..k + 1][..k] == raw[..k];
      if rows >= MinCropSide && cols >= MinCropSide && IsLikelyPanel(stats(ClampedCrop(img, b))) {
        valid := valid + [b];
      }
      k := k + 1;
    }
    assert raw[..k] == raw;
  }

  /** `fname.replace(".jpg", ".json")`: the boxes file written for a tile. */
  function BoxesFileName(tileName: string): string
  {
    ReplaceAll(tileName, ".jpg", ".json")
  }

  /** One entry of `detection_results`. */
  datatype DetectionRecord = DetectionRecord(tile: string, detections: nat)

  /** What the detector stage has produced so far: the boxes directory, the
      annotation staging directory, and `detection_results`. */
  datatype Detected = Detected(boxes: map<string, seq<Box>>, annotated: map<string, Raster>, records: seq<DetectionRecord>)

  predicate AllRectangular(dir: map<string, Raster>)
  {
    forall n :: n in dir ==> Rectangular(dir[n])
  }

  /** A listed file that the loop reads as an image: it has an image
      extension, and it decodes (here: the tile directory holds an image
      under that name; anything else makes `cv2.imread` return None). */
  predicate Readable(tileDir: map<string, Raster>, fname: string)
  {
    HasImageExtension(fname) && fname in tileDir
  }

  /** The boxes of a readable tile that survive filtering. */
  function Survivors(tileDir: map<string, Raster>, fname: string, detect: Raster -> seq<Box>, stats: Raster -> Averages): seq<Box>
    requires AllRectangular(tileDir) && fname in tileDir
  {
    KeptBoxes(tileDir[fname], detect(tileDir[fname]), stats)
  }

  /** One iteration of the outer loop of `run_yolo_and_store_boxes`. */
  function DetectTile(acc: Detected, fname: string, tileDir: map<string, Raster>,
                      detect: Raster -> seq<Box>, stats: Raster -> Averages): Detected
    requires AllRectangular(tileDir)
  {
    if !Readable(tileDir, fname) then acc
    else
      var img := tileDir[fname];
      var kept := Survivors(tileDir, fname, detect, stats);
      if kept == [] then acc.(annotated := acc.annotated[fname := img])
      else Detected(acc.boxes[BoxesFileName(fname) := kept], acc.annotated[fname := img],
                    acc.records + [DetectionRecord(fname, |kept|)])
  }

  /** The outer loop over the listed file names, in listing order. */
  function DetectTiles(acc: Detected, listing: seq<string>, tileDir: map<string, Raster>,
                       detect: Raster -> seq<Box>, stats: Raster -> Averages): Detected
    requires AllRectangular(tileDir)
    decreases |listing|
  {
    if listing == [] then acc
    else DetectTile(DetectTiles(acc, listing[..|listing| - 1], tileDir, detect, stats),
                    listing[|listing| - 1], tileDir, detect, stats)
  }

  /** `run_yolo_and_store_boxes`. The directory is read in the order of
      `listing`; `detect` stands for the detector with its fixed confidence
      and overlap thresholds. */
  method DetectAndStoreBoxes(ws: Workspace, listing: seq<string>, detect: Raster -> seq<Box>,
                             stats: Raster -> Averages) returns (records: seq<DetectionRecord>)
    requires AllRectangular(ws.tileDir)
    modifies ws`boxesDir, ws`annotatedDir
    ensures Detected(ws.boxesDir, ws.annotatedDir, records)
         == DetectTiles(Detected(old(ws.boxesDir), old(ws.annotatedDir), []), listing, ws.tileDir, detect, stats)
  {
    ghost var start := Detected(ws.boxesDir, ws.annotatedDir, []);
    records := [];
    var k := 0;
    while k < |listing|
      invariant k <= |listing|
      invariant Detected(ws.boxesDir, ws.annotatedDir, records) == DetectTiles(start, listing[..k], ws.tileDir, detect, stats)
    {
      var fname := listing[k];
      assert listing[..k + 1][..k] == listing[..k];
      if HasImageExtension(fname) && fname in ws.tileDir {
        var img := ws.tileDir[fname];
        var raw := detect(img);
        var valid := FilterDetections(img, raw, stats);
        if valid != [] {
          ws.boxesDir := ws.boxesDir[BoxesFileName(fname) := valid];
          records := records + [DetectionRecord(fname, |valid|)];
        }
        ws.annotatedDir := ws.annotatedDir[fname := img];
      }
      k := k + 1;
    }
    assert listing[..k] == listing;
  }

  // ---------------------------------------------------------------------------
  // What one run of the stage leaves behind, starting from empty directories

  function Empty(): Detected { Detected(map[], map[], []) }

  /** Every readable listed tile, and nothing else, is staged for annotation,
      unchanged, whatever the detector found in it. */
  lemma {:induction false} StagedForAnnotation(listing: seq<string>, tileDir: map<string, Raster>,
                                               detect: Raster -> seq<Box>, stats: Raster -> Averages, f: string)
    requires AllRectangular(tileDir)
    ensures f in DetectTiles(Empty(), listing, tileDir, detect, stats).annotated <==> f in listing && Readable(tileDir, f)
    ensures f in DetectTiles(Empty(), listing, tileDir, detect, stats).annotated ==>
      DetectTiles(Empty(), listing, tileDir, detect, stats).annotated[f] == tileDir[f]
    decreases |listing|
  {
    if listing != [] {
      var prefix := listing[..|listing| - 1];
      StagedForAnnotation(prefix, tileDir, detect, stats, f);
      assert listing == prefix + [listing[|listing| - 1]];
    }
  }

  /** The staged tiles are tile images, so they are rectangular too. */
  lemma StagedRectangular(listing: seq<string>, tileDir: map<string, Raster>,
                          detect: Raster -> seq<Box>, stats: Raster -> Averages)
    requires AllRectangular(tileDir)
    ensures AllRectangular(DetectTiles(Empty(), listing, tileDir, detect, stats).annotated)
  {
    forall f | f in DetectTiles(Empty(), listing, tileDir, detect, stats).annotated
      ensures Rectangular(DetectTiles(Empty(), listing, tileDir, detect, stats).annotated[f])
    {
      StagedForAnnotation(listing, tileDir, detect, stats, f);
    }
  }

  /** The boxes files are named after listed readable tiles with survivors. */
  lemma {:induction false} BoxesKeys(listing: seq<string>, tileDir: map<string, Raster>,
                                     detect: Raster -> seq<Box>, stats: Raster -> Averages, key: string)
    requires AllRectangular(tileDir)
    ensures key in DetectTiles(Empty(), listing, tileDir, detect, stats).boxes ==>
      exists i :: 0 <= i < |listing| && Readable(tileDir, listing[i]) && BoxesFileName(listing[i]) == key
                  && Survivors(tileDir, listing[i], detect, stats) != []
    decreases |listing|
  {
    if listing != [] {
      var prefix, last := listing[..|listing| - 1], listing[|listing| - 1];
      assert listing == prefix + [last];
      BoxesKeys(prefix, tileDir, detect, stats, key);
      if key in DetectTiles(Empty(), prefix, tileDir, detect, stats).boxes {
        var i :| 0 <= i < |prefix| && Readable(tileDir, prefix[i]) && BoxesFileName(prefix[i]) == key
                 && Survivors(tileDir, prefix[i], detect, stats) != [];
        assert listing[i] == prefix[i];
      } else if key in DetectTiles(Empty(), listing, tileDir, detect, stats).boxes {
        assert listing[|listing| - 1] == last;
      }
    }
  }

  /** When no two listed names share a boxes file name, a readable tile gets
      a boxes file exactly when at least one of its boxes survives, and the
      file holds exactly the survivors, in detector order. */
  lemma {:induction false} BoxesStored(listing: seq<string>, tileDir: map<string, Raster>,
                                       detect: Raster -> seq<Box>, stats: Raster -> Averages, f: string)
    requires AllRectangular(tileDir)
    requires forall i, j :: 0 <= i < j < |listing| ==> BoxesFileName(listing[i]) != BoxesFileName(listing[j])
    requires f in listing && Readable(tileDir, f)
    ensures BoxesFileName(f) in DetectTiles(Empty(), listing, tileDir, detect, stats).boxes
            <==> Survivors(tileDir, f, detect, stats) != []
    ensures BoxesFileName(f) in DetectTiles(Empty(), listing, tileDir, detect, stats).boxes ==>
      DetectTiles(Empty(), listing, tileDir, detect, stats).boxes[BoxesFileName(f)] == Survivors(tileDir, f, detect, stats)
    decreases |listing|
  {
    var prefix, last := listing[..|listing| - 1], listing[|listing| - 1];
    assert listing == prefix + [last];
    var before := DetectTiles(Empty(), prefix, tileDir, detect, stats).boxes;
    var after := DetectTiles(Empty(), listing, tileDir, detect, stats).boxes;
    var adds := Readable(tileDir, last) && Survivors(tileDir, last, detect, stats) != [];
    assert after == if adds then before[BoxesFileName(last) := Survivors(tileDir, last, detect, stats)] else before;
    if f == last {
      BoxesKeys(prefix, tileDir, detect, stats, BoxesFileName(f));
      forall i | 0 <= i < |prefix| ensures BoxesFileName(prefix[i]) != BoxesFileName(f) {
        assert prefix[i] == listing[i];
      }
    } else {
      assert f in prefix;
      BoxesStored(prefix, tileDir, detect, stats, f);
      if adds {
        var i :| 0 <= i < |prefix| && prefix[i] == f;
        assert listing[i] == f;
      }
    }
  }

  /** Every `detection_results` entry names a listed readable tile and counts
      its survivors, which are at least one. */
  lemma {:induction false} RecordsCountSurvivors(listing: seq<string>, tileDir: map<string, Raster>,
                                                 detect: Raster -> seq<Box>, stats: Raster -> Averages, k: nat)
    requires AllRectangular(tileDir)
    requires k < |DetectTiles(Empty(), listing, tileDir, detect, stats).records|
    ensures var r := DetectTiles(Empty(), listing, tileDir, detect, stats).records[k];
            r.tile in listing && Readable(tileDir, r.tile)
            && r.detections == |Survivors(tileDir, r.tile, detect, stats)| && r.detections >= 1
    decreases |listing|
  {
    var prefix, last := listing[..|listing| - 1], listing[|listing| - 1];
    assert listing == prefix + [last];
    if k < |DetectTiles(Empty(), prefix, tileDir, detect, stats).records| {
      RecordsCountSurvivors(prefix, tileDir, detect, stats, k);
    }
  }

  /** `records` has an entry for the tile `f`. */
  predicate Recorded(records: seq<DetectionRecord>, f: string)
  {
    exists k :: 0 <= k < |records| && records[k].tile == f
  }

  /** Appending an entry records its tile and keeps the others recorded. */
  lemma RecordedAppend(records: seq<DetectionRecord>, r: DetectionRecord, f: string)
    ensures Recorded(records + [r], f) <==> Recorded(records, f) || r.tile == f
  {
    var after := records + [r];
    if Recorded(records, f) {
      var k :| 0 <= k < |records| && records[k].tile == f;
      assert after[k] == records[k];
    }
    if Recorded(after, f) && r.tile != f {
      var k :| 0 <= k < |after| && after[k].tile == f;
      assert k < |records| && records[k] == after[k];
    }
    assert after[|records|] == r;
  }

  /** A readable listed tile has a `detection_results` entry exactly when at
      least one of its boxes survives. */
  lemma {:induction false} RecordedIffSurvivors(listing: seq<string>, tileDir: map<string, Raster>,
                                                detect: Raster -> seq<Box>, stats: Raster -> Averages, f: string)
    requires AllRectangular(tileDir)
    ensures Recorded(DetectTiles(Empty(), listing, tileDir, detect, stats).records, f)
            <==> f in listing && Readable(tileDir, f) && Survivors(tileDir, f, detect, stats) != []
    decreases |listing|
  {
    if listing != [] {
      var prefix, last := listing[..|listing| - 1], listing[|listing| - 1];
      assert listing == prefix + [last];
      RecordedIffSurvivors(prefix, tileDir, detect, stats, f);
      var before := DetectTiles(Empty(), prefix, tileDir, detect, stats).records;
      var after := DetectTiles(Empty(), listing, tileDir, detect, stats).records;
      if Readable(tileDir, last) && Survivors(tileDir, last, detect, stats) != [] {
        RecordedAppend(before, DetectionRecord(last, |Survivors(tileDir, last, detect, stats)|), f);
      }
    }
  }
}
