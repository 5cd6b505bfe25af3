/** The classification stage: for every boxes file it reads the staged tile,
    crops each stored box out of it with the raw box coordinates, classifies
    every crop that is at least 20 x 20, draws the box and its caption on the
    tile, and collects one result per classified box. */
module Classification {
  import opened Text
  import opened Raster
  import opened Scratch
  import opened Tiler
  import opened Detection

  const ClassNames: seq<string> := ["Bird-drop", "Clean", "Dusty", "Physical-Damage"]

  /** A position in `ClassNames`: what the classifier's arg-max can be. */
  type ClassIndex = i: nat | i < 4

  /** What the classifier gives for one crop: the arg-max class and the
      largest softmax probability. */
  datatype Prediction = Prediction(index: ClassIndex, confidence: real)

  /** The drawing colours, in OpenCV's BGR order. */
  const Green := Pixel(0, 255, 0)
  const Red := Pixel(0, 0, 255)

  /** One entry of `classification_results`. */
  datatype PanelResult = PanelResult(panelId: string, classification: string, confidence: real, bbox: Box)

  /** What is drawn for one result: the box outline and the caption
      `label (confidence)`, both in one colour, the caption anchored at
      (centre_x - 30, centre_y). */
  datatype Mark = Mark(box: Box, colour: Pixel, caption: string, confidence: real, anchorX: int, anchorY: int)

  /** `a + (b - a) // 2`. Dafny's division by the positive constant 2 rounds
      down, as Python's `//` does, also when `b < a`. */
  function Midpoint(a: int, b: int): (m: int)
    ensures a <= b ==> a <= m <= b
    ensures b <= a ==> b <= m <= a
  {
    a + (b - a) / 2
  }

  function LabelColour(className: string): Pixel
  {
    if className == "Clean" then Green else Red
  }

  function MarkFor(r: PanelResult): Mark
  {
    var b := r.bbox;
    Mark(b, LabelColour(r.classification), r.classification, r.confidence,
         Midpoint(b.x1, b.x2) - 30, Midpoint(b.y1, b.y2))
  }

  /** A result's mark is green exactly when the panel is Clean, and its caption
      starts 30 pixels left of a centre that lies within the box. */
  lemma MarkMeaning(r: PanelResult)
    ensures MarkFor(r).colour == Green <==> r.classification == "Clean"
    ensures MarkFor(r).colour == Red <==> r.classification != "Clean"
    ensures r.bbox.x1 <= r.bbox.x2 ==> r.bbox.x1 <= MarkFor(r).anchorX + 30 <= r.bbox.x2
    ensures r.bbox.y1 <= r.bbox.y2 ==> r.bbox.y1 <= MarkFor(r).anchorY <= r.bbox.y2
  {
  }

  /** Drawing a mark: every pixel may be changed by the rasteriser `ink`, as a
      function of the mark, the pixel's position and its old value; the
      image keeps its size. */
  function Draw(img: Raster, m: Mark, ink: (Mark, nat, nat, Pixel) -> Pixel): (d: Raster)
    requires Rectangular(img)
    ensures HasShape(d, Height(img), Width(img)) && Rectangular(d) && Width(d) == Width(img)
  {
    seq(|img|, r requires 0 <= r < |img| => seq(|img[r]|, c requires 0 <= c < |img[r]| => ink(m, r, c, img[r][c])))
  }

  /** `f"{tile_name}_{i}"` */
  function PanelId(tileName: string, i: nat): string
  {
    tileName + "_" + Decimal(i)
  }

  /** Two results share an id only when they come from the same tile name and
      the same position in its boxes file. */
  lemma PanelIdInjective(t1: string, i1: nat, t2: string, i2: nat)
    ensures PanelId(t1, i1) == PanelId(t2, i2) <==> t1 == t2 && i1 == i2
  {
    if PanelId(t1, i1) == PanelId(t2, i2) {
      var d1, d2 := Decimal(i1), Decimal(i2);
      assert forall k :: 0 <= k < |d1| ==> IsDigit(d1[k]);
      assert forall k :: 0 <= k < |d2| ==> IsDigit(d2[k]);
      assert PanelId(t1, i1) == t1 + ['_'] + d1;
      assert PanelId(t2, i2) == t2 + ['_'] + d2;
      SplitAtLast('_', t1, d1, t2, d2);
      DecimalInjective(i1, i2);
    }
  }

  /** The size test on the raw-coordinate crop `rgb[y1:y2, x1:x2]`. It
      depends on the tile's size only, so drawing does not change it. */
  predicate Classifiable(img: Raster, b: Box)
  {
    SliceLen(Height(img), b.y1, b.y2) >= MinCropSide && SliceLen(Width(img), b.x1, b.x2) >= MinCropSide
  }

  /** For a box that starts inside the tile, the classifier's raw crop has
      the size of the detector's clamped crop: every stored box with
      non-negative corner passes the classifier's size test again. */
  lemma CropsAgree(img: Raster, b: Box)
    requires b.x1 >= 0 && b.y1 >= 0
    ensures SliceLen(Height(img), b.y1, b.y2) == ClampedRows(img, b)
    ensures SliceLen(Width(img), b.x1, b.x2) == ClampedCols(img, b)
    ensures Classifiable(img, b) <==> ClampedRows(img, b) >= MinCropSide && ClampedCols(img, b) >= MinCropSide
  {
    ClampedSliceLen(Height(img), b.y1, b.y2);
    ClampedSliceLen(Width(img), b.x1, b.x2);
  }

  /** A box reaching left of the tile is cropped by the detector from column
      0, but by the classifier from a negative index that counts from the
      right edge: on a 512 x 512 tile the box (-10, 0, 100, 100) has a
      100 x 100 detector crop, yet the classifier's crop is empty and the box
      is skipped. */
  lemma NegativeStartSkipped(img: Raster)
    requires HasShape(img, 512, 512)
    ensures ClampedRows(img, Box(-10, 0, 100, 100)) == 100 && ClampedCols(img, Box(-10, 0, 100, 100)) == 100
    ensures SliceLen(Width(img), -10, 100) == 0
    ensures !Classifiable(img, Box(-10, 0, 100, 100))
  {
  }

  /** A tile being classified: its image with the marks drawn so far, and its
      results so far. */
  datatype TileWork = TileWork(img: Raster, results: seq<PanelResult>)

  /** One pass of the inner loop: box `i` is skipped when its crop is too
      small; otherwise the classifier sees the crop of the tile as drawn so
      far (the crop is a view of the image being drawn on), and the result
      is recorded and drawn. */
  function ClassifyBox(w: TileWork, tileName: string, i: nat, b: Box,
                       classify: Raster -> Prediction, ink: (Mark, nat, nat, Pixel) -> Pixel): TileWork
    requires Rectangular(w.img)
  {
    if !Classifiable(w.img, b) then w
    else
      var p := classify(PyCrop(w.img, b.y1, b.y2, b.x1, b.x2));
      var r := PanelResult(PanelId(tileName, i), ClassNames[p.index], p.confidence, b);
      TileWork(Draw(w.img, MarkFor(r), ink), w.results + [r])
  }

  /** The inner loop over a tile's stored boxes, `enumerate(boxes)`. */
  function ClassifyBoxes(tileName: string, img: Raster, boxes: seq<Box>,
                         classify: Raster -> Prediction, ink: (Mark, nat, nat, Pixel) -> Pixel): (w: TileWork)
    requires Rectangular(img)
    ensures HasShape(w.img, Height(img), Width(img)) && Rectangular(w.img) && Width(w.img) == Width(img)
    decreases |boxes|
  {
    if boxes == [] then TileWork(img, [])
    else ClassifyBox(ClassifyBoxes(tileName, img, boxes[..|boxes| - 1], classify, ink),
                     tileName, |boxes| - 1, boxes[|boxes| - 1], classify, ink)
  }

  /** The tile with the marks of `rs` drawn on it one after another, in
      order. */
  function DrawAll(img: Raster, rs: seq<PanelResult>, ink: (Mark, nat, nat, Pixel) -> Pixel): (d: Raster)
    requires Rectangular(img)
    ensures HasShape(d, Height(img), Width(img)) && Rectangular(d) && Width(d) == Width(img)
    decreases |rs|
  {
    if rs == [] then img
    else Draw(DrawAll(img, rs[..|rs| - 1], ink), MarkFor(rs[|rs| - 1]), ink)
  }

  /** The tile written back carries exactly one mark per result, in the
      order of the results, each the mark `MarkFor` gives that result: green
      for Clean, red otherwise. Skipped boxes leave no mark. */
  lemma {:induction false} DrawnMarks(tileName: string, img: Raster, boxes: seq<Box>,
                                      classify: Raster -> Prediction, ink: (Mark, nat, nat, Pixel) -> Pixel)
    requires Rectangular(img)
    ensures var w := ClassifyBoxes(tileName, img, boxes, classify, ink);
            w.img == DrawAll(img, w.results, ink)
    decreases |boxes|
  {
    if boxes != [] {
      var prefix := boxes[..|boxes| - 1];
      DrawnMarks(tileName, img, prefix, classify, ink);
      var w0 := ClassifyBoxes(tileName, img, prefix, classify, ink);
      var w := ClassifyBoxes(tileName, img, boxes, classify, ink);
      if |w.results| != |w0.results| {
        assert w.results[..|w.results| - 1] == w0.results;
      }
    }
  }

  /** The positions of the boxes that pass the size test, in order. */
  function ClassifiableIndices(img: Raster, boxes: seq<Box>): seq<nat>
    decreases |boxes|
  {
    if boxes == [] then []
    else ClassifiableIndices(img, boxes[..|boxes| - 1])
         + (if Classifiable(img, boxes[|boxes| - 1]) then [|boxes| - 1] else [])
  }

  /** The classifiable positions are exactly the positions whose box passes
      the size test, strictly increasing. */
  lemma {:induction false} ClassifiableIndicesMeaning(img: Raster, boxes: seq<Box>)
    ensures forall i: nat :: i in ClassifiableIndices(img, boxes) <==> i < |boxes| && Classifiable(img, boxes[i])
    ensures forall k, l :: 0 <= k < l < |ClassifiableIndices(img, boxes)| ==>
      ClassifiableIndices(img, boxes)[k] < ClassifiableIndices(img, boxes)[l]
    decreases |boxes|
  {
    if boxes != [] {
      var n := |boxes| - 1;
      var prefix := boxes[..n];
      ClassifiableIndicesMeaning(img, prefix);
      var idx0 := ClassifiableIndices(img, prefix);
      var idx := ClassifiableIndices(img, boxes);
      assert idx == idx0 + (if Classifiable(img, boxes[n]) then [n] else []);
      forall k | 0 <= k < |idx0| ensures idx0[k] < n {
        assert idx0[k] in idx0;
      }
      forall i: nat ensures i in idx <==> i < |boxes| && Classifiable(img, boxes[i]) {
        if i < n {
          assert prefix[i] == boxes[i];
        }
      }
    }
  }

  /** The results of one tile: result `k` is the classifiable box at position
      `ClassifiableIndices[k]` of the boxes file, with the id made of the tile
      name and that position, and a label from `ClassNames`. */
  lemma {:induction false} TileResults(tileName: string, img: Raster, boxes: seq<Box>,
                                       classify: Raster -> Prediction, ink: (Mark, nat, nat, Pixel) -> Pixel)
    requires Rectangular(img)
    ensures var w := ClassifyBoxes(tileName, img, boxes, classify, ink);
            var idx := ClassifiableIndices(img, boxes);
            && |w.results| == |idx|
            && forall k :: 0 <= k < |idx| ==>
                 idx[k] < |boxes| && w.results[k].panelId == PanelId(tileName, idx[k])
                 && w.results[k].bbox == boxes[idx[k]] && w.results[k].classification in ClassNames
    decreases |boxes|
  {
    if boxes != [] {
      var prefix, last := boxes[..|boxes| - 1], boxes[|boxes| - 1];
      TileResults(tileName, img, prefix, classify, ink);
      var w0 := ClassifyBoxes(tileName, img, prefix, classify, ink);
      assert Classifiable(w0.img, last) == Classifiable(img, last);
      var idx0 := ClassifiableIndices(img, prefix);
      forall k | 0 <= k < |idx0| ensures prefix[idx0[k]] == boxes[idx0[k]] { }
    }
  }

  /** Every result id of a tile is different from every other. */
  lemma TileIdsDistinct(tileName: string, img: Raster, boxes: seq<Box>,
                        classify: Raster -> Prediction, ink: (Mark, nat, nat, Pixel) -> Pixel, k: nat, l: nat)
    requires Rectangular(img)
    requires k < l < |ClassifyBoxes(tileName, img, boxes, classify, ink).results|
    ensures ClassifyBoxes(tileName, img, boxes, classify, ink).results[k].panelId
         != ClassifyBoxes(tileName, img, boxes, classify, ink).results[l].panelId
  {
    TileResults(tileName, img, boxes, classify, ink);
    ClassifiableIndicesMeaning(img, boxes);
    var idx := ClassifiableIndices(img, boxes);
    PanelIdInjective(tileName, idx[k], tileName, idx[l]);
  }

  /** The inner loop of `classify_detected_panels` for one tile. */
  method ClassifyTile(tileName: string, img: Raster, boxes: seq<Box>,
                      classify: Raster -> Prediction, ink: (Mark, nat, nat, Pixel) -> Pixel)
    returns (drawn: Raster, results: seq<PanelResult>)
    requires Rectangular(img)
    ensures TileWork(drawn, results) == ClassifyBoxes(tileName, img, boxes, classify, ink)
  {
    drawn, results := img, [];
    for i := 0 to |boxes|
      invariant TileWork(drawn, results) == ClassifyBoxes(tileName, img, boxes[..i], classify, ink)
    {
      var b := boxes[i];
      assert boxes[..i + 1][..i] == boxes[..i];
      var rows, cols := SliceLen(Height(drawn), b.y1, b.y2), SliceLen(Width(drawn), b.x1, b.x2);
      if rows >= MinCropSide && cols >= MinCropSide {
        var p := classify(PyCrop(drawn, b.y1, b.y2, b.x1, b.x2));
        var name := ClassNames[p.index];
        var r := PanelResult(PanelId(tileName, i), name, p.confidence, b);
        drawn := Draw(drawn, MarkFor(r), ink);
        results := results + [r];
      }
    }
    assert boxes[..|boxes|] == boxes;
  }

  // ---------------------------------------------------------------------------
  // The outer loop over the boxes directory

  /** `json_file.replace(".json", ".jpg")`: the tile a boxes file belongs to. */
  function TileNameOf(jsonFile: string): string
  {
    ReplaceAll(jsonFile, ".json", ".jpg")
  }

  /** The boxes file of a tile made by the tiler is named after the tile, and
      leads back to it; and the tile is read by the detector. */
  lemma TileBoxesFile(x: nat, y: nat)
    ensures HasImageExtension(TileName(x, y))
    ensures BoxesFileName(TileName(x, y)) == TileStem(x, y) + ".json"
    ensures EndsWith(BoxesFileName(TileName(x, y)), ".json")
    ensures TileNameOf(BoxesFileName(TileName(x, y))) == TileName(x, y)
  {
    StemHasNoDot(x, y);
    assert TileName(x, y) == TileStem(x, y) + ".jpg";
    ReplaceSuffix(TileStem(x, y), ".jpg", ".json");
    ReplaceSuffix(TileStem(x, y), ".json", ".jpg");
    JpgIsImage(TileStem(x, y));
    EndsWithSuffix(TileStem(x, y), ".json");
  }

  /** What the stage has produced so far: the annotation directory, the
      results, and whether it stopped on a tile it could not read. */
  datatype Classified = Classified(annotated: map<string, Raster>, results: seq<PanelResult>, failed: bool)

  /** One pass of the outer loop. A boxes file whose tile is missing from the
      annotation directory makes `cv2.imread` return None and the stage
      raise; every other tile is classified and written back. */
  function ClassifyFile(acc: Classified, jsonFile: string, boxesDir: map<string, seq<Box>>,
                        classify: Raster -> Prediction, ink: (Mark, nat, nat, Pixel) -> Pixel): (c: Classified)
    requires AllRectangular(acc.annotated) && jsonFile in boxesDir
    ensures AllRectangular(c.annotated)
  {
    if !EndsWith(jsonFile, ".json") then acc
    else
      var tileName := TileNameOf(jsonFile);
      if tileName !in acc.annotated then acc.(failed := true)
      else
        var w := ClassifyBoxes(tileName, acc.annotated[tileName], boxesDir[jsonFile], classify, ink);
        Classified(acc.annotated[tileName := w.img], acc.results + w.results, false)
  }

  /** The outer loop over the listed boxes files, stopping at the first
      failure. */
  function ClassifyFiles(start: Classified, listing: seq<string>, boxesDir: map<string, seq<Box>>,
                         classify: Raster -> Prediction, ink: (Mark, nat, nat, Pixel) -> Pixel): (c: Classified)
    requires AllRectangular(start.annotated) && !start.failed
    requires forall n :: n in listing ==> n in boxesDir
    ensures AllRectangular(c.annotated)
    decreases |listing|
  {
    if listing == [] then start
    else
      var prefix := listing[..|listing| - 1];
      assert forall n :: n in prefix ==> n in listing;
      var acc := ClassifyFiles(start, prefix, boxesDir, classify, ink);
      if acc.failed then acc else ClassifyFile(acc, listing[|listing| - 1], boxesDir, classify, ink)
  }

  /** `classify_detected_panels`, reading the boxes directory in the order
      of `listing` and writing every drawn tile back to the annotation
      directory. `failed` stands for the exception raised on an unreadable
      tile; `results` is then what had been collected before it. */
  method ClassifyDetectedPanels(ws: Workspace, listing: seq<string>,
                                classify: Raster -> Prediction, ink: (Mark, nat, nat, Pixel) -> Pixel)
    returns (results: seq<PanelResult>, failed: bool)
    requires AllRectangular(ws.annotatedDir)
    requires forall n :: n in listing ==> n in ws.boxesDir
    modifies ws`annotatedDir
    ensures Classified(ws.annotatedDir, results, failed)
         == ClassifyFiles(Classified(old(ws.annotatedDir), [], false), listing, ws.boxesDir, classify, ink)
  {
    ghost var start := Classified(ws.annotatedDir, [], false);
    results, failed := [], false;
    var k := 0;
    while k < |listing|
      invariant k <= |listing|
      invariant forall n :: n in listing[..k] ==> n in ws.boxesDir
      invariant Classified(ws.annotatedDir, results, failed) == ClassifyFiles(start, listing[..k], ws.boxesDir, classify, ink)
      invariant !failed
    {
      var jsonFile := listing[k];
      assert listing[..k + 1][..k] == listing[..k];
      assert forall n :: n in listing[..k + 1] ==> n in ws.boxesDir;
      if EndsWith(jsonFile, ".json") {
        var tileName := TileNameOf(jsonFile);
        var boxes := ws.boxesDir[jsonFile];
        if tileName !in ws.annotatedDir {
          failed := true;
          assert Classified(ws.annotatedDir, results, failed)
              == ClassifyFiles(start, listing[..k + 1], ws.boxesDir, classify, ink);
          CarryFailure(start, listing, k + 1, ws.boxesDir, classify, ink);
          return;
        }
        var drawn, tileResults := ClassifyTile(tileName, ws.annotatedDir[tileName], boxes, classify, ink);
        ws.annotatedDir := ws.annotatedDir[tileName := drawn];
        results := results + tileResults;
      }
      k := k + 1;
    }
    assert listing[..k] == listing;
  }

  /** Once the stage has failed, the rest of the listing changes nothing. */
  lemma {:induction false} CarryFailure(start: Classified, listing: seq<string>, k: nat, boxesDir: map<string, seq<Box>>,
                                        classify: Raster -> Prediction, ink: (Mark, nat, nat, Pixel) -> Pixel)
    requires AllRectangular(start.annotated) && !start.failed
    requires forall n :: n in listing ==> n in boxesDir
    requires k <= |listing|
    requires forall n :: n in listing[..k] ==> n in boxesDir
    requires ClassifyFiles(start, listing[..k], boxesDir, classify, ink).failed
    ensures ClassifyFiles(start, listing, boxesDir, classify, ink) == ClassifyFiles(start, listing[..k], boxesDir, classify, ink)
    decreases |listing| - k
  {
    if k < |listing| {
      assert listing[..k + 1][..k] == listing[..k];
      assert forall n :: n in listing[..k + 1] ==> n in boxesDir;
      CarryFailure(start, listing, k + 1, boxesDir, classify, ink);
    } else {
      assert listing[..k] == listing;
    }
  }

  // ---------------------------------------------------------------------------
  // What one run of the stage produces

  /** Every result comes from a listed boxes file: it is the box at some
      position `i` of that file, its id is the file's tile name joined to `i`,
      and its label is one of `ClassNames`. */
  lemma {:induction false} ResultsOrigin(annotated: map<string, Raster>, listing: seq<string>, boxesDir: map<string, seq<Box>>,
                                         classify: Raster -> Prediction, ink: (Mark, nat, nat, Pixel) -> Pixel, k: nat)
    requires AllRectangular(annotated)
    requires forall n :: n in listing ==> n in boxesDir
    requires k < |ClassifyFiles(Classified(annotated, [], false), listing, boxesDir, classify, ink).results|
    ensures var r := ClassifyFiles(Classified(annotated, [], false), listing, boxesDir, classify, ink).results[k];
            && r.classification in ClassNames
            && exists j, i :: 0 <= j < |listing| && EndsWith(listing[j], ".json") && 0 <= i < |boxesDir[listing[j]]|
                              && r.panelId == PanelId(TileNameOf(listing[j]), i) && r.bbox == boxesDir[listing[j]][i]
                              && TileNameOf(listing[j]) in annotated
                              && Classifiable(annotated[TileNameOf(listing[j])], boxesDir[listing[j]][i])
    decreases |listing|
  {
    var start := Classified(annotated, [], false);
    var prefix, last := listing[..|listing| - 1], listing[|listing| - 1];
    assert forall n :: n in prefix ==> n in listing;
    var before := ClassifyFiles(start, prefix, boxesDir, classify, ink);
    var r := ClassifyFiles(start, listing, boxesDir, classify, ink).results[k];
    if k < |before.results| {
      ResultsOrigin(annotated, prefix, boxesDir, classify, ink, k);
      assert r == before.results[k];
      var j, i :| 0 <= j < |prefix| && EndsWith(prefix[j], ".json") && 0 <= i < |boxesDir[prefix[j]]|
                  && r.panelId == PanelId(TileNameOf(prefix[j]), i) && r.bbox == boxesDir[prefix[j]][i]
                  && TileNameOf(prefix[j]) in annotated
                  && Classifiable(annotated[TileNameOf(prefix[j])], boxesDir[prefix[j]][i]);
      assert listing[j] == prefix[j];
    } else {
      var tileName := TileNameOf(last);
      var boxes := boxesDir[last];
      var img := before.annotated[tileName];
      TileResults(tileName, img, boxes, classify, ink);
      ClassifiableIndicesMeaning(img, boxes);
      AnnotatedShapes(annotated, prefix, boxesDir, classify, ink);
      var m := k - |before.results|;
      var i := ClassifiableIndices(img, boxes)[m];
      assert i in ClassifiableIndices(img, boxes);
      assert r == ClassifyBoxes(tileName, img, boxes, classify, ink).results[m];
      ClassifiableByShape(annotated[tileName], img, boxes[i]);
      assert listing[|listing| - 1] == last;
    }
  }

  /** The size test looks at the tile's size only. */
  lemma ClassifiableByShape(a: Raster, b: Raster, box: Box)
    requires HasShape(b, Height(a), Width(a))
    ensures Classifiable(a, box) == Classifiable(b, box)
  {
    assert Width(b) == Width(a);
  }

  /** Conversely, when the stage does not raise, every box of a listed boxes
      file that passes the size test on its staged tile is reported, with the
      id made of the tile name and the box's position. */
  lemma {:induction false} ClassifiableReported(annotated: map<string, Raster>, listing: seq<string>, boxesDir: map<string, seq<Box>>,
                                                classify: Raster -> Prediction, ink: (Mark, nat, nat, Pixel) -> Pixel, j: nat, i: nat)
    requires AllRectangular(annotated)
    requires forall n :: n in listing ==> n in boxesDir
    requires !ClassifyFiles(Classified(annotated, [], false), listing, boxesDir, classify, ink).failed
    requires j < |listing| && EndsWith(listing[j], ".json") && i < |boxesDir[listing[j]]|
    requires TileNameOf(listing[j]) in annotated && Classifiable(annotated[TileNameOf(listing[j])], boxesDir[listing[j]][i])
    ensures var rs := ClassifyFiles(Classified(annotated, [], false), listing, boxesDir, classify, ink).results;
            exists k :: 0 <= k < |rs| && rs[k].panelId == PanelId(TileNameOf(listing[j]), i) && rs[k].bbox == boxesDir[listing[j]][i]
    decreases |listing|
  {
    var start := Classified(annotated, [], false);
    var prefix, last := listing[..|listing| - 1], listing[|listing| - 1];
    assert forall n :: n in prefix ==> n in listing;
    var before := ClassifyFiles(start, prefix, boxesDir, classify, ink);
    var rs := ClassifyFiles(start, listing, boxesDir, classify, ink).results;
    assert !before.failed;
    if j < |prefix| {
      assert prefix[j] == listing[j];
      ClassifiableReported(annotated, prefix, boxesDir, classify, ink, j, i);
      var k :| 0 <= k < |before.results| && before.results[k].panelId == PanelId(TileNameOf(prefix[j]), i)
               && before.results[k].bbox == boxesDir[prefix[j]][i];
      assert rs[k] == before.results[k];
    } else {
      var tileName := TileNameOf(last);
      var boxes := boxesDir[last];
      assert tileName in before.annotated;
      var img := before.annotated[tileName];
      AnnotatedShapes(annotated, prefix, boxesDir, classify, ink);
      ClassifiableByShape(annotated[tileName], img, boxes[i]);
      ClassifiableIndicesMeaning(img, boxes);
      TileResults(tileName, img, boxes, classify, ink);
      var idx := ClassifiableIndices(img, boxes);
      assert i in idx;
      var m :| 0 <= m < |idx| && idx[m] == i;
      var w := ClassifyBoxes(tileName, img, boxes, classify, ink);
      assert rs == before.results + w.results;
      assert rs[|before.results| + m] == w.results[m];
    }
  }

  predicate IdsDistinct(results: seq<PanelResult>)
  {
    forall k, l :: 0 <= k < l < |results| ==> results[k].panelId != results[l].panelId
  }

  lemma AppendDistinct(a: seq<PanelResult>, b: seq<PanelResult>)
    requires IdsDistinct(a) && IdsDistinct(b)
    requires forall k, l :: 0 <= k < |a| && 0 <= l < |b| ==> a[k].panelId != b[l].panelId
    ensures IdsDistinct(a + b)
  {
    var c := a + b;
    forall k, l | 0 <= k < l < |c| ensures c[k].panelId != c[l].panelId {
      if l < |a| {
        assert c[k] == a[k] && c[l] == a[l];
      } else if k >= |a| {
        assert c[k] == b[k - |a|] && c[l] == b[l - |a|];
      } else {
        assert c[k] == a[k] && c[l] == b[l - |a|];
      }
    }
  }

  /** An id built from a tile name that no listed boxes file leads to is not
      among the results. */
  lemma IdFromOtherTile(annotated: map<string, Raster>, listing: seq<string>, boxesDir: map<string, seq<Box>>,
                        classify: Raster -> Prediction, ink: (Mark, nat, nat, Pixel) -> Pixel, k: nat, tileName: string, i: nat)
    requires AllRectangular(annotated)
    requires forall n :: n in listing ==> n in boxesDir
    requires k < |ClassifyFiles(Classified(annotated, [], false), listing, boxesDir, classify, ink).results|
    requires forall j :: 0 <= j < |listing| && EndsWith(listing[j], ".json") ==> TileNameOf(listing[j]) != tileName
    ensures ClassifyFiles(Classified(annotated, [], false), listing, boxesDir, classify, ink).results[k].panelId != PanelId(tileName, i)
  {
    var r := ClassifyFiles(Classified(annotated, [], false), listing, boxesDir, classify, ink).results[k];
    ResultsOrigin(annotated, listing, boxesDir, classify, ink, k);
    var j, i' :| 0 <= j < |listing| && EndsWith(listing[j], ".json") && 0 <= i' < |boxesDir[listing[j]]|
                 && r.panelId == PanelId(TileNameOf(listing[j]), i');
    PanelIdInjective(TileNameOf(listing[j]), i', tileName, i);
  }

  /** No two results share a panel id, provided no two listed boxes files
      name the same tile. */
  lemma {:induction false} PanelIdsUnique(annotated: map<string, Raster>, listing: seq<string>, boxesDir: map<string, seq<Box>>,
                                          classify: Raster -> Prediction, ink: (Mark, nat, nat, Pixel) -> Pixel)
    requires AllRectangular(annotated)
    requires forall n :: n in listing ==> n in boxesDir
    requires forall j, l :: 0 <= j < l < |listing| && EndsWith(listing[j], ".json") && EndsWith(listing[l], ".json")
               ==> TileNameOf(listing[j]) != TileNameOf(listing[l])
    ensures IdsDistinct(ClassifyFiles(Classified(annotated, [], false), listing, boxesDir, classify, ink).results)
    decreases |listing|
  {
    if listing != [] {
      var start := Classified(annotated, [], false);
      var prefix, last := listing[..|listing| - 1], listing[|listing| - 1];
      assert forall n :: n in prefix ==> n in listing;
      PanelIdsUnique(annotated, prefix, boxesDir, classify, ink);
      var before := ClassifyFiles(start, prefix, boxesDir, classify, ink);
      if !before.failed && EndsWith(last, ".json") && TileNameOf(last) in before.annotated {
        var tileName := TileNameOf(last);
        var img := before.annotated[tileName];
        var w := ClassifyBoxes(tileName, img, boxesDir[last], classify, ink);
        forall k, l | 0 <= k < l < |w.results| ensures w.results[k].panelId != w.results[l].panelId {
          TileIdsDistinct(tileName, img, boxesDir[last], classify, ink, k, l);
        }
        TileResults(tileName, img, boxesDir[last], classify, ink);
        var idx := ClassifiableIndices(img, boxesDir[last]);
        forall k, l | 0 <= k < |before.results| && 0 <= l < |w.results|
          ensures before.results[k].panelId != w.results[l].panelId
        {
          forall j | 0 <= j < |prefix| && EndsWith(prefix[j], ".json") ensures TileNameOf(prefix[j]) != tileName {
            assert listing[j] == prefix[j];
          }
          IdFromOtherTile(annotated, prefix, boxesDir, classify, ink, k, tileName, idx[l]);
        }
        AppendDistinct(before.results, w.results);
      }
    }
  }

  /** The stage writes back only tiles that were staged, and each keeps its
      size: the drawing changes pixels, not shapes. */
  lemma {:induction false} AnnotatedShapes(annotated: map<string, Raster>, listing: seq<string>, boxesDir: map<string, seq<Box>>,
                                           classify: Raster -> Prediction, ink: (Mark, nat, nat, Pixel) -> Pixel)
    requires AllRectangular(annotated)
    requires forall n :: n in listing ==> n in boxesDir
    ensures var after := ClassifyFiles(Classified(annotated, [], false), listing, boxesDir, classify, ink).annotated;
            && after.Keys == annotated.Keys
            && forall n :: n in after ==> HasShape(after[n], Height(annotated[n]), Width(annotated[n]))
    decreases |listing|
  {
    if listing != [] {
      var prefix := listing[..|listing| - 1];
      assert forall n :: n in prefix ==> n in listing;
      AnnotatedShapes(annotated, prefix, boxesDir, classify, ink);
    }
  }

  /** Some listed boxes file leads to a tile the annotation directory lacks. */
  predicate MissingTile(annotated: map<string, Raster>, listing: seq<string>)
  {
    exists j :: 0 <= j < |listing| && EndsWith(listing[j], ".json") && TileNameOf(listing[j]) !in annotated
  }

  /** The stage raises exactly when some listed boxes file leads to a tile
      that was never staged: drawing only rewrites tiles already there. */
  lemma {:induction false} FailsIffMissing(annotated: map<string, Raster>, listing: seq<string>, boxesDir: map<string, seq<Box>>,
                                           classify: Raster -> Prediction, ink: (Mark, nat, nat, Pixel) -> Pixel)
    requires AllRectangular(annotated)
    requires forall n :: n in listing ==> n in boxesDir
    ensures ClassifyFiles(Classified(annotated, [], false), listing, boxesDir, classify, ink).failed
            <==> MissingTile(annotated, listing)
    decreases |listing|
  {
    if listing != [] {
      var prefix, last := listing[..|listing| - 1], listing[|listing| - 1];
      assert forall n :: n in prefix ==> n in listing;
      FailsIffMissing(annotated, prefix, boxesDir, classify, ink);
      AnnotatedShapes(annotated, prefix, boxesDir, classify, ink);
      var before := ClassifyFiles(Classified(annotated, [], false), prefix, boxesDir, classify, ink);
      assert before.annotated.Keys == annotated.Keys;
      assert listing == prefix + [last];
      MissingTileAppend(annotated, prefix, last);
      if !before.failed {
        assert ClassifyFiles(Classified(annotated, [], false), listing, boxesDir, classify, ink)
               == ClassifyFile(before, last, boxesDir, classify, ink);
      }
    }
  }

  /** A tile is missing for a longer listing exactly when it was for the
      shorter one or the new boxes file leads to it. */
  lemma MissingTileAppend(annotated: map<string, Raster>, prefix: seq<string>, last: string)
    ensures MissingTile(annotated, prefix + [last])
            <==> MissingTile(annotated, prefix) || (EndsWith(last, ".json") && TileNameOf(last) !in annotated)
  {
    var listing := prefix + [last];
    if MissingTile(annotated, prefix) {
      var j :| 0 <= j < |prefix| && EndsWith(prefix[j], ".json") && TileNameOf(prefix[j]) !in annotated;
      assert listing[j] == prefix[j];
    }
    if MissingTile(annotated, listing) {
      var j :| 0 <= j < |listing| && EndsWith(listing[j], ".json") && TileNameOf(listing[j]) !in annotated;
      if j < |prefix| {
        assert listing[j] == prefix[j];
      }
    }
    if EndsWith(last, ".json") && TileNameOf(last) !in annotated {
      assert listing[|prefix|] == last;
    }
  }
}
