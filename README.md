# Solar panel classifier pipeline, modelled in Dafny

This project models the processing core of the solar panel classifier
backend (`backend/main.py`). One uploaded aerial image goes through these
steps:

1. The **tiler** cuts it into 512 x 512 tiles in row-major order and clips
   the edge tiles. It names each tile `tile_{x}_{y}.jpg` and writes one
   metadata row per tile.
2. The **detector adapter** runs an object detector on every tile. It keeps
   a box when its clamped crop is at least 20 x 20 and three colour averages
   lie strictly inside fixed intervals. It stores the kept boxes per tile
   and stages every readable tile for annotation.
3. The **classification loop** crops every stored box out of its staged tile
   using the raw box coordinates, skips crops under 20 pixels, classifies the
   rest, draws each box with its caption, and records one result per box. A
   result's id is the tile name, `_`, and the box's position in the stored
   list.
4. The **stitcher** reads the metadata back and allocates a black canvas of
   `max(x_start) + max(width)` by `max(y_start) + max(height)`. It pastes
   every readable annotated tile at its origin, in metadata order.
5. The **report** counts the results per class over the four fixed class
   names. It lays out the Summary sheet and returns the summary dictionary.
6. The **GPS reader** turns the EXIF degrees, minutes and seconds into
   decimal degrees, negated for "S" and "W".
7. `process_image` chains these steps. The `/process-upload` endpoint runs
   `process_image` on every file with an image extension, in upload order,
   and records one entry per file: the report, or the error it raised.

The model keeps the source's shape:

- The loops are methods proved against fold functions: `TileImage`,
  `FilterDetections`, `DetectAndStoreBoxes`, `ClassifyTile`,
  `ClassifyDetectedPanels`, `CountClasses`, `ProcessUpload`.
- The scratch directories are fields of a `Workspace` class. The stage
  methods update them in place.
- The stitcher pastes into a two-dimensional `array2`, like the canvas
  slice assignment in the source.
- The GPS reader and the panel filter are pure functions.

Lemmas state what each stage promises and what the stages guarantee one
another. Pipeline-level lemmas combine them. For example:

- Stitching the tiler's own tiles gives the image back, padded with black.
- Every report's class counts add up to its panel total.
- No two panels of a run share an id.

The parts the model cannot see are parameters of type `Models` (module
`Pipeline`):

- the detector;
- the colour statistics of a crop;
- the classifier;
- the drawing rasteriser;
- the directory listing.

The directory listing is assumed only to list each file of a directory
once. The processing date is a string parameter. The endpoint's clock is a
function from the file's position to that string.

Where the documented design and the code differ, the model follows the
code:

- **Zero-area images.** A zero-area image is not rejected up front. It
  yields no tiles, and the stitcher then raises when it sizes the canvas
  from an empty table. `Pipeline.EmptyImageFails` proves this, and the image
  gets a failure entry.
- **Canvas size.** The canvas size is the largest origin plus the largest
  size, not the largest origin-plus-size. A side over 512 that is not a
  multiple of 512 is therefore padded with black up to whole tiles
  (`Stitcher.GridCanvas`, `Pipeline.CanvasBorder`).
- **Stored boxes.** Stored boxes are the detector's raw coordinates, not
  clamped to the tile. No lemma claims they lie inside the tile.
- **Boxes that start outside the tile.** The classifier crops with the raw
  coordinates. A box that starts left of or above the tile is read by numpy
  from the far edge, so its crop can be empty and the box skipped, although
  the detector kept it (`Classification.NegativeStartSkipped`).
- **Missing staged tiles.** A boxes file whose staged tile is missing does
  not skip that tile. Reading the missing tile fails and the whole image
  fails (`Classification.FailsIffMissing`).
- **Non-image uploads.** Files without an image extension get no entry at
  all (`Upload.AcceptedIndicesMeaning`).

## Model

| member | source | states |
|---|---|---|
| `Tiler.TileAt` | backend/main.py:134-146 | a tile's origin is (x, y); its width and height are `min(x+512, W) - x` and `min(y+512, H) - y`, between 1 and 512, inside the image, and a full 512 unless the tile reaches the edge |
| `Tiler.GridMembers` | backend/main.py:132-146 | the tiles emitted are exactly those whose origins are multiples of 512 inside the image, each with its clipped size |
| `Tiler.GridRowMajor` | backend/main.py:132-133 | tiles come out by increasing y, then increasing x |
| `Tiler.GridSize` | backend/main.py:132-133 | there are ceil(W/512) * ceil(H/512) tiles |
| `Tiler.GridCovers` | backend/main.py:132-146 | every pixel of the image lies in an emitted tile: the one whose origin is the pixel rounded down to multiples of 512 |
| `Tiler.GridDisjoint` | backend/main.py:132-146 | no two emitted tiles share a pixel |
| `Tiler.CoveringTileOrigin` | backend/main.py:132-146 | an emitted tile covering a pixel has the rounded-down origin |
| `Tiler.TileNameInjective` | backend/main.py:137 | two tile names are equal exactly when the origins are equal |
| `Tiler.GridNamesDistinct` | backend/main.py:137-138 | no tile file of a run is saved over another |
| `Tiler.Example1024` | backend/main.py:132-146 | a 1024 x 1024 image gives the four 512 x 512 tiles at (0,0), (512,0), (0,512), (512,512) in that order |
| `Tiler.Example600` | backend/main.py:132-146 | a 600-wide image of one row gives a 512-wide tile and an 88-wide right-edge tile |
| `Tiler.TileImage` | backend/main.py:121-150 | the nested loops return exactly the tile grid, with the tile directory holding each tile's crop and the metadata table holding the header and one row per tile |
| `Tiler.CutRow` | backend/main.py:133-148 | one pass of the outer loop appends the tiles of row y, keeping the directory and the table in step |
| `Tiler.CutTile` | backend/main.py:134-148 | one pass of the inner loop appends the tile at (x, y), saves its crop under its name and writes its row |
| `Tiler.TileFilesLookup` | backend/main.py:136-138 | with distinct names, each tile's file holds exactly that tile's crop of the image |
| `Tiler.TileFilesKeys` | backend/main.py:137-138 | the tile directory holds exactly the names of the tiles saved |
| `Tiler.MetadataRoundTrip` | backend/main.py:128-148 | reading the metadata table back gives every `tiles_info` entry, in order, with its name, origin and size |
| `Text.ParseDecimal` | backend/main.py:148 | a number written into a metadata cell reads back as that number |
| `Text.DecimalInjective` | backend/main.py:137 | distinct numbers have distinct decimal renderings |
| `Raster.Crop` | backend/main.py:136 | the crop of a box inside the image has the box's size and the image's pixels at the offset |
| `Raster.PyCrop` | backend/main.py:219 | numpy slicing gives a crop whose sides are the clamped, end-relative slice lengths, and whose pixel (i, j) is the image's pixel at the resolved row and column starts plus (i, j) |
| `Raster.ClampedSliceLen` | backend/main.py:178 | for a non-negative start, clamping both bounds to the image does not change the slice length |
| `Detection.KeptBoxesMembers` | backend/main.py:152-183 | a raw box is kept exactly when the detector reported it, its clamped crop is at least 20 x 20, and brightness, saturation and mean intensity lie strictly inside (40,180), (30,140) and (30,180) |
| `Detection.KeptBoxesAppend` | backend/main.py:176-183 | filtering commutes with concatenation, so the kept boxes keep the detector's order |
| `Detection.KeptBoxesLength` | backend/main.py:176-183 | no more boxes are kept than were detected |
| `Detection.FilterDetections` | backend/main.py:174-183 | the inner loop's `valid_boxes` is exactly the filtered list |
| `Detection.DetectAndStoreBoxes` | backend/main.py:160-196 | the outer loop leaves the boxes directory, the annotation staging directory and `detection_results` as the fold over the listing gives them |
| `Detection.StagedForAnnotation` | backend/main.py:164-194 | exactly the listed readable tiles are staged for annotation, unchanged, whatever was detected in them |
| `Detection.BoxesKeys` | backend/main.py:185-187 | every boxes file is named after a listed readable tile with at least one surviving box |
| `Detection.BoxesStored` | backend/main.py:185-187 | a readable tile gets a boxes file exactly when a box survives, and the file holds exactly its survivors |
| `Detection.RecordsCountSurvivors` | backend/main.py:189-192 | every `detection_results` entry names a listed readable tile and counts its survivors, at least one |
| `Detection.RecordedIffSurvivors` | backend/main.py:185-192 | a tile has a `detection_results` entry exactly when it is listed, readable and has a surviving box |
| `Classification.Midpoint` | backend/main.py:233-234 | `a + (b - a) // 2` lies between a and b in either order |
| `Classification.MarkMeaning` | backend/main.py:232-238 | a mark is green exactly for Clean and red otherwise; its caption anchor is 30 left of a centre inside the box |
| `Classification.Draw` | backend/main.py:236-238 | drawing keeps the tile's size |
| `Classification.PanelIdInjective` | backend/main.py:241 | two panel ids are equal exactly when the tile names and the box positions are |
| `Classification.CropsAgree` | backend/main.py:219-222 | for a box starting inside the tile, the classifier's crop has the detector's clamped size, so it passes the size test again |
| `Classification.NegativeStartSkipped` | backend/main.py:219-222 | the box (-10, 0, 100, 100) on a 512 x 512 tile has a 100 x 100 detector crop but an empty classifier crop, so it is skipped |
| `Classification.ClassifyBoxes` | backend/main.py:217-247 | classifying a tile's boxes keeps the tile's size |
| `Classification.DrawnMarks` | backend/main.py:232-246 | the tile written back is the input tile with one mark per result drawn on it, in result order, each the result's `MarkFor` mark (green exactly for Clean) |
| `Classification.ClassifiableIndicesMeaning` | backend/main.py:217-222 | the positions classified are exactly those whose crop passes the size test, in increasing order |
| `Classification.TileResults` | backend/main.py:217-245 | result k of a tile is the k-th classifiable box, with the id made of the tile name and that box's position, and a label from the four class names |
| `Classification.TileIdsDistinct` | backend/main.py:241 | the results of one tile have distinct ids |
| `Classification.ClassifyTile` | backend/main.py:212-247 | the inner loop returns the drawn tile and the results the fold gives |
| `Classification.TileBoxesFile` | backend/main.py:186-206 | a tile name passes the extension test; replacing `.jpg` by `.json` and back gives the tile name again |
| `Classification.ClassifyDetectedPanels` | backend/main.py:198-252 | the outer loop leaves the annotation directory and the results as the fold over the listing gives them, stopping at the first missing tile |
| `Classification.CarryFailure` | backend/main.py:212-213 | once the stage has raised, the rest of the listing changes nothing |
| `Classification.ResultsOrigin` | backend/main.py:217-250 | every result is box i of some listed boxes file whose tile was staged, that box passes the 20 x 20 size test on that tile, its id is `tile_name_i` and its label one of the four class names |
| `Classification.ClassifiableReported` | backend/main.py:217-250 | conversely, when the stage does not raise, every box of a listed boxes file that passes the size test on its staged tile appears among the results with id `tile_name_i` |
| `Classification.ClassifiableByShape` | backend/main.py:219-222 | the size test depends on the tile's size only, so drawing never changes which boxes are classified |
| `Classification.IdFromOtherTile` | backend/main.py:241 | an id built from a tile name no listed file leads to is not among the results |
| `Classification.PanelIdsUnique` | backend/main.py:240-250 | when no two listed files lead to the same tile, no two results share an id |
| `Classification.AnnotatedShapes` | backend/main.py:236-247 | the stage keeps the set of staged tiles and each tile's size |
| `Classification.FailsIffMissing` | backend/main.py:206-213 | the stage raises exactly when some listed boxes file leads to a tile that was never staged |
| `Stitcher.Largest` | backend/main.py:257-258 | a column's maximum is one of its values and no value exceeds it |
| `Stitcher.CanvasCoversRows` | backend/main.py:257-258 | the canvas reaches at least as far as every metadata row's tile |
| `Stitcher.Paste` | backend/main.py:267 | the slice assignment overwrites exactly the tile's rectangle and leaves every other cell as it was |
| `Stitcher.FitsMeaning` | backend/main.py:267 | a tile inside the canvas can be assigned; a tile with a side longer than 1 that runs past the canvas edge makes the assignment raise |
| `Stitcher.BroadcastExample` | backend/main.py:257-267 | a 1 x 2 tile whose row starts below the canvas is broadcast into an empty slice: the stitch succeeds and the tile paints nothing |
| `Stitcher.PasteRow` | backend/main.py:261-267 | one pass of the loop pastes row k's tile when it is readable and the assignment goes through under numpy's broadcasting rule (each side equal to the target slice's or 1), and reports when it would raise |
| `Stitcher.PasteAll` | backend/main.py:261-267 | the loop succeeds exactly when every readable tile's assignment goes through under numpy's broadcasting rule, and every cell then holds what the last tile painting it put there |
| `Stitcher.Restitch` | backend/main.py:254-269 | a canvas of `max(x_start) + max(width)` by `max(y_start) + max(height)` is produced exactly when the table is non-empty and every readable tile's assignment goes through under numpy's broadcasting rule, holding the pasted tiles in order over black |
| `Stitcher.CellUncovered` | backend/main.py:259-267 | a cell no readable tile covers stays black |
| `Stitcher.CellFromLast` | backend/main.py:261-267 | a covered cell holds the pixel of the last readable tile covering it |
| `Stitcher.ExtentMeaning` | backend/main.py:257-258 | the canvas side for a tiled side n is at least n, and equals n exactly when n is at most 512 or a multiple of 512 |
| `Stitcher.GridCanvas` | backend/main.py:257-258 | the canvas of a tiled W x H image measures Extent(W) x Extent(H) |
| `Stitcher.GridTilesFit` | backend/main.py:257-267 | every tile the tiler wrote fits in the canvas sized from its metadata |
| `Stitcher.StitchRoundTrip` | backend/main.py:254-267 | stitching the tiler's own tiles gives the image in the top-left corner and black elsewhere |
| `Stitcher.StitchedInside` | backend/main.py:261-267 | each pixel of the image is painted last by the tile that holds that very pixel |
| `Stitcher.StitchRestoresImage` | backend/main.py:254-267 | when each side is at most 512 or a multiple of 512, the canvas is exactly the image |
| `Stitcher.ShapesDecide` | backend/main.py:261-267 | whether the stitch succeeds, and which tile paints which cell, depend only on the tiles' names and sizes |
| `Report.CountLabel` | backend/main.py:277 | a class count is at most the number of results |
| `Report.ClassCounts` | backend/main.py:275-277 | `class_counts` has a key for each of the four class names, zero counts included, mapped to that class's count |
| `Report.CountClasses` | backend/main.py:275-277 | the loop over the class names builds exactly that dictionary |
| `Report.CountsPartition` | backend/main.py:274-277 | the four counts sum to at most the total, and to the total exactly when every label is a class name |
| `Report.ReportAddsUp` | backend/main.py:274-277 | for classifier results the class counts add up to `total_panels` |
| `Report.Summary` | backend/main.py:283-286 | the Metric and Value columns both have six rows |
| `Report.SummaryRows` | backend/main.py:283-286 | the rows are the total, the four classes each with its own count, and the date, in that order |
| `Report.GenerateReport` | backend/main.py:271-298 | the summary returned is the total, the class counts and the output path; the workbook is the Summary sheet and the detailed results |
| `Gps.Coordinate` | backend/main.py:77-86 | a coordinate reads exactly when its key is present and holds three numbers, and is then d + m/60 + s/3600 |
| `Gps.NoPosition` | backend/main.py:81-83 | no position is returned exactly when the EXIF data is missing, empty or has no GPS entry |
| `Gps.PositionRead` | backend/main.py:84-91 | with a GPS entry, reading succeeds exactly when both coordinates are three numbers; each is negated exactly for "S" or "W" |
| `Gps.DegreesBounds` | backend/main.py:77-79 | with minutes and seconds in [0, 60), the decimal value lies in [d, d + 1 + 1/60) |
| `Gps.LatitudeSign` | backend/main.py:85-88 | for non-negative components the latitude is negative exactly when the reference is "S" and the value is non-zero |
| `Gps.LongitudeSign` | backend/main.py:86-90 | for non-negative components the longitude is negative exactly when the reference is "W" and the value is non-zero |
| `Scratch.Workspace.constructor` | backend/main.py:114-119 | a run starts from cleared scratch directories |
| `Pipeline.SplitextDropsExtension` | backend/main.py:309 | an upload name `stem.ext` has base name `stem` |
| `Pipeline.OutputName` | backend/main.py:331-332 | the URL of a file written under `outputs/` is its name under `/outputs/` |
| `Pipeline.DetectStage` | backend/main.py:322 | detection over the tiler's files stages only rectangular tiles |
| `Pipeline.StitchedImage` | backend/main.py:254-269 | the stitched canvas has the size computed from the metadata |
| `Pipeline.RunStages` | backend/main.py:319-323 | tiling, detection and classification over cleared directories give the classification stage's result and the tiler's metadata table |
| `Pipeline.StitchCanvas` | backend/main.py:324 | the stitch yields a canvas exactly when the tiles are stitchable, and it is the stitched image |
| `Pipeline.ProcessImage` | backend/main.py:300-342 | `process_image` returns exactly the outcome the stage-by-stage definition gives: a GPS error raised first, a processing failure from inside the `try`, or the report |
| `Pipeline.TiledName` | backend/main.py:137 | every file the tiler writes carries a tile name |
| `Pipeline.StagedTiles` | backend/main.py:164-194 | detection stages every tile the tiler wrote, unchanged, and nothing else |
| `Pipeline.BoxesOfTiles` | backend/main.py:186 | every boxes file ends in `.json` and leads back to a tile the tiler wrote |
| `Pipeline.StagedListing` | backend/main.py:202-206 | every listed boxes file leads to a staged tile, and no two lead to the same one |
| `Pipeline.ClassificationSucceeds` | backend/main.py:321-323 | on the detector's output, classification never raises, keeps every tile's size, gives distinct ids and labels from the four class names |
| `Pipeline.PipelineOutcome` | backend/main.py:315-340 | when the position reads, an image gets a report exactly when it has pixels, and otherwise the failure is a processing failure |
| `Pipeline.EmptyImageFails` | backend/main.py:321-324 | an image without pixels yields no tiles and the stitch raises |
| `Pipeline.Completes` | backend/main.py:319-337 | a non-empty image whose position reads gets the report assembled from the whole tile grid |
| `Pipeline.CanvasBorder` | backend/main.py:324 | the canvas of a non-empty image is Extent(H) x Extent(W) and black outside the image, whatever was drawn |
| `Pipeline.PipelineCanvas` | backend/main.py:324-334 | the report's canvas has that shape and that black border |
| `Pipeline.PipelineReport` | backend/main.py:317-337 | the report carries the position read, distinct panel ids, and class counts adding up to the panel total |
| `Pipeline.PipelineOutputs` | backend/main.py:309-332 | the report's file path and URLs are named after the upload without its extension |
| `Pipeline.AssembledNames` | backend/main.py:309-332 | the paths in the assembled dictionary are derived from the base name alone |
| `Pipeline.NoBoxesFiles` | backend/main.py:202-204 | when no box survives, classification has nothing to do and leaves the tiles as the tiler wrote them |
| `Pipeline.NothingDetected` | backend/main.py:319-337 | when no box survives, no panel is reported and the canvas is the image padded with black |
| `Upload.UploadResponse` | backend/main.py:348-349 | an empty upload is answered 400 "No files uploaded", and only an empty one |
| `Upload.HandleFile` | backend/main.py:363-375 | one accepted file gives its report with its name, or a failure entry with its name and fault |
| `Upload.ProcessUpload` | backend/main.py:345-377 | the handler's response is exactly the one the fold over the files gives |
| `Upload.AcceptedIndicesMeaning` | backend/main.py:353-355 | the accepted files are exactly those with a `.jpg`, `.jpeg` or `.png` extension in any case, in upload order |
| `Upload.EntriesFollowUploads` | backend/main.py:353-375 | there is one entry per accepted file, in upload order, each that file's outcome |
| `Upload.EntryNames` | backend/main.py:366-375 | every entry carries the name of an accepted file |
| `Upload.NoImagesNoResults` | backend/main.py:351-377 | a non-empty upload with no image files is answered with an empty list, not an error |
| `Upload.EntryOutcome` | backend/main.py:363-375 | an entry is a report exactly when the file decodes, has pixels and its position reads; otherwise it records why it failed |

## Left out

- Neural networks. The detector (with its confidence and overlap thresholds), the classifier, the torch transforms and the softmax are function parameters. So is the confidence value. Their numerics are foreign code.
- Colour statistics. The BGR-to-HSV conversion and the float means behind `is_likely_panel` are a parameter returning the three averages. Only the interval test is modelled.
- Drawing. The pixels `cv2.rectangle` and `cv2.putText` draw are an opaque per-pixel function of the mark. Only the colour, the caption and its anchor are modelled. The caption's number formatting (`{:.2f}`) is not.
- The filesystem. Files are modelled as maps from names to contents: images, boxes lists and the metadata table. Not modelled:
  - JSON and CSV encoding;
  - the `tile_metadata.csv` file itself appearing in the tile directory's listing (it fails the extension test either way);
  - I/O errors;
  - saving the upload to disk.
- Directory order. `sorted(os.listdir(...))` is a parameter that lists each file once. Sorting by name is not modelled, so every property holds for any listing order.
- Decoding. Image decoding and encoding are not modelled. JPEG loss on saving tiles and the canvas is not modelled: a tile reads back as its exact crop. An uploaded file either decodes to a rectangular pixel array or counts as undecodable.
- Channel order. The classifier's `img[:, :, ::-1]` channel reversal is folded into the classifier parameter.
- `get_exif_data` and PIL's tag tables are not part of this model. The EXIF data arrives already decoded as a dictionary.
- A non-dictionary "GPSInfo" value. The `OtherTag` case under that key, and its `NotADictionary` error, stand for no path of the source: `get_exif_data` always stores a dictionary there. The case is kept because the EXIF dictionary's value type also carries the other tags.
- GPS values. A GPS value is a sequence of numbers or a text. Python's unpacking of a three-character string into d, m, s is not modelled; it counts as not three numbers.
- Report writing. The Excel writer, the sheet names and the `datetime.now()` call are left out. The date string is a parameter.
- Error messages. Exception texts are replaced by the `Fault` kinds, and `HTTPException` status 500 by `ProcessingFailed`.
- `load_models`: lazy loading of the networks is replaced by the parameters themselves.
- FastAPI. App setup, CORS, the static mount, the `/download` and `/health` endpoints, the React frontend and the start scripts are outside the core.
- Lower-casing. `str.lower` is modelled for ASCII letters only.
- Paths. `os.path.join`, `splitext` and `basename` are modelled for `/`-separated relative names. Upload names that are absolute paths are not modelled.
- Concurrency between requests sharing the scratch directories is not modelled.
- Pipeline.ProcessImage: the returned dictionary's `success: True` flag is implied by the `Done` outcome rather than stored.
- Upload.EntryOutcome: the failure entry records the fault kind, not the exception's message text.
