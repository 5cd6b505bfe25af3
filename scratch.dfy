/** The per-run scratch directories the stages hand their work through. They
    are cleared at the start of every run, then filled and overwritten in
    place by the stages. */
module Scratch {
  import opened Raster

  class Workspace {
    /** The tile directory: each saved tile image, by file name. */
    var tileDir: map<string, Raster>
    /** `tile_metadata.csv` in the tile directory, as a table of fields. */
    var metadata: seq<seq<string>>
    /** The boxes directory: the JSON list of kept boxes, by file name. */
    var boxesDir: map<string, seq<Box>>
    /** The annotation staging directory: tile images, by file name. */
    var annotatedDir: map<string, Raster>

    /** A run starts from cleared directories. */
    constructor ()
      ensures tileDir == map[] && metadata == [] && boxesDir == map[] && annotatedDir == map[]
    {
      tileDir, metadata, boxesDir, annotatedDir := map[], [], map[], map[];
    }
  }
}
