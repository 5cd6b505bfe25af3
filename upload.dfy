/** The `/process-upload` endpoint: every uploaded file with an image
    extension is run through the pipeline on its own, and its report or its
    error becomes one entry of the response, in upload order. */
module Upload {
  import opened Text
  import opened Raster
  import opened Gps
  import opened Pipeline

  /** An uploaded file's bytes as the image library sees them: a decoded
      picture with its EXIF data, or something it cannot open. */
  datatype Content = Picture(pixels: Raster, exif: Option<map<string, ExifEntry>>) | NotAPicture

  datatype UploadFile = UploadFile(filename: string, content: Content)

  /** One element of `results`: the pipeline's dictionary with the file's
      name in front, or `success: False` with the error. */
  datatype Entry = Processed(filename: string, report: ImageReport) | Failed(filename: string, fault: Fault)

  datatype Response = BadRequest(status: nat, detail: string) | Results(results: seq<Entry>)

  /** The content opens as an image (decoded arrays are rectangular). */
  predicate Decodes(c: Content)
  {
    c.Picture? && Rectangular(c.pixels)
  }

  /** What `process_image` does with one saved upload. */
  function ImageOutcome(c: Content, name: string, m: Models, timestamp: string): Outcome
    requires ListsDirectories(m)
  {
    if Decodes(c) then RunPipeline(c.pixels, c.exif, name, m, timestamp) else Raised(Undecodable)
  }

  /** The entry appended for one accepted file. */
  function EntryFor(f: UploadFile, m: Models, timestamp: string): Entry
    requires ListsDirectories(m)
  {
    var o := ImageOutcome(f.content, f.filename, m, timestamp);
    if o.Done? then Processed(f.filename, o.report) else Failed(f.filename, o.fault)
  }

  /** The loop over the uploaded files: a file without an image extension is
      skipped; `clock(k)` is the date the report of file `k` records. */
  function Entries(files: seq<UploadFile>, m: Models, clock: nat -> string): seq<Entry>
    requires ListsDirectories(m)
    decreases |files|
  {
    if files == [] then []
    else
      var k := |files| - 1;
      Entries(files[..k], m, clock)
      + (if HasImageExtension(files[k].filename) then [EntryFor(files[k], m, clock(k))] else [])
  }

  /** The endpoint's answer: an empty upload is a 400, anything else a list
      of entries (possibly empty). */
  function UploadResponse(files: seq<UploadFile>, m: Models, clock: nat -> string): (r: Response)
    requires ListsDirectories(m)
    ensures r.BadRequest? <==> files == []
    ensures r.BadRequest? ==> r.status == 400 && r.detail == "No files uploaded"
  {
    if files == [] then BadRequest(400, "No files uploaded") else Results(Entries(files, m, clock))
  }

  /** One pass of the loop: process the file and record the outcome. */
  method HandleFile(f: UploadFile, m: Models, timestamp: string) returns (entry: Entry)
    requires ListsDirectories(m)
    ensures entry == EntryFor(f, m, timestamp)
  {
    var outcome: Outcome;
    if Decodes(f.content) {
      outcome := ProcessImage(f.content.pixels, f.content.exif, f.filename, m, timestamp);
    } else {
      outcome := Raised(Undecodable);
    }
    if outcome.Done? {
      entry := Processed(f.filename, outcome.report);
    } else {
      entry := Failed(f.filename, outcome.fault);
    }
  }

  /** `process_upload` */
  method ProcessUpload(files: seq<UploadFile>, m: Models, clock: nat -> string) returns (response: Response)
    requires ListsDirectories(m)
    ensures response == UploadResponse(files, m, clock)
  {
    if |files| == 0 {
      return BadRequest(400, "No files uploaded");
    }
    var results: seq<Entry> := [];
    for k := 0 to |files|
      invariant results == Entries(files[..k], m, clock)
    {
      assert files[..k + 1][..k] == files[..k];
      if HasImageExtension(files[k].filename) {
        var entry := HandleFile(files[k], m, clock(k));
        results := results + [entry];
      }
    }
    assert files[..|files|] == files;
    return Results(results);
  }

  // ---------------------------------------------------------------------------
  // Properties

  /** The positions of the files with an image extension, in order. */
  function AcceptedIndices(files: seq<UploadFile>): seq<nat>
    decreases |files|
  {
    if files == [] then []
    else
      var k := |files| - 1;
      AcceptedIndices(files[..k]) + (if HasImageExtension(files[k].filename) then [k] else [])
  }

  /** The accepted positions are exactly the positions of files with an
      image extension, strictly increasing. */
  lemma {:induction false} AcceptedIndicesMeaning(files: seq<UploadFile>)
    ensures forall j :: 0 <= j < |AcceptedIndices(files)| ==> AcceptedIndices(files)[j] < |files|
    ensures forall j, l :: 0 <= j < l < |AcceptedIndices(files)| ==> AcceptedIndices(files)[j] < AcceptedIndices(files)[l]
    ensures forall i: nat :: i in AcceptedIndices(files) <==> i < |files| && HasImageExtension(files[i].filename)
    decreases |files|
  {
    if files != [] {
      var n := |files| - 1;
      var prefix := files[..n];
      AcceptedIndicesMeaning(prefix);
      var idx0, idx := AcceptedIndices(prefix), AcceptedIndices(files);
      assert idx == idx0 + (if HasImageExtension(files[n].filename) then [n] else []);
      forall i: nat ensures i in idx <==> i < |files| && HasImageExtension(files[i].filename) {
        if i < n {
          assert prefix[i] == files[i];
        }
      }
    }
  }

  /** The entries are exactly one per accepted file, in upload order: entry
      `j` is the outcome of the file at position `AcceptedIndices(files)[j]`,
      processed with the date `clock` gives for that position. */
  lemma {:induction false} EntriesFollowUploads(files: seq<UploadFile>, m: Models, clock: nat -> string)
    requires ListsDirectories(m)
    ensures |Entries(files, m, clock)| == |AcceptedIndices(files)|
    ensures forall j :: 0 <= j < |AcceptedIndices(files)| ==>
              AcceptedIndices(files)[j] < |files|
              && Entries(files, m, clock)[j]
                 == EntryFor(files[AcceptedIndices(files)[j]], m, clock(AcceptedIndices(files)[j]))
    decreases |files|
  {
    if files != [] {
      var n := |files| - 1;
      var prefix := files[..n];
      EntriesFollowUploads(prefix, m, clock);
      AcceptedIndicesMeaning(prefix);
      var before, idx0 := Entries(prefix, m, clock), AcceptedIndices(prefix);
      var after, idx := Entries(files, m, clock), AcceptedIndices(files);
      assert idx == idx0 + (if HasImageExtension(files[n].filename) then [n] else []);
      assert after == before + (if HasImageExtension(files[n].filename) then [EntryFor(files[n], m, clock(n))] else []);
      forall j | 0 <= j < |idx0| ensures idx[j] == idx0[j] && after[j] == before[j] && prefix[idx0[j]] == files[idx0[j]] { }
    }
  }

  /** Every entry carries the name of an accepted file. */
  lemma EntryNames(files: seq<UploadFile>, m: Models, clock: nat -> string, j: nat)
    requires ListsDirectories(m)
    requires j < |Entries(files, m, clock)|
    ensures exists i :: 0 <= i < |files| && HasImageExtension(files[i].filename)
                        && Entries(files, m, clock)[j].filename == files[i].filename
  {
    EntriesFollowUploads(files, m, clock);
    AcceptedIndicesMeaning(files);
    var i := AcceptedIndices(files)[j];
    assert i in AcceptedIndices(files);
  }

  /** An upload with no image among its files is answered with an empty list
      rather than an error. */
  lemma {:induction false} NoImagesNoResults(files: seq<UploadFile>, m: Models, clock: nat -> string)
    requires ListsDirectories(m)
    requires forall i :: 0 <= i < |files| ==> !HasImageExtension(files[i].filename)
    ensures Entries(files, m, clock) == []
    ensures files != [] ==> UploadResponse(files, m, clock) == Results([])
    decreases |files|
  {
    if files != [] {
      var prefix := files[..|files| - 1];
      assert forall i :: 0 <= i < |prefix| ==> prefix[i] == files[i];
      NoImagesNoResults(prefix, m, clock);
    }
  }

  /** A file's entry is a report exactly when the file opens as an image
      that has pixels and whose position is absent or readable; otherwise
      the entry says why it failed. */
  lemma EntryOutcome(f: UploadFile, m: Models, timestamp: string)
    requires ListsDirectories(m)
    ensures EntryFor(f, m, timestamp).filename == f.filename
    ensures EntryFor(f, m, timestamp).Processed? <==>
              Decodes(f.content) && Width(f.content.pixels) > 0 && Height(f.content.pixels) > 0
              && GetLatLon(f.content.exif).Success?
    ensures !Decodes(f.content) ==> EntryFor(f, m, timestamp) == Failed(f.filename, Undecodable)
    ensures Decodes(f.content) && GetLatLon(f.content.exif).Failure? ==>
              EntryFor(f, m, timestamp) == Failed(f.filename, GpsUnreadable(GetLatLon(f.content.exif).error))
  {
    if Decodes(f.content) && GetLatLon(f.content.exif).Success? {
      PipelineOutcome(f.content.pixels, f.content.exif, f.filename, m, timestamp);
    }
  }
}
