/** The batch pipeline: per photo, HEIC conversion, compression and GPS
    writing; over the batch, the filter to tagged photos, progress reports and
    the result map in which failures are simply absent. */
module ImageProcessing {
  import opened Wrappers
  import opened Types
  import opened HeicConverter
  import opened ExifWriter

  /** The options `compressImage` passes to browser-image-compression. */
  datatype CompressionOptions = CompressionOptions(
    maxSizeMB: real, maxWidthOrHeight: nat, useWebWorker: bool, fileType: string, initialQuality: real)

  const CompressionSettings: CompressionOptions := CompressionOptions(1.5, 1200, true, "image/jpeg", 0.85)

  /** The codecs of the pipeline, each an oracle that may fail. */
  datatype Codecs = Codecs(
    heic2any: HeicRequest -> HeicOutput,
    imageCompression: (Blob, CompressionOptions) -> Result<Blob, string>,
    exif: ExifCodec)

  /** `compressImage`: the codec called with the fixed settings. */
  function CompressImage(blob: Blob, codecs: Codecs): Result<Blob, string> {
    codecs.imageCompression(blob, CompressionSettings)
  }

  /** The stages of `processPhoto`, in the order they are attempted. */
  datatype Stage = HeicConversion | Compression | GpsWrite

  /** The stages a photo goes through when none of them fails. */
  function PlannedStages(photo: Photo): seq<Stage> {
    (if IsHeic(photo.file) then [HeicConversion] else [])
    + [Compression]
    + (if photo.coordinates.Some? then [GpsWrite] else [])
  }

  /** The stages attempted and the outcome of one `processPhoto` call. */
  datatype Run = Run(stages: seq<Stage>, output: Result<Blob, string>)

  /** The blob handed to compression: the HEIC conversion of a HEIC file,
      the file's own blob otherwise. */
  function Converted(photo: Photo, codecs: Codecs): Result<Blob, string> {
    if IsHeic(photo.file) then ConvertHeicToJpeg(photo.file, codecs.heic2any) else Ok(photo.file.blob)
  }

  /** `processPhoto`: convert, compress, then write GPS data when the photo
      has coordinates; the first failing stage ends the run. */
  function ProcessPhoto(photo: Photo, codecs: Codecs): Run {
    var converted := Converted(photo, codecs);
    var before := if IsHeic(photo.file) then [HeicConversion] else [];
    if converted.Err? then Run(before, Err(converted.error))
    else
      var compressed := CompressImage(converted.value, codecs);
      if compressed.Err? then Run(before + [Compression], Err(compressed.error))
      else if photo.coordinates.Some? then
        Run(before + [Compression, GpsWrite], WriteGpsExif(compressed.value, photo.coordinates.value, codecs.exif))
      else Run(before + [Compression], compressed)
  }

  /** What one `processPhoto` run promises. Conversion is attempted exactly
      for HEIC files and compression exactly once conversion did not fail;
      the GPS write exactly for photos with coordinates whose compression
      succeeded. A run succeeds only after every planned stage, and a run
      that wrote GPS data yields a JPEG. */
  lemma ProcessPhotoStages(photo: Photo, codecs: Codecs)
    ensures var run := ProcessPhoto(photo, codecs);
      && |run.stages| >= 1 && run.stages <= PlannedStages(photo)
      && (run.stages[0] == HeicConversion <==> IsHeic(photo.file))
      && (run.output.Ok? ==> run.stages == PlannedStages(photo))
      && (Compression in run.stages <==> Converted(photo, codecs).Ok?)
      && (GpsWrite in run.stages <==>
            photo.coordinates.Some? && Converted(photo, codecs).Ok?
            && CompressImage(Converted(photo, codecs).value, codecs).Ok?)
      && (run.output.Ok? && photo.coordinates.Some? ==> run.output.value.mimeType == "image/jpeg")
  {
  }

  /** What a run outputs: the GPS write of the compressed blob for a photo
      with coordinates, the compressed blob itself for one without. */
  lemma ProcessPhotoOutput(photo: Photo, codecs: Codecs)
    requires Converted(photo, codecs).Ok?
    ensures var compressed := CompressImage(Converted(photo, codecs).value, codecs);
      && (compressed.Ok? && photo.coordinates.Some? ==>
            ProcessPhoto(photo, codecs).output
            == WriteGpsExif(compressed.value, photo.coordinates.value, codecs.exif))
      && (photo.coordinates.None? ==> ProcessPhoto(photo, codecs).output == compressed)
  {
  }

  predicate Succeeds(photo: Photo, codecs: Codecs) {
    ProcessPhoto(photo, codecs).output.Ok?
  }

  /** The result map after attempting `attempted` in order: each success sets
      its photo's id, a later success overriding an earlier one. */
  function Collect(attempted: seq<Photo>, codecs: Codecs): map<string, Blob>
  {
    if attempted == [] then map[]
    else
      var prior := Collect(attempted[..|attempted| - 1], codecs);
      var photo := attempted[|attempted| - 1];
      if ProcessPhoto(photo, codecs).output.Ok? then prior[photo.id := ProcessPhoto(photo, codecs).output.value] else prior
  }

  /** What `processAllPhotos` resolves to. */
  function ProcessedResults(photos: seq<Photo>, codecs: Codecs): map<string, Blob> {
    Collect(Tagged(photos), codecs)
  }

  /** An id is a key exactly when some attempted photo with that id succeeded. */
  lemma {:induction false} CollectKeys(attempted: seq<Photo>, codecs: Codecs, id: string)
    ensures id in Collect(attempted, codecs) <==>
      exists i :: 0 <= i < |attempted| && attempted[i].id == id && ProcessPhoto(attempted[i], codecs).output.Ok?
  {
    if attempted != [] {
      var n := |attempted| - 1;
      var init := attempted[..n];
      CollectKeys(init, codecs, id);
      assert forall i :: 0 <= i < n ==> init[i] == attempted[i];
      if id in Collect(attempted, codecs) && !(attempted[n].id == id && ProcessPhoto(attempted[n], codecs).output.Ok?) {
        var i :| 0 <= i < n && init[i].id == id && ProcessPhoto(init[i], codecs).output.Ok?;
        assert attempted[i] == init[i];
      }
    }
  }

  /** Every value is the output of a successful attempt on a photo with that id. */
  lemma {:induction false} CollectValues(attempted: seq<Photo>, codecs: Codecs, id: string)
    requires id in Collect(attempted, codecs)
    ensures exists i :: 0 <= i < |attempted| && attempted[i].id == id &&
                        ProcessPhoto(attempted[i], codecs).output == Ok(Collect(attempted, codecs)[id])
  {
    var n := |attempted| - 1;
    var photo := attempted[n];
    var init := attempted[..n];
    if photo.id == id && ProcessPhoto(photo, codecs).output.Ok? {
      assert attempted[n].id == id;
    } else {
      CollectValues(init, codecs, id);
      var i :| 0 <= i < |init| && init[i].id == id
        && ProcessPhoto(init[i], codecs).output == Ok(Collect(init, codecs)[id]);
      assert attempted[i] == init[i];
    }
  }

  /** No more entries than attempts. */
  lemma {:induction false} CollectSize(attempted: seq<Photo>, codecs: Codecs)
    ensures |Collect(attempted, codecs)| <= |attempted|
  {
    if attempted != [] {
      CollectSize(attempted[..|attempted| - 1], codecs);
    }
  }

  /** With distinct ids, each successful photo's own output is stored under its id. */
  lemma {:induction false} CollectDistinct(attempted: seq<Photo>, codecs: Codecs, i: nat)
    requires forall j, k :: 0 <= j < k < |attempted| ==> attempted[j].id != attempted[k].id
    requires i < |attempted| && ProcessPhoto(attempted[i], codecs).output.Ok?
    ensures attempted[i].id in Collect(attempted, codecs)
    ensures Collect(attempted, codecs)[attempted[i].id] == ProcessPhoto(attempted[i], codecs).output.value
  {
    var n := |attempted| - 1;
    if i < n {
      var init := attempted[..n];
      CollectDistinct(init, codecs, i);
      assert init[i] == attempted[i];
    }
  }

  /** Every key of the result of `processAllPhotos` is the id of a tagged
      photo that processed successfully. */
  lemma ProcessedResultsKeysSound(photos: seq<Photo>, codecs: Codecs, id: string)
    requires id in ProcessedResults(photos, codecs)
    ensures exists p :: p in photos && p.coordinates.Some? && p.id == id && Succeeds(p, codecs)
  {
    var tagged := Tagged(photos);
    CollectKeys(tagged, codecs, id);
    var i :| 0 <= i < |tagged| && tagged[i].id == id && Succeeds(tagged[i], codecs);
    assert tagged[i] in tagged;
  }

  /** Every tagged photo that processes successfully leaves its id as a key. */
  lemma ProcessedResultsKeysComplete(photos: seq<Photo>, codecs: Codecs, p: Photo)
    requires p in photos && p.coordinates.Some? && Succeeds(p, codecs)
    ensures p.id in ProcessedResults(photos, codecs)
  {
    var tagged := Tagged(photos);
    assert p in tagged;
    var i :| 0 <= i < |tagged| && tagged[i] == p;
    CollectKeys(tagged, codecs, p.id);
  }

  /** The result of `processAllPhotos` is keyed by exactly the tagged photos
      that processed successfully, and has at most one entry per tagged photo. */
  lemma ProcessedResultsKeys(photos: seq<Photo>, codecs: Codecs, id: string)
    ensures |ProcessedResults(photos, codecs)| <= |Tagged(photos)|
    ensures id in ProcessedResults(photos, codecs) <==>
      exists p :: p in photos && p.coordinates.Some? && p.id == id && Succeeds(p, codecs)
  {
    CollectSize(Tagged(photos), codecs);
    if id in ProcessedResults(photos, codecs) {
      ProcessedResultsKeysSound(photos, codecs, id);
    }
    if exists p :: p in photos && p.coordinates.Some? && p.id == id && Succeeds(p, codecs) {
      var p :| p in photos && p.coordinates.Some? && p.id == id && Succeeds(p, codecs);
      ProcessedResultsKeysComplete(photos, codecs, p);
    }
  }

  /** Every blob in the result of `processAllPhotos` is the output of a run
      on a tagged photo with that id, a run that wrote GPS data, and so a JPEG. */
  lemma ProcessedResultsAreJpeg(photos: seq<Photo>, codecs: Codecs, id: string)
    requires id in ProcessedResults(photos, codecs)
    ensures ProcessedResults(photos, codecs)[id].mimeType == "image/jpeg"
    ensures exists p ::
      && p in photos && p.id == id && p.coordinates.Some?
      && ProcessPhoto(p, codecs).output == Ok(ProcessedResults(photos, codecs)[id])
      && GpsWrite in ProcessPhoto(p, codecs).stages
  {
    var tagged := Tagged(photos);
    CollectValues(tagged, codecs, id);
    var i :| 0 <= i < |tagged| && tagged[i].id == id
      && ProcessPhoto(tagged[i], codecs).output == Ok(ProcessedResults(photos, codecs)[id]);
    assert tagged[i] in tagged;
    ProcessPhotoStages(tagged[i], codecs);
  }

  /** With no tagged photo nothing is attempted and the result is empty. */
  lemma {:induction false} NoTaggedNoResults(photos: seq<Photo>, codecs: Codecs)
    requires forall p :: p in photos ==> p.coordinates.None?
    ensures Tagged(photos) == [] && ProcessedResults(photos, codecs) == map[]
  {
    if photos != [] {
      NoTaggedNoResults(photos[1..], codecs);
    }
  }

  /** What `processAllPhotos` does that its caller can observe, in order: a
      progress report `(current, total)` before each attempt, and the attempt. */
  datatype Event = Progress(current: nat, total: nat) | Attempted(id: string, succeeded: bool)

  /** The events of attempting `attempted` in order, out of `total`. */
  function BatchTrace(attempted: seq<Photo>, codecs: Codecs, total: nat): seq<Event> {
    if attempted == [] then []
    else
      var n := |attempted| - 1;
      BatchTrace(attempted[..n], codecs, total)
      + [Progress(n + 1, total), Attempted(attempted[n].id, ProcessPhoto(attempted[n], codecs).output.Ok?)]
  }

  /** The trace alternates reports and attempts: report `(i + 1, total)` sits
      just before the attempt on the i-th photo. */
  lemma {:induction false} BatchTraceShape(attempted: seq<Photo>, codecs: Codecs, total: nat)
    ensures |BatchTrace(attempted, codecs, total)| == 2 * |attempted|
    ensures forall i :: 0 <= i < |attempted| ==>
      BatchTrace(attempted, codecs, total)[2 * i] == Progress(i + 1, total) &&
      BatchTrace(attempted, codecs, total)[2 * i + 1] == Attempted(attempted[i].id, ProcessPhoto(attempted[i], codecs).output.Ok?)
  {
    if attempted != [] {
      var n := |attempted| - 1;
      var init := attempted[..n];
      BatchTraceShape(init, codecs, total);
      forall i | 0 <= i < n
        ensures init[i] == attempted[i]
      {
      }
    }
  }

  /** One more attempt extends the result map and the trace by that attempt. */
  lemma StepExtends(attempted: seq<Photo>, codecs: Codecs, total: nat, i: nat)
    requires i < |attempted|
    ensures Collect(attempted[..i + 1], codecs) ==
      (if ProcessPhoto(attempted[i], codecs).output.Ok? then Collect(attempted[..i], codecs)[attempted[i].id := ProcessPhoto(attempted[i], codecs).output.value]
       else Collect(attempted[..i], codecs))
    ensures BatchTrace(attempted[..i + 1], codecs, total) ==
      BatchTrace(attempted[..i], codecs, total)
      + [Progress(i + 1, total), Attempted(attempted[i].id, ProcessPhoto(attempted[i], codecs).output.Ok?)]
  {
    assert attempted[..i + 1][..i] == attempted[..i];
  }

  /** `processAllPhotos`: the tagged photos are attempted one at a time in their
      original order, each preceded by its progress report; a failure is
      swallowed and only leaves its photo out of the results. */
  method ProcessAllPhotos(photos: seq<Photo>, codecs: Codecs)
    returns (results: map<string, Blob>, trace: seq<Event>)
    ensures results == ProcessedResults(photos, codecs)
    ensures trace == BatchTrace(Tagged(photos), codecs, |Tagged(photos)|)
    ensures |trace| == 2 * |Tagged(photos)|
    ensures forall i :: 0 <= i < |Tagged(photos)| ==>
      trace[2 * i] == Progress(i + 1, |Tagged(photos)|) &&
      trace[2 * i + 1] == Attempted(Tagged(photos)[i].id, Succeeds(Tagged(photos)[i], codecs))
    ensures |results| <= |Tagged(photos)|
  {
    results := map[];
    trace := [];
    var photosWithCoords := Tagged(photos);
    var total := |photosWithCoords|;
    for i := 0 to total
      invariant results == Collect(photosWithCoords[..i], codecs)
      invariant trace == BatchTrace(photosWithCoords[..i], codecs, total)
    {
      var photo := photosWithCoords[i];
      StepExtends(photosWithCoords, codecs, total, i);
      trace := trace + [Progress(i + 1, total)];
      var run := ProcessPhoto(photo, codecs);
      if run.output.Ok? {
        results := results[photo.id := run.output.value];
      }
      trace := trace + [Attempted(photo.id, run.output.Ok?)];
    }
    assert photosWithCoords[..total] == photosWithCoords;
    BatchTraceShape(photosWithCoords, codecs, total);
    CollectSize(photosWithCoords, codecs);
  }
}
