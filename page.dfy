/** The application's top-level state machine: the upload filter, photo
    creation, coordinate edits, navigation, the processing run and the
    archive download. */
module App {
  import opened Wrappers
  import opened Text
  import opened Types
  import opened HeicConverter
  import opened ImageProcessing
  import opened ZipGenerator
  import opened EditorScreen

  // ---------------------------------------------------------------------------
  // Upload filter and photo creation
  // ---------------------------------------------------------------------------

  /** The upload filter's test for one file. */
  predicate IsAcceptedUpload(file: File) {
    || file.blob.mimeType == "image/jpeg"
    || file.blob.mimeType == "image/png"
    || file.blob.mimeType == "image/heic"
    || file.blob.mimeType == "image/heif"
    || EndsWith(Lower(file.name), ".heic")
    || EndsWith(Lower(file.name), ".heif")
  }

  /** The upload filter accepts JPEG and PNG by media type, and exactly the
      files the HEIC test recognises. */
  lemma AcceptedIffJpegPngOrHeic(file: File)
    ensures IsAcceptedUpload(file) <==>
      file.blob.mimeType == "image/jpeg" || file.blob.mimeType == "image/png" || IsHeic(file)
  {
  }

  /** The files the upload filter keeps, in their original order. */
  function AcceptedFiles(files: seq<File>): (r: seq<File>)
    ensures |r| <= |files|
    ensures forall f :: f in r <==> f in files && IsAcceptedUpload(f)
  {
    if files == [] then []
    else
      assert files == [files[0]] + files[1..];
      (if IsAcceptedUpload(files[0]) then [files[0]] else []) + AcceptedFiles(files[1..])
  }

  /** Filtering commutes with concatenation: the accepted files keep their order. */
  lemma {:induction false} AcceptedFilesAppend(a: seq<File>, b: seq<File>)
    ensures AcceptedFiles(a + b) == AcceptedFiles(a) + AcceptedFiles(b)
  {
    if a == [] {
      assert a + b == b;
    } else {
      assert (a + b)[0] == a[0];
      assert (a + b)[1..] == a[1..] + b;
      AcceptedFilesAppend(a[1..], b);
    }
  }

  /** One new photo per accepted file, in file order: its id from the id
      source, the file's own name, no coordinates, pending. */
  function CreatePhotos(valid: seq<File>, generateId: nat -> string): (photos: seq<Photo>)
    ensures |photos| == |valid|
    ensures forall i :: 0 <= i < |valid| ==>
      photos[i].file == valid[i] && photos[i].name == valid[i].name &&
      photos[i].id == generateId(i) && photos[i].coordinates == None && photos[i].status == Pending
  {
    seq(|valid|, i requires 0 <= i < |valid| => Photo(generateId(i), valid[i], valid[i].name, None, Pending))
  }

  /** A fresh batch has no tagged photo, so it cannot be processed yet. */
  lemma FreshPhotosUntagged(valid: seq<File>, generateId: nat -> string)
    ensures Tagged(CreatePhotos(valid, generateId)) == []
    ensures !CanProcess(CreatePhotos(valid, generateId))
  {
    var photos := CreatePhotos(valid, generateId);
    CanProcessIffSomeTagged(photos);
  }

  /** The blob a photo's preview is made from: the HEIC conversion when it
      succeeds, the file itself otherwise. */
  function PreviewBlob(file: File, heic2any: HeicRequest -> HeicOutput): (b: Blob)
    ensures !IsHeic(file) ==> b == file.blob
    ensures IsHeic(file) && heic2any(JpegRequest(file)).Threw? ==> b == file.blob
    ensures IsHeic(file) && !heic2any(JpegRequest(file)).Threw? ==> b == ConvertHeicToJpeg(file, heic2any).value
  {
    if IsHeic(file) then
      match ConvertHeicToJpeg(file, heic2any)
      case Ok(converted) => converted
      case Err(_) => file.blob
    else file.blob
  }

  /** The photo-creation step of `handleFilesSelected`, one file at a time:
      the new photos and the blobs their previews are made from. */
  method CreateBatch(validFiles: seq<File>, heic2any: HeicRequest -> HeicOutput, generateId: nat -> string)
    returns (newPhotos: seq<Photo>, previews: seq<Blob>)
    ensures newPhotos == CreatePhotos(validFiles, generateId)
    ensures |previews| == |validFiles|
    ensures forall i :: 0 <= i < |validFiles| ==> previews[i] == PreviewBlob(validFiles[i], heic2any)
  {
    newPhotos := [];
    previews := [];
    for i := 0 to |validFiles|
      invariant |newPhotos| == i && |previews| == i
      invariant forall k :: 0 <= k < i ==>
        newPhotos[k] == Photo(generateId(k), validFiles[k], validFiles[k].name, None, Pending)
      invariant forall k :: 0 <= k < i ==> previews[k] == PreviewBlob(validFiles[k], heic2any)
    {
      var file := validFiles[i];
      var previewBlob := file.blob;
      if IsHeic(file) {
        var converted := ConvertHeicToJpeg(file, heic2any);
        if converted.Ok? {
          previewBlob := converted.value;
        } else {
          previewBlob := file.blob;
        }
      }
      previews := previews + [previewBlob];
      newPhotos := newPhotos + [Photo(generateId(i), file, file.name, None, Pending)];
    }
  }

  // ---------------------------------------------------------------------------
  // Coordinate edits and navigation
  // ---------------------------------------------------------------------------

  /** The coordinate edit: every photo with the given id gets the new
      coordinates, every other photo is kept as it is. */
  function SetCoordinates(photos: seq<Photo>, photoId: string, coords: Coordinates): (r: seq<Photo>)
    ensures |r| == |photos|
    ensures forall i :: 0 <= i < |photos| && photos[i].id != photoId ==> r[i] == photos[i]
    ensures forall i :: 0 <= i < |photos| && photos[i].id == photoId ==>
      r[i].coordinates == Some(coords) &&
      r[i].id == photos[i].id && r[i].file == photos[i].file &&
      r[i].name == photos[i].name && r[i].status == photos[i].status
  {
    if photos == [] then []
    else
      var p := photos[0];
      [if p.id == photoId then p.(coordinates := Some(coords)) else p] + SetCoordinates(photos[1..], photoId, coords)
  }

  /** Setting coordinates never untags a photo, and tagging a photo that is
      in the list makes the batch processable. */
  lemma {:induction false} SetCoordinatesTags(photos: seq<Photo>, photoId: string, coords: Coordinates)
    ensures TaggedCount(SetCoordinates(photos, photoId, coords)) >= TaggedCount(photos)
    ensures (exists i :: 0 <= i < |photos| && photos[i].id == photoId) ==>
      CanProcess(SetCoordinates(photos, photoId, coords))
  {
    var r := SetCoordinates(photos, photoId, coords);
    if photos != [] {
      SetCoordinatesTags(photos[1..], photoId, coords);
      assert r == [r[0]] + r[1..] && photos == [photos[0]] + photos[1..];
      TaggedAppend([r[0]], r[1..]);
      TaggedAppend([photos[0]], photos[1..]);
      if exists i :: 0 <= i < |photos| && photos[i].id == photoId {
        var i :| 0 <= i < |photos| && photos[i].id == photoId;
        CanProcessIffSomeTagged(r);
        assert r[i] in r && r[i].coordinates.Some?;
      }
    }
  }

  /** One step back, never below the first index. */
  function PreviousIndex(i: int): int {
    if 0 > i - 1 then 0 else i - 1
  }

  /** One step forward, never past the last of `n` photos. */
  function NextIndex(i: int, n: nat): int {
    if n - 1 < i + 1 then n - 1 else i + 1
  }

  /** Both buttons keep a valid index valid; at either end they do nothing,
      and elsewhere they move by exactly one. */
  lemma NavigationStaysInRange(i: int, n: nat)
    requires 0 <= i < n
    ensures 0 <= PreviousIndex(i) < n && 0 <= NextIndex(i, n) < n
    ensures i == 0 <==> PreviousIndex(i) == i
    ensures i == n - 1 <==> NextIndex(i, n) == i
    ensures i > 0 ==> PreviousIndex(i) == i - 1
    ensures i < n - 1 ==> NextIndex(i, n) == i + 1
  {
  }

  // ---------------------------------------------------------------------------
  // Progress
  // ---------------------------------------------------------------------------

  /** `processingProgress` */
  datatype ProgressState = ProgressState(current: nat, total: nat)

  /** The progress state after the reports of `trace`, starting from `start`. */
  function ReplayProgress(trace: seq<Event>, start: ProgressState): ProgressState {
    if trace == [] then start
    else
      var last := trace[|trace| - 1];
      match last
      case Progress(current, total) => ProgressState(current, total)
      case Attempted(_, _) => ReplayProgress(trace[..|trace| - 1], start)
  }

  /** After a batch of K >= 1 attempts, the progress shows K of K. */
  lemma ReplayBatchTrace(attempted: seq<Photo>, codecs: Codecs, total: nat, start: ProgressState)
    ensures attempted == [] ==> ReplayProgress(BatchTrace(attempted, codecs, total), start) == start
    ensures attempted != [] ==>
      ReplayProgress(BatchTrace(attempted, codecs, total), start) == ProgressState(|attempted|, total)
  {
    var trace := BatchTrace(attempted, codecs, total);
    if attempted != [] {
      var n := |attempted| - 1;
      var front := BatchTrace(attempted[..n], codecs, total);
      assert trace == front + [Progress(n + 1, total), Attempted(attempted[n].id, ProcessPhoto(attempted[n], codecs).output.Ok?)];
      assert trace[..|trace| - 1] == front + [Progress(n + 1, total)];
    }
  }

  /** The archive a processing run builds from a batch: the processed photos
      of the batch, compressed. */
  function BuildArchive(
    photos: seq<Photo>, codecs: Codecs,
    generateAsync: (map<string, Blob>, GenerateOptions) -> Result<Blob, string>): Result<Blob, string>
  {
    generateAsync(ArchiveEntries(photos, ProcessedResults(photos, codecs)), ZipOptions)
  }

  /** The asynchronous part of `handleProcess`: attempt the tagged photos,
      replay the progress reports they make, and build the archive. */
  method RunBatch(
    photos: seq<Photo>, codecs: Codecs,
    generateAsync: (map<string, Blob>, GenerateOptions) -> Result<Blob, string>,
    start: ProgressState)
    returns (processedBlobs: map<string, Blob>, progress: ProgressState, zip: Result<Blob, string>)
    ensures processedBlobs == ProcessedResults(photos, codecs)
    ensures |processedBlobs| <= |Tagged(photos)|
    ensures Tagged(photos) == [] ==> progress == start
    ensures Tagged(photos) != [] ==> progress == ProgressState(|Tagged(photos)|, |Tagged(photos)|)
    ensures zip == BuildArchive(photos, codecs, generateAsync)
  {
    var trace;
    processedBlobs, trace := ProcessAllPhotos(photos, codecs);
    ReplayBatchTrace(Tagged(photos), codecs, |Tagged(photos)|, start);
    progress := ReplayProgress(trace, start);
    var entries;
    entries, zip := GenerateZip(photos, processedBlobs, generateAsync);
  }

  // ---------------------------------------------------------------------------
  // The page's state
  // ---------------------------------------------------------------------------

  /** The state cells of the `Home` page. */
  class Home {
    var currentScreen: AppScreen
    var photos: seq<Photo>
    var currentIndex: int
    var processingProgress: ProgressState
    var zipBlob: Option<Blob>
    var isUploading: bool
    var processedCount: nat

    /** The processing screen is only shown over a non-empty batch, the
        complete screen has an archive to download, and progress never runs
        ahead of its total. The editor can be left empty: a batch cleared
        while it is being processed returns to the editor if its archive
        then fails. */
    predicate Valid()
      reads this
    {
      && (currentScreen == Processing ==> |photos| > 0)
      && (currentScreen == Complete ==> zipBlob.Some?)
      && processingProgress.current <= processingProgress.total
    }

    constructor ()
      ensures Valid()
      ensures currentScreen == Upload && photos == [] && currentIndex == 0
      ensures processingProgress == ProgressState(0, 0) && zipBlob == None
      ensures !isUploading && processedCount == 0
    {
      currentScreen := Upload;
      photos := [];
      currentIndex := 0;
      processingProgress := ProgressState(0, 0);
      zipBlob := None;
      isUploading := false;
      processedCount := 0;
    }

    /** `handleFilesSelected` up to its `await`. With no acceptable file the
        state is untouched and the user is alerted. Otherwise the accepted
        files are returned for conversion and the upload indicator is on. */
    method BeginUpload(files: seq<File>) returns (validFiles: seq<File>, alerted: bool)
      requires Valid()
      modifies this
      ensures Valid()
      ensures validFiles == AcceptedFiles(files)
      ensures alerted <==> validFiles == []
      ensures alerted ==> unchanged(this)
      ensures !alerted ==> isUploading
      ensures currentScreen == old(currentScreen) && photos == old(photos) && currentIndex == old(currentIndex)
      ensures processingProgress == old(processingProgress) && zipBlob == old(zipBlob)
      ensures processedCount == old(processedCount)
    {
      validFiles := AcceptedFiles(files);
      if |validFiles| == 0 {
        return validFiles, true;
      }
      alerted := false;
      isUploading := true;
    }

    /** `handleFilesSelected` once its photos are built: they replace the
        batch, the editor shows the first of them, and the upload indicator
        is off, whatever other upload may still be under way. */
    method FinishUpload(newPhotos: seq<Photo>)
      requires Valid()
      modifies this
      ensures Valid()
      ensures photos == newPhotos && currentIndex == 0 && currentScreen == Editor && !isUploading
      ensures processingProgress == old(processingProgress) && zipBlob == old(zipBlob)
      ensures processedCount == old(processedCount)
    {
      photos := newPhotos;
      currentIndex := 0;
      currentScreen := Editor;
      isUploading := false;
    }

    /** `handleFilesSelected` run to completion with no other handler in
        between. With no acceptable file the state is untouched and the user
        is alerted. Otherwise the accepted files become a fresh batch shown
        in the editor from its first photo; `previews` are the blobs the
        previews are made from, one per photo. */
    method HandleFilesSelected(files: seq<File>, heic2any: HeicRequest -> HeicOutput, generateId: nat -> string)
      returns (alerted: bool, previews: seq<Blob>)
      requires Valid()
      modifies this
      ensures Valid()
      ensures alerted <==> AcceptedFiles(files) == []
      ensures alerted ==> unchanged(this) && previews == []
      ensures !alerted ==>
        photos == CreatePhotos(AcceptedFiles(files), generateId) &&
        currentIndex == 0 && currentScreen == Editor && !isUploading &&
        processingProgress == old(processingProgress) && zipBlob == old(zipBlob) &&
        processedCount == old(processedCount)
      ensures !alerted ==> |previews| == |photos|
      ensures !alerted ==> forall i :: 0 <= i < |previews| ==> previews[i] == PreviewBlob(photos[i].file, heic2any)
    {
      var validFiles;
      validFiles, alerted := BeginUpload(files);
      if alerted {
        return alerted, [];
      }
      var newPhotos;
      newPhotos, previews := CreateBatch(validFiles, heic2any, generateId);
      FinishUpload(newPhotos);
    }

    /** `handleCoordinatesChange`: only the photos with that id change, and
        only their coordinates. */
    method HandleCoordinatesChange(photoId: string, coords: Coordinates)
      requires Valid()
      modifies this
      ensures Valid()
      ensures photos == SetCoordinates(old(photos), photoId, coords)
      ensures currentScreen == old(currentScreen) && currentIndex == old(currentIndex)
      ensures processingProgress == old(processingProgress) && zipBlob == old(zipBlob)
      ensures isUploading == old(isUploading) && processedCount == old(processedCount)
    {
      photos := SetCoordinates(photos, photoId, coords);
    }

    /** `handleSelectPhoto`: the index is taken as given. */
    method HandleSelectPhoto(index: int)
      requires Valid()
      modifies this
      ensures Valid()
      ensures currentIndex == index
      ensures currentScreen == old(currentScreen) && photos == old(photos)
      ensures processingProgress == old(processingProgress) && zipBlob == old(zipBlob)
      ensures isUploading == old(isUploading) && processedCount == old(processedCount)
    {
      currentIndex := index;
    }

    /** `handlePrevious`: one step back, never below 0. */
    method HandlePrevious()
      requires Valid()
      modifies this
      ensures Valid()
      ensures currentIndex == PreviousIndex(old(currentIndex))
      ensures 0 <= old(currentIndex) < |photos| ==> 0 <= currentIndex < |photos|
      ensures currentScreen == old(currentScreen) && photos == old(photos)
      ensures processingProgress == old(processingProgress) && zipBlob == old(zipBlob)
      ensures isUploading == old(isUploading) && processedCount == old(processedCount)
    {
      currentIndex := PreviousIndex(currentIndex);
    }

    /** `handleNext`: one step forward, never past the last photo. */
    method HandleNext()
      requires Valid()
      modifies this
      ensures Valid()
      ensures currentIndex == NextIndex(old(currentIndex), |photos|)
      ensures 0 <= old(currentIndex) < |photos| ==> 0 <= currentIndex < |photos|
      ensures currentScreen == old(currentScreen) && photos == old(photos)
      ensures processingProgress == old(processingProgress) && zipBlob == old(zipBlob)
      ensures isUploading == old(isUploading) && processedCount == old(processedCount)
    {
      currentIndex := NextIndex(currentIndex, |photos|);
    }

    /** `handleClearAll`: back to an empty upload screen; a finished archive
        is kept. */
    method HandleClearAll()
      requires Valid()
      modifies this
      ensures Valid()
      ensures photos == [] && currentIndex == 0 && currentScreen == Upload
      ensures processingProgress == old(processingProgress) && zipBlob == old(zipBlob)
      ensures isUploading == old(isUploading) && processedCount == old(processedCount)
    {
      photos := [];
      currentIndex := 0;
      currentScreen := Upload;
    }

    /** `handleStartOver`: like clearing, and the archive is dropped too. */
    method HandleStartOver()
      requires Valid()
      modifies this
      ensures Valid()
      ensures photos == [] && currentIndex == 0 && currentScreen == Upload && zipBlob == None
      ensures processingProgress == old(processingProgress)
      ensures isUploading == old(isUploading) && processedCount == old(processedCount)
    {
      photos := [];
      currentIndex := 0;
      zipBlob := None;
      currentScreen := Upload;
    }

    /** `handleProcess` up to its first `await`. With no tagged photo nothing
        happens. Otherwise the progress starts at 0 of K, K the number of
        tagged photos, and the processing screen shows. */
    method BeginProcess() returns (started: bool)
      requires Valid()
      modifies this
      ensures Valid()
      ensures started <==> Tagged(old(photos)) != []
      ensures !started ==> unchanged(this)
      ensures started ==>
        processingProgress == ProgressState(0, |Tagged(photos)|) && currentScreen == Processing
      ensures photos == old(photos) && currentIndex == old(currentIndex) && zipBlob == old(zipBlob)
      ensures isUploading == old(isUploading) && processedCount == old(processedCount)
    {
      var photosToProcess := Tagged(photos);
      if |photosToProcess| == 0 {
        return false;
      }
      started := true;
      processingProgress := ProgressState(0, |photosToProcess|);
      currentScreen := Processing;
    }

    /** The progress callback of `handleProcess`: one report of the batch. */
    method ReportProgress(current: nat, total: nat)
      requires Valid() && current <= total
      modifies this
      ensures Valid()
      ensures processingProgress == ProgressState(current, total)
      ensures currentScreen == old(currentScreen) && photos == old(photos) && currentIndex == old(currentIndex)
      ensures zipBlob == old(zipBlob) && isUploading == old(isUploading) && processedCount == old(processedCount)
    {
      processingProgress := ProgressState(current, total);
    }

    /** `handleProcess` once the archive is settled: a built archive leads to
        the complete screen with the count of processed photos, a failure
        back to the editor. The photos are never changed. */
    method FinishProcess(processedBlobs: map<string, Blob>, zip: Result<Blob, string>)
      returns (failed: bool)
      requires Valid()
      modifies this
      ensures Valid()
      ensures failed <==> zip.Err?
      ensures zip.Ok? ==>
        currentScreen == Complete && zipBlob == Some(zip.value) && processedCount == |processedBlobs|
      ensures zip.Err? ==>
        currentScreen == Editor && zipBlob == old(zipBlob) && processedCount == old(processedCount)
      ensures photos == old(photos) && currentIndex == old(currentIndex)
      ensures processingProgress == old(processingProgress) && isUploading == old(isUploading)
    {
      if zip.Ok? {
        zipBlob := Some(zip.value);
        processedCount := |processedBlobs|;
        currentScreen := Complete;
        failed := false;
      } else {
        currentScreen := Editor;
        failed := true;
      }
    }

    /** `handleProcess` run to completion with no other handler in between.
        With no tagged photo nothing happens. Otherwise every tagged photo is
        attempted, the progress ends at K of K, and the archive of the
        processed photos is built; the outcome is as `FinishProcess` says. */
    method HandleProcess(
      codecs: Codecs,
      generateAsync: (map<string, Blob>, GenerateOptions) -> Result<Blob, string>)
      returns (failed: bool)
      requires Valid()
      modifies this
      ensures Valid()
      ensures photos == old(photos) && currentIndex == old(currentIndex) && isUploading == old(isUploading)
      ensures Tagged(old(photos)) == [] ==> unchanged(this) && !failed
      ensures Tagged(old(photos)) != [] ==>
        processingProgress == ProgressState(|Tagged(old(photos))|, |Tagged(old(photos))|)
      ensures Tagged(old(photos)) != [] && !failed ==>
        currentScreen == Complete && processedCount == |ProcessedResults(old(photos), codecs)| &&
        zipBlob.Some? && BuildArchive(old(photos), codecs, generateAsync) == Ok(zipBlob.value)
      ensures failed <==> (Tagged(old(photos)) != [] && BuildArchive(old(photos), codecs, generateAsync).Err?)
      ensures failed ==>
        currentScreen == Editor && zipBlob == old(zipBlob) && processedCount == old(processedCount)
    {
      var batch := photos;
      var started := BeginProcess();
      if !started {
        return false;
      }
      var processedBlobs, progress, zip := RunBatch(batch, codecs, generateAsync, processingProgress);
      ReportProgress(progress.current, progress.total);
      failed := FinishProcess(processedBlobs, zip);
    }

    /** `handleDownload`: with an archive, the archive and its dated file
        name; without one, nothing. */
    method HandleDownload(isoNow: string) returns (download: Option<(Blob, string)>)
      ensures zipBlob.None? <==> download.None?
      ensures download.Some? ==>
        download.value.0 == zipBlob.value && download.value.1 == GenerateZipFilename(isoNow)
    {
      if zipBlob.None? {
        return None;
      }
      download := Some((zipBlob.value, GenerateZipFilename(isoNow)));
    }
  }

  /** From the complete screen, starting over and uploading again reaches the
      editor with a fresh, untagged batch. */
  method StartOverThenUpload(
    home: Home, files: seq<File>, heic2any: HeicRequest -> HeicOutput, generateId: nat -> string)
    requires home.Valid() && home.currentScreen == Complete
    requires AcceptedFiles(files) != []
    modifies home
    ensures home.Valid() && home.currentScreen == Editor && home.zipBlob == None
    ensures home.currentIndex == 0 && |home.photos| == |AcceptedFiles(files)|
    ensures !CanProcess(home.photos)
  {
    home.HandleStartOver();
    var alerted, previews := home.HandleFilesSelected(files, heic2any, generateId);
    FreshPhotosUntagged(AcceptedFiles(files), generateId);
  }

  /** Two drops onto the upload screen, the second while the first is still
      converting: the first to finish turns the upload indicator off although
      the second is still under way, and the batch that finishes last is the
      one the editor keeps. */
  method OverlappingDrops(
    home: Home, first: seq<File>, second: seq<File>,
    heic2any: HeicRequest -> HeicOutput, generateId: nat -> string)
    returns (indicatorOffWhilePending: bool)
    requires home.Valid()
    requires AcceptedFiles(first) != [] && AcceptedFiles(second) != []
    modifies home
    ensures indicatorOffWhilePending
    ensures home.Valid() && home.currentScreen == Editor && !home.isUploading
    ensures home.photos == CreatePhotos(AcceptedFiles(second), generateId)
  {
    var firstFiles, firstAlerted := home.BeginUpload(first);
    var secondFiles, secondAlerted := home.BeginUpload(second);
    var firstPhotos, firstPreviews := CreateBatch(firstFiles, heic2any, generateId);
    home.FinishUpload(firstPhotos);
    indicatorOffWhilePending := !home.isUploading;
    var secondPhotos, secondPreviews := CreateBatch(secondFiles, heic2any, generateId);
    home.FinishUpload(secondPhotos);
  }

  /** A batch is processed as it was when processing began: a coordinate
      edit and a step forward made while it runs change the page but not the
      archive, which is still the one of the photos as they were. */
  method EditWhileProcessing(
    home: Home, photoId: string, coords: Coordinates, codecs: Codecs,
    generateAsync: (map<string, Blob>, GenerateOptions) -> Result<Blob, string>)
    returns (failed: bool)
    requires home.Valid() && Tagged(home.photos) != []
    modifies home
    ensures home.Valid()
    ensures home.photos == SetCoordinates(old(home.photos), photoId, coords)
    ensures home.currentIndex == NextIndex(old(home.currentIndex), |old(home.photos)|)
    ensures failed <==> BuildArchive(old(home.photos), codecs, generateAsync).Err?
    ensures !failed ==>
      home.currentScreen == Complete && home.zipBlob.Some? &&
      Ok(home.zipBlob.value) == BuildArchive(old(home.photos), codecs, generateAsync)
  {
    var batch := home.photos;
    var started := home.BeginProcess();
    home.HandleCoordinatesChange(photoId, coords);
    home.HandleNext();
    var processedBlobs, progress, zip := RunBatch(batch, codecs, generateAsync, home.processingProgress);
    home.ReportProgress(progress.current, progress.total);
    failed := home.FinishProcess(processedBlobs, zip);
  }
}
