# GeoTag in Dafny

GeoTag is a browser application that writes GPS coordinates into photos.
The user uploads JPEG, PNG or HEIC/HEIF files and tags each photo with a
latitude and longitude, typed in or found by a US zip-code lookup. The app
then processes every tagged photo: HEIC is converted to JPEG, the image is
compressed, and a GPS directory is written into its EXIF block. The results
are packed into a dated ZIP archive for download.

This project models that core in Dafny:

- `Types`: photos, files, blobs and coordinates, and the filter that keeps the tagged photos.
- `HeicConverter`: HEIC detection and how the converter's result is shaped.
- `ExifWriter`:
  - decimal degrees to degree/minute/second rationals;
  - the four-tag GPS directory;
  - the EXIF container rewrite;
  - the data-URL-to-blob byte loop;
  - the `writeGpsExif` pipeline.
- `ImageProcessing`: the per-photo pipeline, and the batch loop with its progress reports and error swallowing.
- `ZipGenerator`: archive entry names, the archive-building loop and the archive file name.
- `CoordinateInputs`: the latitude and longitude edit handlers.
- `EditorScreen`: the tagged count, keyboard navigation and coordinate forwarding.
- `ZipCodeSearch`: the search box state, with trimming, five-digit validation and each outcome of the lookup.
- `App`: the page's state machine. It covers the upload filter, photo creation, coordinate edits, navigation, clearing, processing and download.

The shared `Wrappers` and `Text` modules hold `Option`/`Result` and a few string helpers.

Some code works by changing state step by step, and it is imperative Dafny here:

- the byte loop, the batch loop and the archive loop are methods proved against fold functions;
- the page and the search box are classes whose handlers update their fields.

Straight-line asynchronous compositions are functions over records of oracle functions. These are `writeGpsExif`, `processPhoto` and `convertHeicToJpeg`. The oracles stand for the foreign libraries and browser services:

- FileReader, piexif `load`/`dump`/`insert` and `atob`;
- heic2any and browser-image-compression;
- JSZip's `generateAsync`;
- `fetch` and `parseFloat`;
- the id generator and the clock.

Numbers are `real`. `Math.round(x)` is `(x + 0.5).Floor`. NaN from `parseFloat` is `None`.

## Model

| member | source | states |
|---|---|---|
| `Text.LastIndexOf` | src/lib/zipGenerator.ts:17 | `lastIndexOf`: -1 exactly when the character is absent; otherwise an index holding it with no occurrence after it |
| `Text.LastIndexOfAtLeast` | src/lib/zipGenerator.ts:17-18 | every occurrence of the character lies at or before the index `lastIndexOf` returns |
| `Text.IndexOf` | src/lib/zipGenerator.ts:46 | first occurrence, or -1 exactly when absent; used by `split(...)[0]` and `split(...)[1]` |
| `Text.FirstField` | src/lib/zipGenerator.ts:46 | `split(c)[0]`: the prefix before the first `c`, which contains no `c` |
| `Text.LowerChar` | src/lib/heicConverter.ts:5-6 | `toLowerCase` on one character: ASCII capitals become small letters, every other character is kept (definition) |
| `Text.Lower` | src/lib/heicConverter.ts:5-6 | `toLowerCase` of a name: same length, each character lowered by `LowerChar` |
| `Text.EndsWith` | src/app/page.tsx:33-34 | `endsWith`: the suffix is no longer than the string and equals its last characters (definition) |
| `Types.Tagged` | src/lib/imageProcessing.ts:44 | the photos with non-null coordinates: exactly those of the input that are tagged, never more than the input |
| `Types.TaggedAppend` | src/lib/imageProcessing.ts:44 | filtering commutes with concatenation, so the tagged photos keep their relative order |
| `HeicConverter.LowerSuffix` | src/lib/heicConverter.ts:5-6 | `toLowerCase().endsWith(s)` holds exactly when the last characters match `s` after lower-casing each |
| `HeicConverter.IsHeic` | src/lib/heicConverter.ts:1-8 | the HEIC test itself, as the disjunction of the source: exact type image/heic or image/heif, or a lower-cased name ending in .heic/.heif; characterised by `IsHeicCharacterised` |
| `HeicConverter.IsHeicCharacterised` | src/lib/heicConverter.ts:1-8 | a file is HEIC iff its type is exactly image/heic or image/heif, or its name ends in .heic/.heif in any letter case |
| `HeicConverter.UpperCaseSuffixDetected` | src/lib/heicConverter.ts:5 | "IMG.HEIC" is HEIC whatever its media type |
| `HeicConverter.MixedCaseSuffixDetected` | src/lib/heicConverter.ts:6 | "x.HeIf" is HEIC whatever its media type |
| `HeicConverter.MediaTypeIsCaseSensitive` | src/lib/heicConverter.ts:3-4 | type "image/HEIC" with name "x.jpg" is not HEIC |
| `HeicConverter.JpegRequest` | src/lib/heicConverter.ts:14-18 | the converter is asked for the file's own blob as image/jpeg at quality 0.92 (definition) |
| `HeicConverter.ConvertHeicToJpeg` | src/lib/heicConverter.ts:10-24 | fails iff the converter throws, with the message "Failed to convert HEIC file: " + name; a single blob is returned as is, an array yields its first element |
| `HeicConverter.ProcessFileForPreview` | src/lib/heicConverter.ts:26-31 | a non-HEIC file passes through unchanged; a HEIC file goes through the conversion |
| `ExifWriter.DegreesToDms` | src/lib/exifWriter.ts:26-36 | denominators 1, 1 and 100; degrees are the floor of the magnitude; minutes in 0..59; seconds in 0..6000 hundredths |
| `ExifWriter.Round` | src/lib/exifWriter.ts:30 | `Math.round`: the nearest integer, halves rounding up (definition; its bounds are stated by `DegreesToDms`) |
| `ExifWriter.DmsIgnoresSign` | src/lib/exifWriter.ts:27 | the triple depends only on the magnitude of the angle |
| `ExifWriter.DmsReconstruction` | src/lib/exifWriter.ts:26-36 | the triple denotes the magnitude to within 1/720000 degree, half of the 1/100 arc-second step |
| `ExifWriter.SecondsCanReachSixty` | src/lib/exifWriter.ts:30 | rounding never carries into minutes: 59.99995 minutes gives 0 deg 59 min 60.00 s |
| `ExifWriter.LatitudeExample` | src/lib/exifWriter.ts:26-36 | 40.7128 gives 40 deg, 42 min, 4608/100 s |
| `ExifWriter.LongitudeExample` | src/lib/exifWriter.ts:26-36 | -74.0060 gives 74 deg, 0 min, 2160/100 s |
| `ExifWriter.DmsTag` | src/lib/exifWriter.ts:51-53 | the three rational pairs of a triple, in the order degrees, minutes, seconds (definition) |
| `ExifWriter.GpsIfd` | src/lib/exifWriter.ts:49-54 | exactly the four GPS tags; reference N iff latitude >= 0 and S iff < 0, E iff longitude >= 0 and W iff < 0 |
| `ExifWriter.AngleRoundTrip` | src/lib/exifWriter.ts:50-53 | reading back one reference/magnitude pair gives the signed angle to within 1/720000 degree |
| `ExifWriter.GpsRoundTrip` | src/lib/exifWriter.ts:49-54 | reading back the written directory gives both coordinates, signs included, to within 1/720000 degree |
| `ExifWriter.ExifToWrite` | src/lib/exifWriter.ts:57-72 | the GPS directory is always the new one; a loaded container keeps its other directories and thumbnail; a failed load gives empty directories and no thumbnail |
| `ExifWriter.RewriteReplacesGps` | src/lib/exifWriter.ts:59-61 | rewriting an already written container equals writing the second coordinates once: only GPS is replaced |
| `ExifWriter.Base64Payload` | src/lib/exifWriter.ts:15 | `split(",")[1]`: with a comma, the text after the first comma up to the next comma or the end, holding no comma; with no comma, the text "undefined" |
| `ExifWriter.ToUint8` | src/lib/exifWriter.ts:19 | storing a character code into a `Uint8Array` keeps it modulo 256 (definition) |
| `ExifWriter.Latin1Bytes` | src/lib/exifWriter.ts:18-20 | one byte per character, each the character code modulo 256 |
| `ExifWriter.DataUrlToBlob` | src/lib/exifWriter.ts:14-22 | the blob `base64ToBlob` builds: decode the payload after the comma, one byte per character, of the given type (definition; `Base64ToBlob` is proved to build it) |
| `ExifWriter.Base64ToBlob` | src/lib/exifWriter.ts:14-22 | the byte-array loop yields exactly the blob of the decoded payload's bytes with the given type, or the decoder's failure |
| `ExifWriter.WriteGpsExif` | src/lib/exifWriter.ts:38-82 | succeeds exactly when reading, dumping, inserting and decoding succeed, whatever `load` does; the result is the blob decoded from the inserted data URL, typed image/jpeg, and the container dumped is `ExifToWrite` of the load, so GPS is replaced and the other loaded directories kept |
| `ImageProcessing.CompressImage` | src/lib/imageProcessing.ts:5-18 | the compressor oracle called with the fixed settings 1.5 MB, 1200 px, web worker, image/jpeg, quality 0.85 (definition; no contract) |
| `ImageProcessing.PlannedStages` | src/lib/imageProcessing.ts:20-37 | HEIC conversion for a HEIC file, then compression, then GPS writing for a photo with coordinates (definition; `ProcessPhotoStages` relates it to a run) |
| `ImageProcessing.Converted` | src/lib/imageProcessing.ts:21-26 | the blob handed to compression: the converted JPEG of a HEIC file, the file's own blob otherwise (definition) |
| `ImageProcessing.ProcessPhoto` | src/lib/imageProcessing.ts:20-37 | `processPhoto` as a run of stages and an output (definition; its properties are `ProcessPhotoStages` and `ProcessPhotoOutput`) |
| `ImageProcessing.ProcessPhotoStages` | src/lib/imageProcessing.ts:20-37 | stages run in order: HEIC conversion iff HEIC, compression iff conversion did not fail, GPS write iff the photo has coordinates and compression succeeded; success ran every planned stage; a tagged output is image/jpeg |
| `ImageProcessing.ProcessPhotoOutput` | src/lib/imageProcessing.ts:29-36 | once conversion succeeded, a tagged photo outputs the GPS write of its compressed blob and an untagged one the compressed blob itself |
| `ImageProcessing.Collect` | src/lib/imageProcessing.ts:46-57 | the result map after attempting photos in order, a later success overriding an earlier one (definition; its properties are `CollectKeys`, `CollectValues`, `CollectSize` and `CollectDistinct`) |
| `ImageProcessing.ProcessedResults` | src/lib/imageProcessing.ts:39-60 | what `processAllPhotos` resolves to: `Collect` over the tagged photos (definition; its properties are `ProcessedResultsKeys` and `ProcessedResultsAreJpeg`) |
| `ImageProcessing.CollectKeys` | src/lib/imageProcessing.ts:46-57 | an id is in the results iff some attempted photo with that id succeeded |
| `ImageProcessing.CollectValues` | src/lib/imageProcessing.ts:51-52 | every stored blob is the output of a successful attempt on a photo with that id |
| `ImageProcessing.CollectSize` | src/lib/imageProcessing.ts:46-57 | no more results than attempts |
| `ImageProcessing.CollectDistinct` | src/lib/imageProcessing.ts:51-52 | with distinct ids, each successful photo's output is stored under its id |
| `ImageProcessing.ProcessedResultsKeys` | src/lib/imageProcessing.ts:39-60 | results are keyed by exactly the tagged photos that processed successfully, at most one entry per tagged photo |
| `ImageProcessing.ProcessedResultsKeysSound` | src/lib/imageProcessing.ts:44-57 | every key of the results is the id of a tagged photo whose run succeeded |
| `ImageProcessing.ProcessedResultsKeysComplete` | src/lib/imageProcessing.ts:44-57 | every tagged photo whose run succeeds leaves its id as a key |
| `ImageProcessing.ProcessedResultsAreJpeg` | src/lib/imageProcessing.ts:39-60 | every stored blob is the output of a run on a tagged photo with that id, a run that reached the GPS write, and is image/jpeg |
| `ImageProcessing.NoTaggedNoResults` | src/lib/imageProcessing.ts:44-57 | with no tagged photo nothing is attempted and the result map is empty |
| `ImageProcessing.BatchTrace` | src/lib/imageProcessing.ts:46-57 | the events of a batch: before the i-th attempt, a progress report (i + 1, total) (definition; its shape is stated by `BatchTraceShape`) |
| `ImageProcessing.BatchTraceShape` | src/lib/imageProcessing.ts:46-57 | progress (i + 1, total) is reported just before the attempt on the i-th tagged photo |
| `ImageProcessing.ProcessAllPhotos` | src/lib/imageProcessing.ts:39-60 | the loop returns exactly the processed results and the report/attempt trace of the tagged photos in order; failures are swallowed |
| `ZipGenerator.BaseName` | src/lib/zipGenerator.ts:15-20 | the photo name cut at its last dot when that dot is not the first character (definition; its properties are stated by `EntryName`) |
| `ZipGenerator.EntryName` | src/lib/zipGenerator.ts:15-21 | the name ends in .jpg and its stem is a prefix of the photo name; the stem is shorter exactly when the name has a dot after its first character, and then it stops at the last dot |
| `ZipGenerator.EntryNameIdempotent` | src/lib/zipGenerator.ts:15-21 | renaming a renamed non-empty name changes nothing |
| `ZipGenerator.EmptyNameNotIdempotent` | src/lib/zipGenerator.ts:18 | the empty name becomes ".jpg", which becomes ".jpg.jpg": a leading dot is not an extension |
| `ZipGenerator.EntryNameExamples` | src/lib/zipGenerator.ts:15-21 | "IMG_001.HEIC" gives "IMG_001.jpg", ".hidden" gives ".hidden.jpg", "a.b.c" gives "a.b.jpg" |
| `ZipGenerator.PackedCount` | src/lib/zipGenerator.ts:11-13 | the number of positions in the photo list whose id has a processed blob |
| `ZipGenerator.ArchiveEntries` | src/lib/zipGenerator.ts:11-25 | the entry map after visiting the photos in order (definition; its properties are `ArchiveKeys`, `ArchiveLastWins`, `ArchiveSize` and `ArchiveOfNothing`) |
| `ZipGenerator.ArchiveKeys` | src/lib/zipGenerator.ts:11-25 | an entry name is present iff some photo with a processed blob is renamed to it |
| `ZipGenerator.ArchiveLastWins` | src/lib/zipGenerator.ts:23 | when several photos map to one entry name, the last such photo's blob is stored |
| `ZipGenerator.ArchiveSize` | src/lib/zipGenerator.ts:11-25 | at most one entry per photo with a processed blob |
| `ZipGenerator.ArchiveOfNothing` | src/lib/zipGenerator.ts:11-25 | no processed blobs give an empty archive |
| `ZipGenerator.GenerateZip` | src/lib/zipGenerator.ts:3-32 | the loop builds exactly the entry map above, every name ends in .jpg, and it is compressed with DEFLATE level 6 |
| `ZipGenerator.GenerateZipFilename` | src/lib/zipGenerator.ts:45-48 | "geotag-photos-" + a prefix of the ISO time + ".zip", where the prefix holds no 'T' and stops only at the first 'T' or at the end |
| `ZipGenerator.FilenameExample` | src/lib/zipGenerator.ts:46-47 | 2026-10-15T08:30:00.000Z gives "geotag-photos-2026-10-15.zip" |
| `CoordinateInputs.HandleLatChange` | src/components/CoordinateInputs.tsx:14-22 | emits iff the parse is a number in [-90, 90]; keeps the longitude, or 0 with no coordinates |
| `CoordinateInputs.HandleLngChange` | src/components/CoordinateInputs.tsx:24-32 | emits iff the parse is a number in [-180, 180]; keeps the latitude, or 0 with no coordinates |
| `CoordinateInputs.EditsKeepRange` | src/components/CoordinateInputs.tsx:14-32 | from no coordinates or coordinates in range, every emitted pair is in range |
| `CoordinateInputs.BoundsInclusive` | src/components/CoordinateInputs.tsx:16 | plus and minus 90 and 180 are accepted; 90.5 and -180.5 are not |
| `EditorScreen.TaggedCount` | src/components/EditorScreen.tsx:34 | the number of photos with coordinates (definition) |
| `EditorScreen.CanProcess` | src/components/EditorScreen.tsx:35 | some photo is tagged (definition; characterised by `CanProcessIffSomeTagged`) |
| `EditorScreen.CanProcessIffSomeTagged` | src/components/EditorScreen.tsx:34-35 | the Process button is enabled iff some photo has coordinates; the tagged count never exceeds the photo count |
| `EditorScreen.HandleKeyDown` | src/components/EditorScreen.tsx:44-63 | typing in an input or textarea is ignored; ArrowLeft calls previous iff index > 0; ArrowRight calls next iff index < length - 1 |
| `EditorScreen.ForwardCoordinates` | src/components/EditorScreen.tsx:37-41 | a change is forwarded, with the current photo's id, iff a photo exists at the current index |
| `EditorScreen.PreviousDisabled` | src/components/EditorScreen.tsx:104 | the Previous button is disabled at index 0 (definition) |
| `EditorScreen.NextDisabled` | src/components/EditorScreen.tsx:121 | the Next button is disabled at the last index (definition) |
| `EditorScreen.KeysAgreeWithButtons` | src/components/EditorScreen.tsx:54-59 | for a valid index the arrow keys act exactly when the matching button is enabled |
| `ZipCodeSearch.TrimStart` | src/components/ZipCodeSearch.tsx:21 | drops exactly the leading white space: a suffix, all dropped characters white space, first kept one not |
| `ZipCodeSearch.TrimEnd` | src/components/ZipCodeSearch.tsx:21 | drops exactly the trailing white space |
| `ZipCodeSearch.Trim` | src/components/ZipCodeSearch.tsx:21 | never longer than the input, and no white space at either end of the result |
| `ZipCodeSearch.TrimIsSlice` | src/components/ZipCodeSearch.tsx:21 | the trimmed code is a contiguous slice of the input with only white space before and after it |
| `ZipCodeSearch.TrailingWhitespace` | src/components/ZipCodeSearch.tsx:21 | what `TrimEnd` drops from a suffix of the input is white space of the input |
| `ZipCodeSearch.IsFiveDigitZip` | src/components/ZipCodeSearch.tsx:22 | `/^\d{5}$/`: exactly five ASCII digits (definition) |
| `ZipCodeSearch.TrimStartDrops` | src/components/ZipCodeSearch.tsx:21 | any run of leading white space before a non-white character is removed, and nothing more |
| `ZipCodeSearch.TrimEndDrops` | src/components/ZipCodeSearch.tsx:21 | any run of trailing white space after a non-white character is removed, and nothing more |
| `ZipCodeSearch.PaddedZipAccepted` | src/components/ZipCodeSearch.tsx:21-22 | a valid five-digit code padded with any white space on either side trims back to exactly that code and is accepted |
| `ZipCodeSearch.ShortZipRefused` | src/components/ZipCodeSearch.tsx:22 | "1000" is refused |
| `ZipCodeSearch.InnerSpaceRefused` | src/components/ZipCodeSearch.tsx:22 | "10 001" is refused: inner white space is kept |
| `ZipCodeSearch.IsJsWhitespace` | src/components/ZipCodeSearch.tsx:21 | the white space and line terminators `trim` removes (definition) |
| `ZipCodeSearch.SearchUrl` | src/components/ZipCodeSearch.tsx:32 | the geocoder URL with the code as `postalcode`, country USA, JSON format, one result (definition) |
| `ZipCodeSearch.LookupOutcome` | src/components/ZipCodeSearch.tsx:33-58 | a location is reported iff a place was found, with its parsed lat/lon, and then the input is cleared and the error left as it was; otherwise the input stays and the error is "Zip code not found" iff the answer was empty and "Search failed. Try again." iff it was not ok or threw |
| `ZipCodeSearch.SearchRequest` | src/components/ZipCodeSearch.tsx:21-35 | a request is made iff the trimmed input is five digits, and it is the Nominatim URL of the trimmed code |
| `ZipCodeSearch.SearchBox.constructor` | src/components/ZipCodeSearch.tsx:16-18 | empty input, not loading, no error |
| `ZipCodeSearch.SearchBox.HandleInput` | src/components/ZipCodeSearch.tsx:73-76 | the input is stored and the error cleared |
| `ZipCodeSearch.SearchBox.SearchDisabled` | src/components/ZipCodeSearch.tsx:87 | Go is disabled while loading or while the trimmed input is empty (definition) |
| `ZipCodeSearch.SearchBox.BeginSearch` | src/components/ZipCodeSearch.tsx:20-28 | before the lookup: the request of `SearchRequest`; an invalid code sets only the validation error; a valid one sets loading and clears the error; the input is kept |
| `ZipCodeSearch.SearchBox.FinishSearch` | src/components/ZipCodeSearch.tsx:42-58 | after the lookup: input, error and location as `LookupOutcome` says, and loading ends false |
| `ZipCodeSearch.SearchBox.HandleSearch` | src/components/ZipCodeSearch.tsx:20-59 | the whole search with nothing in between: the request of `SearchRequest`; an invalid code sets only the validation error; otherwise the answer to that request sets the box as `LookupOutcome` says, starting from no error, and loading ends false |
| `ZipCodeSearch.SearchBox.HandleKeyDown` | src/components/ZipCodeSearch.tsx:61-65 | Enter while not loading has exactly the effect of `HandleSearch` (request, location, input, error, loading); any other key, or Enter while loading, changes nothing |
| `ZipCodeSearch.EnterWhileLoading` | src/components/ZipCodeSearch.tsx:61-65 | once a valid search has started, Enter makes no second request and Go stays disabled |
| `App.IsAcceptedUpload` | src/app/page.tsx:27-36 | the upload filter's test for one file (definition; characterised by `AcceptedIffJpegPngOrHeic`) |
| `App.AcceptedIffJpegPngOrHeic` | src/app/page.tsx:27-36 | the upload filter accepts JPEG and PNG by type plus exactly the files the HEIC test accepts |
| `App.AcceptedFiles` | src/app/page.tsx:27-36 | keeps exactly the accepted files, never more than the input |
| `App.AcceptedFilesAppend` | src/app/page.tsx:27-36 | the filter commutes with concatenation: original order is kept |
| `App.CreatePhotos` | src/app/page.tsx:47-72 | one photo per file in file order, with the file's name, no coordinates, pending, and the id the input function gives the i-th photo |
| `App.FreshPhotosUntagged` | src/app/page.tsx:68 | a fresh batch has no tagged photo and cannot be processed |
| `App.PreviewBlob` | src/app/page.tsx:49-60 | the preview comes from the converted JPEG for HEIC files; on conversion failure, and for other files, from the file itself |
| `App.CreateBatch` | src/app/page.tsx:47-72 | the creation loop builds exactly the photos above and one preview blob per file |
| `App.SetCoordinates` | src/app/page.tsx:85-87 | same length and order; photos with the id get the new coordinates and keep every other field; other photos are unchanged |
| `App.SetCoordinatesTags` | src/app/page.tsx:85-87 | an edit never lowers the tagged count, and tagging a photo in the list enables processing |
| `App.PreviousIndex` | src/app/page.tsx:98 | `Math.max(0, prev - 1)` (definition) |
| `App.NextIndex` | src/app/page.tsx:102 | `Math.min(photos.length - 1, prev + 1)` (definition) |
| `App.NavigationStaysInRange` | src/app/page.tsx:97-103 | for 0 <= i < n: previous is max(0, i-1), next is min(n-1, i+1), both stay in range, and each is a no-op exactly at its end |
| `App.ReplayProgress` | src/app/page.tsx:124-126 | the progress state after the reports of a trace: the last report, or the starting state when there is none (definition; `ReplayBatchTrace` states its value after a batch) |
| `App.ReplayBatchTrace` | src/app/page.tsx:124-126 | after the reports of K >= 1 attempts the progress shows K of K; no attempts leave it unchanged |
| `App.BuildArchive` | src/app/page.tsx:124-129 | the archive a run builds: the entries of the processed photos of the batch, given to the compressor with the fixed options (definition) |
| `App.RunBatch` | src/app/page.tsx:124-129 | returns the processed results, the final progress and the archive of the processed photos |
| `App.Home.constructor` | src/app/page.tsx:14-20 | the initial state: upload screen, no photos, index 0, progress 0 of 0, no archive |
| `App.Home.BeginUpload` | src/app/page.tsx:27-43 | the accepted files are returned; none accepted: alert and nothing changes; otherwise only the upload indicator turns on |
| `App.Home.FinishUpload` | src/app/page.tsx:74-78 | the photos become the new batch, index 0, editor screen, indicator off; progress, archive and count are kept |
| `App.Home.HandleFilesSelected` | src/app/page.tsx:26-80 | begin, photo creation and finish with nothing in between. No acceptable file: alert and nothing changes. Otherwise the photos are the fresh batch, index 0, the editor screen, not uploading, one preview per photo |
| `App.Home.HandleCoordinatesChange` | src/app/page.tsx:83-90 | only the photos change, by `SetCoordinates` |
| `App.Home.HandleSelectPhoto` | src/app/page.tsx:93-95 | the index becomes the one given, nothing else changes |
| `App.Home.HandlePrevious` | src/app/page.tsx:97-99 | the index becomes max(0, i-1) and stays in range |
| `App.Home.HandleNext` | src/app/page.tsx:101-103 | the index becomes min(n-1, i+1) and stays in range |
| `App.Home.HandleClearAll` | src/app/page.tsx:106-112 | no photos, index 0, upload screen; the archive is kept |
| `App.Home.HandleStartOver` | src/app/page.tsx:147-153 | no photos, index 0, upload screen, no archive |
| `App.Home.BeginProcess` | src/app/page.tsx:115-120 | no tagged photo: nothing changes. Otherwise progress becomes 0 of K, K the number of tagged photos, and the processing screen shows; photos, index and archive are untouched |
| `App.Home.ReportProgress` | src/app/page.tsx:124-126 | the progress callback: progress becomes the reported pair and nothing else changes |
| `App.Home.FinishProcess` | src/app/page.tsx:129-137 | a built archive: complete screen, that archive, `processedCount` = number of results. A failure: back to the editor with archive and count kept. Photos and index untouched |
| `App.Home.HandleProcess` | src/app/page.tsx:115-138 | begin, the batch, the last progress report and the finish with nothing in between. No tagged photo: nothing changes. Otherwise progress ends K of K. A built archive of the batch: complete screen, `processedCount` = number of results. A failure: back to the editor. Photos are never changed |
| `App.Home.HandleDownload` | src/app/page.tsx:141-144 | nothing without an archive; otherwise the archive and its dated file name |
| `App.StartOverThenUpload` | src/app/page.tsx:147-153 | from the complete screen, start-over followed by an upload reaches the editor with a fresh, unprocessable batch and no archive |
| `App.OverlappingDrops` | src/components/UploadScreen.tsx:26-32 | a second drop accepted while the first converts: the first to finish turns the indicator off while the second is pending, and the editor keeps the batch that finishes last |
| `App.EditWhileProcessing` | src/app/page.tsx:115-138 | a coordinate edit and a step forward made while a batch runs change photos and index, but the archive is still the one of the photos as they were when processing began |

`App.Home.Valid` is an invariant kept by every handler of the page, and by each step of processing taken on its own:

- the processing screen has photos;
- the complete screen has an archive;
- progress never exceeds its total.

The editor screen is not promised photos: a batch cleared while it is processed, followed by a failed archive, returns to an empty editor.

Rows marked "definition" name functions whose meaning is their body; the lemmas named beside them state their properties.

## Left out

- FileReader (`blobToBase64`, src/lib/exifWriter.ts:4-11), piexif's `load`, `dump` and `insert`, and `atob` are oracles. The binary EXIF encoding is not modelled, and the GPS tag numbers 1 to 4 are the EXIF standard's.
- The HEIC decoder and the image compressor are oracles. Only the options passed to them and the shaping of their results are modelled. `compressImage` is `ImageProcessing.CompressImage`.
- HeicConverter.ConvertHeicToJpeg: heic2any returning an empty array, where `result[0]` is `undefined`, is outside the model; the converter's output type always carries a first blob.
- JSZip's `generateAsync` is an oracle. JSZip's treatment of entry names containing '/' as folders is not modelled.
- `downloadBlob` (src/lib/zipGenerator.ts:34-43) manipulates the DOM. `App.Home.HandleDownload` returns the archive and name it would download.
- `new Date().toISOString()` is an input string `isoNow`.
- `Math.random` ids: `generateId` is an input function giving the i-th photo's id. Distinct ids are not assumed, which is why `ImageProcessing.CollectDistinct` requires them.
- The `Promise.all` concurrency of photo creation is modelled as a sequential loop. The object URLs (`createObjectURL`/`revokeObjectURL`) and the `preview` field of a photo are out of scope; the blobs they would be made from are returned.
- The `processedBlob` and `error` fields of `Photo` are never set by the core and are not modelled.
- `alert` and `console.error` are out of scope. The two alerts appear only as the `alerted` and `failed` results.
- HeicConverter.IsHeic: `toLowerCase` is modelled for ASCII letters only; full Unicode case mapping is not.
- App.IsAcceptedUpload: the same ASCII-only lower-casing applies to the upload filter.
- IEEE-754 arithmetic is modelled with exact reals. That covers `parseFloat`, `Math.floor` and `Math.round`. NaN appears as `None`; float rounding artefacts are not modelled.
- App.Home.HandleFilesSelected: runs `BeginUpload`, the photo creation and `FinishUpload` with no other handler in between. Overlapping uploads are expressed by calling the steps separately, as `App.OverlappingDrops` does; which of two pending conversions finishes first is left to the caller.
- App.Home.HandleProcess: runs `BeginProcess`, the batch, the final progress report and `FinishProcess` with no other handler in between, and replays only the last progress report. Interleavings are expressed by calling the steps separately, as `App.EditWhileProcessing` does. The model lets any handler run between them, while the page's processing overlay blocks pointer input and leaves only the keyboard.
- ZipCodeSearch.SearchBox.HandleSearch: runs `BeginSearch`, the lookup and `FinishSearch` with no other handler in between; `ZipCodeSearch.EnterWhileLoading` calls them separately. The HTTP header, JSON decoding and `response.ok` are folded into one oracle answer. This answer is not-ok, a thrown error, or a list of places.
- The `maxLength={5}` attribute of the zip input only limits typing in the browser and is not modelled. Neither are the `disabled` attributes beyond `ZipCodeSearch.SearchBox.SearchDisabled`.
- Which screen component is rendered for each state (src/app/page.tsx:156-205) is presentation and is not modelled.
- The following are not part of this model:
  - src/components/AddressSearch.tsx, a network client whose only local logic is an emptiness check;
  - the map widgets src/components/LeafletMap.tsx and src/components/MapPicker.tsx. Their click path applies no range check, so `CoordinateInputs.EditsKeepRange` covers only the typed path;
  - the presentation components (upload, queue, preview, processing and complete screens).
