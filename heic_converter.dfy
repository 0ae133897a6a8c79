/** Detection of HEIC/HEIF images and the shaping of the converter's result. */
module HeicConverter {
  import opened Wrappers
  import opened Text
  import opened Types

  /** The HEIC test: an exact, case-sensitive media type, or a case-insensitive
      file-name suffix. */
  predicate IsHeic(file: File) {
    || file.blob.mimeType == "image/heic"
    || file.blob.mimeType == "image/heif"
    || EndsWith(Lower(file.name), ".heic")
    || EndsWith(Lower(file.name), ".heif")
  }

  /** A name ends in `suffix` once lower-cased exactly when its last `|suffix|`
      characters match `suffix` one by one after lower-casing. */
  predicate EndsWithIgnoringCase(name: string, suffix: string) {
    |suffix| <= |name| &&
    forall k :: 0 <= k < |suffix| ==> LowerChar(name[|name| - |suffix| + k]) == suffix[k]
  }

  lemma LowerSuffix(name: string, suffix: string)
    ensures EndsWith(Lower(name), suffix) <==> EndsWithIgnoringCase(name, suffix)
  {
    var low := Lower(name);
    if |suffix| <= |name| {
      if EndsWithIgnoringCase(name, suffix) {
        assert low[|low| - |suffix|..] == suffix;
      }
      if EndsWith(low, suffix) {
        forall k | 0 <= k < |suffix|
          ensures LowerChar(name[|name| - |suffix| + k]) == suffix[k]
        {
          assert low[|low| - |suffix|..][k] == suffix[k];
        }
      }
    }
  }

  /** The suffix half of the test looks only at the last five characters and
      ignores their case; the media-type half is exact. */
  lemma IsHeicCharacterised(file: File)
    ensures IsHeic(file) <==>
      || file.blob.mimeType in {"image/heic", "image/heif"}
      || EndsWithIgnoringCase(file.name, ".heic")
      || EndsWithIgnoringCase(file.name, ".heif")
  {
    LowerSuffix(file.name, ".heic");
    LowerSuffix(file.name, ".heif");
  }

  /** Worked case: an upper-case suffix is detected. */
  lemma UpperCaseSuffixDetected(b: Blob)
    ensures IsHeic(File("IMG.HEIC", b))
  {
    var name := "IMG.HEIC";
    assert LowerChar(name[3]) == '.' && LowerChar(name[4]) == 'h' && LowerChar(name[5]) == 'e';
    assert LowerChar(name[6]) == 'i' && LowerChar(name[7]) == 'c';
    assert EndsWithIgnoringCase(name, ".heic");
    IsHeicCharacterised(File(name, b));
  }

  /** Worked case: a mixed-case suffix is detected whatever the media type. */
  lemma MixedCaseSuffixDetected(b: Blob)
    ensures IsHeic(File("x.HeIf", b))
  {
    var name := "x.HeIf";
    assert LowerChar(name[1]) == '.' && LowerChar(name[2]) == 'h' && LowerChar(name[3]) == 'e';
    assert LowerChar(name[4]) == 'i' && LowerChar(name[5]) == 'f';
    assert EndsWithIgnoringCase(name, ".heif");
    IsHeicCharacterised(File(name, b));
  }

  /** Worked case: the media type is compared exactly, so "image/HEIC" on a
      ".jpg" name is not HEIC. */
  lemma MediaTypeIsCaseSensitive(bytes: seq<byte>)
    ensures !IsHeic(File("x.jpg", Blob("image/HEIC", bytes)))
  {
    var name := "x.jpg";
    assert LowerChar(name[|name| - |".heic"| + 0]) != ".heic"[0];
    assert LowerChar(name[|name| - |".heif"| + 0]) != ".heif"[0];
    assert !EndsWithIgnoringCase(name, ".heic") && !EndsWithIgnoringCase(name, ".heif");
    IsHeicCharacterised(File(name, Blob("image/HEIC", bytes)));
  }

  /** The options handed to heic2any. */
  datatype HeicRequest = HeicRequest(blob: Blob, toType: string, quality: real)

  /** What heic2any resolves to: one blob, an array of blobs (never empty), or
      a rejection. */
  datatype HeicOutput = Single(image: Blob) | Several(first: Blob, rest: seq<Blob>) | Threw(reason: string)

  const JpegQuality: real := 0.92

  /** The request sent for a file: its own blob, to JPEG, at quality 0.92. */
  function JpegRequest(file: File): HeicRequest {
    HeicRequest(file.blob, "image/jpeg", JpegQuality)
  }

  /** `convertHeicToJpeg`: the converter's single blob or the first of its
      array; any rejection becomes an error naming the file. */
  function ConvertHeicToJpeg(file: File, heic2any: HeicRequest -> HeicOutput): (r: Result<Blob, string>)
    ensures r.Err? <==> heic2any(JpegRequest(file)).Threw?
    ensures r.Err? ==> r.error == "Failed to convert HEIC file: " + file.name && EndsWith(r.error, file.name)
    ensures heic2any(JpegRequest(file)).Single? ==> r == Ok(heic2any(JpegRequest(file)).image)
    ensures heic2any(JpegRequest(file)).Several? ==> r == Ok(heic2any(JpegRequest(file)).first)
  {
    match heic2any(JpegRequest(file))
    case Single(image) => Ok(image)
    case Several(first, _) => Ok(first)
    case Threw(_) =>
      var message := "Failed to convert HEIC file: " + file.name;
      assert message[|message| - |file.name|..] == file.name;
      Err(message)
  }

  /** `processFileForPreview`: non-HEIC files pass through untouched. */
  function ProcessFileForPreview(file: File, heic2any: HeicRequest -> HeicOutput): (r: Result<Blob, string>)
    ensures !IsHeic(file) ==> r == Ok(file.blob)
    ensures IsHeic(file) ==> r == ConvertHeicToJpeg(file, heic2any)
  {
    if IsHeic(file) then ConvertHeicToJpeg(file, heic2any) else Ok(file.blob)
  }
}
