/** Writing GPS coordinates into a JPEG's EXIF container: the decimal-degree to
    degrees/minutes/seconds conversion, the GPS directory, the load-or-fallback
    container and the data-URL to blob byte copy. The piexif codec, FileReader
    and atob are oracles gathered in `ExifCodec`. */
module ExifWriter {
  import opened Wrappers
  import opened Text
  import opened Types

  // ---------------------------------------------------------------------------
  // Degrees to DMS
  // ---------------------------------------------------------------------------

  /** An EXIF RATIONAL: numerator over denominator. */
  datatype Rational = Rational(numerator: int, denominator: int)

  /** The three rationals of an EXIF GPS latitude or longitude. */
  datatype Dms = Dms(degrees: Rational, minutes: Rational, seconds: Rational)

  function Abs(x: real): real {
    if x < 0.0 then -x else x
  }

  /** `Math.round`: the nearest integer, halves rounding up. */
  function Round(x: real): int {
    (x + 0.5).Floor
  }

  /** `degreesToDMS`: whole degrees and whole minutes over 1, seconds to the
      hundredth over 100, all of the magnitude of `decimal`. Degrees and
      minutes are rounded down; the hundredths of seconds are rounded to the
      nearest, halves up. */
  function DegreesToDms(decimal: real): (r: Dms)
    ensures r.degrees.denominator == 1 && r.minutes.denominator == 1 && r.seconds.denominator == 100
    ensures r.degrees.numerator == Abs(decimal).Floor && r.degrees.numerator >= 0
    ensures 0 <= r.minutes.numerator <= 59
    ensures 0 <= r.seconds.numerator <= 6000
    ensures var minutesFloat := (Abs(decimal) - r.degrees.numerator as real) * 60.0;
      r.minutes.numerator as real <= minutesFloat < r.minutes.numerator as real + 1.0
    ensures var minutesFloat := (Abs(decimal) - r.degrees.numerator as real) * 60.0;
      var hundredths := (minutesFloat - r.minutes.numerator as real) * 6000.0;
      r.seconds.numerator as real - 0.5 <= hundredths < r.seconds.numerator as real + 0.5
  {
    var degrees := Abs(decimal).Floor;
    var minutesFloat := (Abs(decimal) - degrees as real) * 60.0;
    var minutes := minutesFloat.Floor;
    var seconds := Round((minutesFloat - minutes as real) * 60.0 * 100.0);
    Dms(Rational(degrees, 1), Rational(minutes, 1), Rational(seconds, 100))
  }

  /** The angle, in degrees, that a DMS triple denotes. */
  function DmsDegrees(d: Dms): real
    requires d.degrees.denominator != 0 && d.minutes.denominator != 0 && d.seconds.denominator != 0
  {
    d.degrees.numerator as real / d.degrees.denominator as real
    + d.minutes.numerator as real / d.minutes.denominator as real / 60.0
    + d.seconds.numerator as real / d.seconds.denominator as real / 3600.0
  }

  /** The conversion sees only the magnitude. */
  lemma DmsIgnoresSign(x: real)
    ensures DegreesToDms(-x) == DegreesToDms(x)
  {
  }

  /** Reconstruction: the triple denotes |x| to within 1/720000 of a degree,
      that is half of the 1/100 arc-second the seconds field resolves. */
  lemma DmsReconstruction(x: real)
    ensures Abs(DmsDegrees(DegreesToDms(x)) - Abs(x)) <= 1.0 / 720000.0
  {
    var a := Abs(x);
    var deg := a.Floor;
    var mf := (a - deg as real) * 60.0;
    var m := mf.Floor;
    var t := (mf - m as real) * 60.0 * 100.0;
    var s := Round(t);
    assert s as real <= t + 0.5 < s as real + 1.0;
    var d := DegreesToDms(x);
    assert d == Dms(Rational(deg, 1), Rational(m, 1), Rational(s, 100));
    assert DmsDegrees(d) == deg as real + m as real / 60.0 + s as real / 360000.0;
    assert a == deg as real + m as real / 60.0 + t / 360000.0;
  }

  /** Rounding never carries into the minutes: a seconds field of 60.00 is
      produced, for instance for 59.99995 minutes. */
  lemma SecondsCanReachSixty()
    ensures DegreesToDms(5999995.0 / 6000000.0) == Dms(Rational(0, 1), Rational(59, 1), Rational(6000, 100))
  {
    var x := 5999995.0 / 6000000.0;
    assert x.Floor == 0;
    assert (x * 60.0).Floor == 59;
    assert ((x * 60.0 - 59.0) * 60.0 * 100.0 + 0.5).Floor == 6000;
  }

  /** The New York example: 40.7128 is 40 degrees 42 minutes 46.08 seconds. */
  lemma LatitudeExample()
    ensures DegreesToDms(40.7128) == Dms(Rational(40, 1), Rational(42, 1), Rational(4608, 100))
  {
    assert (40.7128).Floor == 40;
    assert (0.7128 * 60.0).Floor == 42;
    assert ((42.768 - 42.0) * 60.0 * 100.0 + 0.5).Floor == 4608;
  }

  /** The New York example: -74.0060 is 74 degrees 0 minutes 21.60 seconds. */
  lemma LongitudeExample()
    ensures DegreesToDms(-74.0060) == Dms(Rational(74, 1), Rational(0, 1), Rational(2160, 100))
  {
    assert (74.0060).Floor == 74;
    assert (0.0060 * 60.0).Floor == 0;
    assert ((0.36 - 0.0) * 60.0 * 100.0 + 0.5).Floor == 2160;
  }

  // ---------------------------------------------------------------------------
  // The GPS directory
  // ---------------------------------------------------------------------------

  /** A tag's value in an EXIF directory. Values the model never inspects are
      kept as opaque bytes. */
  datatype TagValue = Ascii(text: string) | Rationals(values: seq<Rational>) | Opaque(bytes: seq<byte>)

  /** An image file directory: tag number to value. */
  type Ifd = map<nat, TagValue>

  // GPS tag numbers of the EXIF standard (piexif.GPSIFD).
  const GPSLatitudeRef: nat := 1
  const GPSLatitude: nat := 2
  const GPSLongitudeRef: nat := 3
  const GPSLongitude: nat := 4

  function DmsTag(d: Dms): TagValue {
    Rationals([d.degrees, d.minutes, d.seconds])
  }

  /** The `gpsIfd` record: the two hemisphere references and the two
      magnitudes in degrees, minutes and seconds, nothing else. */
  function GpsIfd(coords: Coordinates): (ifd: Ifd)
    ensures ifd.Keys == {GPSLatitudeRef, GPSLatitude, GPSLongitudeRef, GPSLongitude}
    ensures ifd[GPSLatitudeRef] == Ascii("N") <==> coords.latitude >= 0.0
    ensures ifd[GPSLatitudeRef] == Ascii("S") <==> coords.latitude < 0.0
    ensures ifd[GPSLongitudeRef] == Ascii("E") <==> coords.longitude >= 0.0
    ensures ifd[GPSLongitudeRef] == Ascii("W") <==> coords.longitude < 0.0
    ensures ifd[GPSLatitude] == DmsTag(DegreesToDms(coords.latitude))
    ensures ifd[GPSLongitude] == DmsTag(DegreesToDms(coords.longitude))
  {
    map[
      GPSLatitudeRef := Ascii(if coords.latitude >= 0.0 then "N" else "S"),
      GPSLatitude := DmsTag(DegreesToDms(coords.latitude)),
      GPSLongitudeRef := Ascii(if coords.longitude >= 0.0 then "E" else "W"),
      GPSLongitude := DmsTag(DegreesToDms(coords.longitude))
    ]
  }

  /** An independent reader of a GPS directory: the signed angle of a
      reference/triple pair, when both are well formed. */
  function ReadAngle(ifd: Ifd, refTag: nat, valueTag: nat, positive: string, negative: string): Option<real> {
    if refTag in ifd && valueTag in ifd
       && ifd[refTag] in {Ascii(positive), Ascii(negative)}
       && ifd[valueTag].Rationals? && |ifd[valueTag].values| == 3
       && ifd[valueTag].values[0].denominator != 0
       && ifd[valueTag].values[1].denominator != 0
       && ifd[valueTag].values[2].denominator != 0
    then
      var v := ifd[valueTag].values;
      var magnitude := DmsDegrees(Dms(v[0], v[1], v[2]));
      Some(if ifd[refTag] == Ascii(positive) then magnitude else -magnitude)
    else None
  }

  function ReadGps(ifd: Ifd): Option<Coordinates> {
    var lat := ReadAngle(ifd, GPSLatitudeRef, GPSLatitude, "N", "S");
    var lng := ReadAngle(ifd, GPSLongitudeRef, GPSLongitude, "E", "W");
    if lat.Some? && lng.Some? then Some(Coordinates(lat.value, lng.value)) else None
  }

  lemma AngleRoundTrip(x: real, positive: string, negative: string)
    requires positive != negative
    ensures var ifd := map[1 := Ascii(if x >= 0.0 then positive else negative), 2 := DmsTag(DegreesToDms(x))];
      var r := ReadAngle(ifd, 1, 2, positive, negative);
      r.Some? && Abs(r.value - x) <= 1.0 / 720000.0
  {
    DmsReconstruction(x);
  }

  /** Round trip: reading back the directory written for `coords` gives both
      coordinates, signs included, to within 1/720000 of a degree. */
  lemma GpsRoundTrip(coords: Coordinates)
    ensures ReadGps(GpsIfd(coords)).Some?
    ensures Abs(ReadGps(GpsIfd(coords)).value.latitude - coords.latitude) <= 1.0 / 720000.0
    ensures Abs(ReadGps(GpsIfd(coords)).value.longitude - coords.longitude) <= 1.0 / 720000.0
  {
    var ifd := GpsIfd(coords);
    AngleRoundTrip(coords.latitude, "N", "S");
    AngleRoundTrip(coords.longitude, "E", "W");
    var latIfd := map[1 := ifd[GPSLatitudeRef], 2 := ifd[GPSLatitude]];
    var lngIfd := map[1 := ifd[GPSLongitudeRef], 2 := ifd[GPSLongitude]];
    assert ReadAngle(ifd, GPSLatitudeRef, GPSLatitude, "N", "S") == ReadAngle(latIfd, 1, 2, "N", "S");
    assert ReadAngle(ifd, GPSLongitudeRef, GPSLongitude, "E", "W") == ReadAngle(lngIfd, 1, 2, "E", "W");
  }

  // ---------------------------------------------------------------------------
  // The EXIF container
  // ---------------------------------------------------------------------------

  /** piexif's EXIF object: five directories and an optional thumbnail. */
  datatype ExifObject = ExifObject(
    zeroth: Ifd, exif: Ifd, gps: Ifd, interop: Ifd, first: Ifd, thumbnail: Option<string>)

  /** The container built when no EXIF could be loaded. */
  const EmptyExif: ExifObject := ExifObject(map[], map[], map[], map[], map[], None)

  /** The container handed to `piexif.dump`: the loaded one with its GPS
      directory replaced, or a fresh empty one holding only the GPS directory. */
  function ExifToWrite(loaded: Result<ExifObject, string>, coords: Coordinates): (e: ExifObject)
    ensures e.gps == GpsIfd(coords)
    ensures loaded.Ok? ==>
      && e.zeroth == loaded.value.zeroth && e.exif == loaded.value.exif
      && e.interop == loaded.value.interop && e.first == loaded.value.first
      && e.thumbnail == loaded.value.thumbnail
    ensures loaded.Err? ==>
      e.zeroth == e.exif == e.interop == e.first == map[] && e.thumbnail == None
  {
    match loaded
    case Ok(exifObj) => exifObj.(gps := GpsIfd(coords))
    case Err(_) => EmptyExif.(gps := GpsIfd(coords))
  }

  /** Writing the same coordinates into an already written container changes
      nothing, and a second write replaces the first write's GPS data. */
  lemma RewriteReplacesGps(loaded: Result<ExifObject, string>, first: Coordinates, second: Coordinates)
    ensures ExifToWrite(Ok(ExifToWrite(loaded, first)), second) == ExifToWrite(loaded, second)
  {
  }

  // ---------------------------------------------------------------------------
  // Data URL to blob
  // ---------------------------------------------------------------------------

  /** `base64.split(",")[1]`: the text after the first comma, up to the next
      comma or the end; with no comma the missing piece reaches `atob` as the
      text "undefined". */
  function Base64Payload(dataUrl: string): (p: string)
    ensures ',' in dataUrl ==> ',' !in p
    ensures ',' in dataUrl ==>
      var rest := dataUrl[IndexOf(dataUrl, ',') + 1..];
      p <= rest && (|p| < |rest| ==> rest[|p|] == ',')
    ensures ',' !in dataUrl ==> p == "undefined"
  {
    var k := IndexOf(dataUrl, ',');
    if k == -1 then "undefined" else FirstField(dataUrl[k + 1..], ',')
  }

  /** Storing a character code into a `Uint8Array` keeps it modulo 256. */
  function ToUint8(c: char): byte {
    (c as int % 256) as byte
  }

  function Latin1Bytes(s: string): (r: seq<byte>)
    ensures |r| == |s|
    ensures forall i :: 0 <= i < |s| ==> r[i] == ToUint8(s[i])
  {
    seq(|s|, i requires 0 <= i < |s| => ToUint8(s[i]))
  }

  /** The blob `base64ToBlob` builds, as a value. */
  function DataUrlToBlob(dataUrl: string, mimeType: string, atob: string -> Result<string, string>): Result<Blob, string> {
    var byteString :- atob(Base64Payload(dataUrl));
    Ok(Blob(mimeType, Latin1Bytes(byteString)))
  }

  /** `base64ToBlob`: decode the payload, then copy each character code into a
      byte array of the same length. */
  method Base64ToBlob(base64: string, mimeType: string, atob: string -> Result<string, string>)
    returns (r: Result<Blob, string>)
    ensures r.Err? <==> atob(Base64Payload(base64)).Err?
    ensures r.Ok? ==> r.value.mimeType == mimeType
    ensures r.Ok? ==>
      var byteString := atob(Base64Payload(base64)).value;
      |r.value.bytes| == |byteString| &&
      forall i :: 0 <= i < |byteString| ==> r.value.bytes[i] == ToUint8(byteString[i])
    ensures r == DataUrlToBlob(base64, mimeType, atob)
  {
    var decoded := atob(Base64Payload(base64));
    if decoded.Err? {
      return Err(decoded.error);
    }
    var byteString := decoded.value;
    var ia := new byte[|byteString|];
    for i := 0 to |byteString|
      invariant forall k :: 0 <= k < i ==> ia[k] == ToUint8(byteString[k])
    {
      ia[i] := ToUint8(byteString[i]);
    }
    assert ia[..] == Latin1Bytes(byteString);
    r := Ok(Blob(mimeType, ia[..]));
  }

  // ---------------------------------------------------------------------------
  // writeGpsExif
  // ---------------------------------------------------------------------------

  /** The foreign operations `writeGpsExif` relies on; each may fail. */
  datatype ExifCodec = ExifCodec(
    readAsDataUrl: Blob -> Result<string, string>,      // FileReader.readAsDataURL
    load: string -> Result<ExifObject, string>,         // piexif.load
    dump: ExifObject -> Result<string, string>,         // piexif.dump
    insert: (string, string) -> Result<string, string>, // piexif.insert(exif, image)
    atob: string -> Result<string, string>)             // window.atob

  /** `writeGpsExif`. A failing `load` is recovered from; the write succeeds
      exactly when reading, dumping, inserting and decoding all succeed, and
      what is dumped and inserted is the loaded container with its GPS
      directory replaced. A written image is always tagged "image/jpeg". */
  function WriteGpsExif(imageBlob: Blob, coords: Coordinates, codec: ExifCodec): (r: Result<Blob, string>)
    ensures r.Ok? ==> r.value.mimeType == "image/jpeg"
    ensures r.Ok? <==>
      && codec.readAsDataUrl(imageBlob).Ok?
      && var base64 := codec.readAsDataUrl(imageBlob).value;
         var exifStr := codec.dump(ExifToWrite(codec.load(base64), coords));
         && exifStr.Ok?
         && codec.insert(exifStr.value, base64).Ok?
         && codec.atob(Base64Payload(codec.insert(exifStr.value, base64).value)).Ok?
    ensures r.Ok? ==>
      var base64 := codec.readAsDataUrl(imageBlob).value;
      var exifStr := codec.dump(ExifToWrite(codec.load(base64), coords)).value;
      r == DataUrlToBlob(codec.insert(exifStr, base64).value, "image/jpeg", codec.atob)
  {
    var base64 :- codec.readAsDataUrl(imageBlob);
    var exifObj := ExifToWrite(codec.load(base64), coords);
    var exifStr :- codec.dump(exifObj);
    var newBase64 :- codec.insert(exifStr, base64);
    DataUrlToBlob(newBase64, "image/jpeg", codec.atob)
  }
}
