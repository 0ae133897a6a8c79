/** The shapes shared by the whole application: media blobs, files, photos,
    coordinates and the screens of the app. */
module Types {
  import opened Wrappers

  newtype byte = b: int | 0 <= b < 256

  /** A browser `Blob`: its media type (`blob.type`) and its content. */
  datatype Blob = Blob(mimeType: string, bytes: seq<byte>)

  /** A browser `File`: a blob with a name; `file.type` is the blob's media type. */
  datatype File = File(name: string, blob: Blob)

  datatype Coordinates = Coordinates(latitude: real, longitude: real)

  /** The range a stored coordinate pair is meant to respect. */
  predicate InRange(c: Coordinates) {
    -90.0 <= c.latitude <= 90.0 && -180.0 <= c.longitude <= 180.0
  }

  /** "pending" | "processing" | "complete" | "error" */
  datatype PhotoStatus = Pending | InProgress | Done | Failed

  /** One uploaded photo; a photo without coordinates has `None`. */
  datatype Photo = Photo(
    id: string,
    file: File,
    name: string,
    coordinates: Option<Coordinates>,
    status: PhotoStatus)

  /** "upload" | "editor" | "processing" | "complete" */
  datatype AppScreen = Upload | Editor | Processing | Complete

  /** The photos that have coordinates, in their original order. */
  function Tagged(photos: seq<Photo>): (r: seq<Photo>)
    ensures |r| <= |photos|
    ensures forall p :: p in r ==> p in photos && p.coordinates.Some?
    ensures forall p :: p in photos && p.coordinates.Some? ==> p in r
  {
    if photos == [] then []
    else
      assert photos == [photos[0]] + photos[1..];
      (if photos[0].coordinates.Some? then [photos[0]] else []) + Tagged(photos[1..])
  }

  /** Filtering commutes with concatenation, so the tagged photos keep their
      original relative order. */
  lemma {:induction false} TaggedAppend(a: seq<Photo>, b: seq<Photo>)
    ensures Tagged(a + b) == Tagged(a) + Tagged(b)
  {
    if a == [] {
      assert a + b == b;
    } else {
      assert (a + b)[0] == a[0];
      assert (a + b)[1..] == a[1..] + b;
      TaggedAppend(a[1..], b);
    }
  }
}
