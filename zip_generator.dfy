/** Packing processed photos into the downloadable archive: entry naming,
    entry selection in list order, and the archive's file name. */
module ZipGenerator {
  import opened Wrappers
  import opened Text
  import opened Types

  // ---------------------------------------------------------------------------
  // Entry names
  // ---------------------------------------------------------------------------

  /** The base of an entry name: the photo's name without the text from its
      last '.' on, unless that '.' is the first character. */
  function BaseName(name: string): string {
    var lastDot := LastIndexOf(name, '.');
    if lastDot > 0 then name[..lastDot] else name
  }

  /** The name of a photo's entry: its base name with ".jpg" appended. What
      is dropped from the name is exactly an extension: a '.' that is neither
      the first character nor followed by another '.', and what follows it;
      and whenever the name has a '.' after its first character, something
      is dropped. */
  function EntryName(name: string): (r: string)
    ensures EndsWith(r, ".jpg")
    ensures |r| >= 4 && r[..|r| - 4] <= name
    ensures |r| - 4 < |name| ==>
      |r| - 4 > 0 && name[|r| - 4] == '.' && '.' !in name[|r| - 3..]
    ensures name != [] ==> |r| > 4
    ensures (exists k :: 0 < k < |name| && name[k] == '.') ==> |r| - 4 < |name|
  {
    var base := BaseName(name);
    var r := base + ".jpg";
    assert r[..|r| - 4] == base;
    assert r[|r| - 4..] == ".jpg";
    assert (exists k :: 0 < k < |name| && name[k] == '.') ==> LastIndexOf(name, '.') > 0 by {
      if exists k :: 0 < k < |name| && name[k] == '.' {
        var k :| 0 < k < |name| && name[k] == '.';
        LastIndexOfAtLeast(name, '.', k);
      }
    }
    r
  }

  /** Naming a name that is not empty a second time changes nothing. */
  lemma EntryNameIdempotent(name: string)
    requires name != []
    ensures EntryName(EntryName(name)) == EntryName(name)
  {
    var base := BaseName(name);
    var once := base + ".jpg";
    assert |base| > 0;
    assert once[..|base|] == base;
    assert once[|base|] == '.';
    assert once[|base| + 1..] == "jpg";
    LastIndexOfIs(once, '.', |base|);
    assert BaseName(once) == base;
  }

  /** The empty name is the exception: it grows on every application. */
  lemma EmptyNameNotIdempotent()
    ensures EntryName("") == ".jpg"
    ensures EntryName(EntryName("")) == ".jpg.jpg"
  {
    assert "" + ".jpg" == ".jpg";
    LastIndexOfIs(".jpg", '.', 0);
    assert ".jpg" + ".jpg" == ".jpg.jpg";
  }

  /** Worked cases: the extension is replaced whatever its case; a leading '.'
      is not an extension; only the last extension goes. */
  lemma EntryNameExamples()
    ensures EntryName("IMG_001.HEIC") == "IMG_001.jpg"
    ensures EntryName(".hidden") == ".hidden.jpg"
    ensures EntryName("a.b.c") == "a.b.jpg"
  {
    LastIndexOfIs("IMG_001.HEIC", '.', 7);
    assert "IMG_001.HEIC"[..7] + ".jpg" == "IMG_001.jpg";
    LastIndexOfIs(".hidden", '.', 0);
    assert ".hidden" + ".jpg" == ".hidden.jpg";
    LastIndexOfIs("a.b.c", '.', 3);
    assert "a.b.c"[..3] + ".jpg" == "a.b.jpg";
  }

  // ---------------------------------------------------------------------------
  // Entries
  // ---------------------------------------------------------------------------

  /** The archive's entries after visiting `photos` in order: a photo with a
      processed blob puts that blob under its entry name, replacing whatever
      an earlier photo put there. */
  function ArchiveEntries(photos: seq<Photo>, blobs: map<string, Blob>): map<string, Blob> {
    if photos == [] then map[]
    else
      var n := |photos| - 1;
      var prior := ArchiveEntries(photos[..n], blobs);
      if photos[n].id in blobs then prior[EntryName(photos[n].name) := blobs[photos[n].id]] else prior
  }

  /** The number of photos that have a processed blob. */
  function PackedCount(photos: seq<Photo>, blobs: map<string, Blob>): (k: nat)
    ensures k == |set i | 0 <= i < |photos| && photos[i].id in blobs|
  {
    if photos == [] then 0
    else
      var n := |photos| - 1;
      var init := photos[..n];
      var before := set i | 0 <= i < n && init[i].id in blobs;
      var last: set<int> := if photos[n].id in blobs then {n} else {};
      assert before == set i | 0 <= i < n && photos[i].id in blobs;
      assert (set i | 0 <= i < |photos| && photos[i].id in blobs) == before + last;
      assert before !! last;
      PackedCount(init, blobs) + |last|
  }

  /** An entry exists exactly for the names of photos that have a processed
      blob; photos without one are skipped. */
  lemma {:induction false} ArchiveKeys(photos: seq<Photo>, blobs: map<string, Blob>, name: string)
    ensures name in ArchiveEntries(photos, blobs) <==>
      exists i :: 0 <= i < |photos| && photos[i].id in blobs && EntryName(photos[i].name) == name
  {
    if photos != [] {
      var n := |photos| - 1;
      var init := photos[..n];
      ArchiveKeys(init, blobs, name);
      assert forall i :: 0 <= i < n ==> init[i] == photos[i];
      if name in ArchiveEntries(photos, blobs)
         && !(photos[n].id in blobs && EntryName(photos[n].name) == name) {
        var i :| 0 <= i < n && init[i].id in blobs && EntryName(init[i].name) == name;
        assert photos[i] == init[i];
      }
    }
  }

  /** Collisions: the last photo in list order with a given entry name owns
      the entry. */
  lemma {:induction false} ArchiveLastWins(photos: seq<Photo>, blobs: map<string, Blob>, i: nat)
    requires i < |photos| && photos[i].id in blobs
    requires forall j :: i < j < |photos| && photos[j].id in blobs ==>
      EntryName(photos[j].name) != EntryName(photos[i].name)
    ensures EntryName(photos[i].name) in ArchiveEntries(photos, blobs)
    ensures ArchiveEntries(photos, blobs)[EntryName(photos[i].name)] == blobs[photos[i].id]
  {
    var n := |photos| - 1;
    if i < n {
      var init := photos[..n];
      assert init[i] == photos[i];
      forall j | i < j < |init| && init[j].id in blobs
        ensures EntryName(init[j].name) != EntryName(init[i].name)
      {
        assert init[j] == photos[j];
      }
      ArchiveLastWins(init, blobs, i);
    }
  }

  /** No more entries than photos with a processed blob. */
  lemma {:induction false} ArchiveSize(photos: seq<Photo>, blobs: map<string, Blob>)
    ensures |ArchiveEntries(photos, blobs)| <= PackedCount(photos, blobs)
  {
    if photos != [] {
      ArchiveSize(photos[..|photos| - 1], blobs);
    }
  }

  /** Without processed blobs the archive is empty. */
  lemma {:induction false} ArchiveOfNothing(photos: seq<Photo>)
    ensures ArchiveEntries(photos, map[]) == map[]
  {
    if photos != [] {
      ArchiveOfNothing(photos[..|photos| - 1]);
    }
  }

  // ---------------------------------------------------------------------------
  // generateZip
  // ---------------------------------------------------------------------------

  /** The options passed to `generateAsync`. */
  datatype GenerateOptions = GenerateOptions(outputType: string, compression: string, level: nat)

  const ZipOptions: GenerateOptions := GenerateOptions("blob", "DEFLATE", 6)

  /** `generateZip`: visit the photos in order, add an entry for each with a
      processed blob, then compress the whole archive with DEFLATE at level 6.
      The compressor is an oracle that may fail. */
  method GenerateZip(
    photos: seq<Photo>,
    processedBlobs: map<string, Blob>,
    generateAsync: (map<string, Blob>, GenerateOptions) -> Result<Blob, string>)
    returns (entries: map<string, Blob>, zip: Result<Blob, string>)
    ensures entries == ArchiveEntries(photos, processedBlobs)
    ensures zip == generateAsync(entries, ZipOptions)
    ensures |entries| <= PackedCount(photos, processedBlobs)
    ensures forall name :: name in entries ==> EndsWith(name, ".jpg")
  {
    entries := map[];
    for i := 0 to |photos|
      invariant entries == ArchiveEntries(photos[..i], processedBlobs)
      invariant forall name :: name in entries ==> EndsWith(name, ".jpg")
    {
      var photo := photos[i];
      assert photos[..i + 1][..i] == photos[..i];
      if photo.id in processedBlobs {
        var filename := photo.name;
        var lastDot := LastIndexOf(filename, '.');
        if lastDot > 0 {
          filename := filename[..lastDot];
        }
        filename := filename + ".jpg";
        assert filename == EntryName(photo.name);
        entries := entries[filename := processedBlobs[photo.id]];
      }
    }
    assert photos[..|photos|] == photos;
    ArchiveSize(photos, processedBlobs);
    zip := generateAsync(entries, ZipOptions);
  }

  // ---------------------------------------------------------------------------
  // Archive file name
  // ---------------------------------------------------------------------------

  /** `generateZipFilename`: the date part (before the first 'T') of the
      current time's ISO string, between "geotag-photos-" and ".zip". The
      date part stops only at a 'T' or at the end of the string. */
  function GenerateZipFilename(isoNow: string): (r: string)
    ensures |r| >= 18 && r[..14] == "geotag-photos-" && EndsWith(r, ".zip")
    ensures r[14..|r| - 4] <= isoNow && 'T' !in r[14..|r| - 4]
    ensures |r| - 18 < |isoNow| ==> isoNow[|r| - 18] == 'T'
  {
    var date := FirstField(isoNow, 'T');
    var r := "geotag-photos-" + date + ".zip";
    assert r[14..|r| - 4] == date;
    assert r[|r| - 4..] == ".zip";
    r
  }

  lemma FilenameExample()
    ensures GenerateZipFilename("2026-10-15T08:30:00.000Z") == "geotag-photos-" + "2026-10-15" + ".zip"
  {
    var iso := "2026-10-15T08:30:00.000Z";
    assert iso[..10] == "2026-10-15";
    assert 'T' !in iso[..10];
    IndexOfIs(iso, 'T', 10);
    assert FirstField(iso, 'T') == "2026-10-15";
    assert GenerateZipFilename(iso) == "geotag-photos-" + FirstField(iso, 'T') + ".zip";
  }
}
