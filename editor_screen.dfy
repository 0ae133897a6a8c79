/** The editor's derived values and decisions: the tagged count, whether
    processing is possible, keyboard navigation, forwarding a coordinate change
    to the current photo, and which buttons are disabled. */
module EditorScreen {
  import opened Wrappers
  import opened Types

  /** `taggedCount`: the number of photos with coordinates. */
  function TaggedCount(photos: seq<Photo>): nat {
    |Tagged(photos)|
  }

  /** `canProcess`; the Process button is disabled exactly when it is false. */
  predicate CanProcess(photos: seq<Photo>) {
    TaggedCount(photos) > 0
  }

  /** Processing is possible exactly when some photo has coordinates, and the
      count never exceeds the number of photos. */
  lemma CanProcessIffSomeTagged(photos: seq<Photo>)
    ensures TaggedCount(photos) <= |photos|
    ensures CanProcess(photos) <==> exists p :: p in photos && p.coordinates.Some?
  {
    if exists p :: p in photos && p.coordinates.Some? {
      var p :| p in photos && p.coordinates.Some?;
      assert p in Tagged(photos);
    }
    if CanProcess(photos) {
      assert Tagged(photos)[0] in Tagged(photos);
    }
  }

  /** The element a key event is aimed at. */
  datatype KeyTarget = InputElement | TextAreaElement | OtherElement

  /** What `handleKeyDown` does; a call also prevents the browser default. */
  datatype KeyAction = Ignore | CallPrevious | CallNext

  /** `handleKeyDown`: ignored while typing; the left arrow goes back unless at
      the first photo, the right arrow forward unless at the last. */
  function HandleKeyDown(target: KeyTarget, key: string, currentIndex: int, photoCount: nat): (action: KeyAction)
    ensures !target.OtherElement? ==> action == Ignore
    ensures action == CallPrevious <==> target.OtherElement? && key == "ArrowLeft" && currentIndex > 0
    ensures action == CallNext <==> target.OtherElement? && key == "ArrowRight" && currentIndex < photoCount - 1
  {
    if target.InputElement? || target.TextAreaElement? then Ignore
    else if key == "ArrowLeft" && currentIndex > 0 then CallPrevious
    else if key == "ArrowRight" && currentIndex < photoCount - 1 then CallNext
    else Ignore
  }

  /** The editor's `handleCoordinatesChange`: the change goes to the parent with
      the current photo's id, and only when there is a photo at `currentIndex`. */
  function ForwardCoordinates(photos: seq<Photo>, currentIndex: int, coords: Coordinates): (call: Option<(string, Coordinates)>)
    ensures call.Some? <==> 0 <= currentIndex < |photos|
    ensures call.Some? ==> call.value.0 == photos[currentIndex].id && call.value.1 == coords
  {
    if 0 <= currentIndex < |photos| then Some((photos[currentIndex].id, coords)) else None
  }

  predicate PreviousDisabled(currentIndex: int) {
    currentIndex == 0
  }

  predicate NextDisabled(currentIndex: int, photoCount: nat) {
    currentIndex == photoCount - 1
  }

  /** On a valid index the arrow keys do what the enabled buttons do: left acts
      exactly when Previous is enabled, right exactly when Next is. */
  lemma KeysAgreeWithButtons(currentIndex: int, photoCount: nat)
    requires 0 <= currentIndex < photoCount
    ensures HandleKeyDown(OtherElement, "ArrowLeft", currentIndex, photoCount) == CallPrevious
            <==> !PreviousDisabled(currentIndex)
    ensures HandleKeyDown(OtherElement, "ArrowRight", currentIndex, photoCount) == CallNext
            <==> !NextDisabled(currentIndex, photoCount)
  {
  }
}
