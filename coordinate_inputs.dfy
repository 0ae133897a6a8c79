/** The latitude and longitude text fields: each edit either produces one new
    coordinate pair for `onChange` or nothing. The parsed number is the result
    of `parseFloat` on the field's text, `None` standing for NaN. */
module CoordinateInputs {
  import opened Wrappers
  import opened Types

  /** `handleLatChange`: accept a latitude in [-90, 90], keeping the current
      longitude or 0 when the photo has no coordinates yet. */
  function HandleLatChange(lat: Option<real>, coordinates: Option<Coordinates>): (emitted: Option<Coordinates>)
    ensures emitted.Some? <==> lat.Some? && -90.0 <= lat.value <= 90.0
    ensures emitted.Some? ==> emitted.value.latitude == lat.value
    ensures emitted.Some? && coordinates.Some? ==> emitted.value.longitude == coordinates.value.longitude
    ensures emitted.Some? && coordinates.None? ==> emitted.value.longitude == 0.0
  {
    if lat.Some? && lat.value >= -90.0 && lat.value <= 90.0 then
      Some(Coordinates(lat.value, if coordinates.Some? then coordinates.value.longitude else 0.0))
    else None
  }

  /** `handleLngChange`: accept a longitude in [-180, 180], keeping the current
      latitude or 0. */
  function HandleLngChange(lng: Option<real>, coordinates: Option<Coordinates>): (emitted: Option<Coordinates>)
    ensures emitted.Some? <==> lng.Some? && -180.0 <= lng.value <= 180.0
    ensures emitted.Some? ==> emitted.value.longitude == lng.value
    ensures emitted.Some? && coordinates.Some? ==> emitted.value.latitude == coordinates.value.latitude
    ensures emitted.Some? && coordinates.None? ==> emitted.value.latitude == 0.0
  {
    if lng.Some? && lng.value >= -180.0 && lng.value <= 180.0 then
      Some(Coordinates(if coordinates.Some? then coordinates.value.latitude else 0.0, lng.value))
    else None
  }

  /** Starting from no coordinates or coordinates in range, every pair either
      field emits is in range. */
  lemma EditsKeepRange(value: Option<real>, coordinates: Option<Coordinates>)
    requires coordinates.None? || InRange(coordinates.value)
    ensures HandleLatChange(value, coordinates).Some? ==> InRange(HandleLatChange(value, coordinates).value)
    ensures HandleLngChange(value, coordinates).Some? ==> InRange(HandleLngChange(value, coordinates).value)
  {
  }

  /** The bounds are inclusive. */
  lemma BoundsInclusive(coordinates: Option<Coordinates>)
    ensures HandleLatChange(Some(90.0), coordinates).Some? && HandleLatChange(Some(-90.0), coordinates).Some?
    ensures HandleLngChange(Some(180.0), coordinates).Some? && HandleLngChange(Some(-180.0), coordinates).Some?
    ensures HandleLatChange(Some(90.5), coordinates).None? && HandleLngChange(Some(-180.5), coordinates).None?
  {
  }
}
