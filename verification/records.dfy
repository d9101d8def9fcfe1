/** Shared vocabulary of the MemoBread model: the recording record that the
    backend stores and the pages display, optional values, the outcome of the
    one list request every page makes, and the JavaScript/Python "truthiness"
    tests the code applies to optional fields. */
module Records {

  /** A value that may be absent (`None` in Python, `null`/`undefined` in
      TypeScript). */
  datatype Option<+T> = None | Some(value: T)

  /** Points in time are opaque: the model only compares and copies them. */
  type Timestamp = int

  /** A stored voice memo. `latitude`, `longitude` and `city` are optional;
      `createdAt` is the server's receipt time. */
  datatype Recording = Recording(
    id: string,
    text: string,
    timestamp: Timestamp,
    latitude: Option<real>,
    longitude: Option<real>,
    city: Option<string>,
    createdAt: Timestamp)

  /** Result of the list request a page issues: the fetched list, or a
      transport or parse failure (the pages never look at its details). */
  datatype Fetch = Fetched(data: seq<Recording>) | FetchFailed

  /** The label shown (and the bucket used) for a recording with no city. */
  const UnknownLocation: string := "未知位置"

  /** A coordinate is truthy when it is present and non-zero: both Python's
      `and` and JavaScript's `&&` treat `0.0` like a missing value. */
  predicate CoordTruthy(c: Option<real>)
  {
    c.Some? && c.value != 0.0
  }

  /** An optional string is truthy when it is present and non-empty. */
  predicate StringTruthy(c: Option<string>)
  {
    c.Some? && c.value != ""
  }

  /** `latitude && longitude`: the condition under which the backend asks the
      geocoder and the history page shows the coordinate line. */
  predicate HasCoordinates(latitude: Option<real>, longitude: Option<real>)
  {
    CoordTruthy(latitude) && CoordTruthy(longitude)
  }

  /** `city || "未知位置"`: the city badge and the location bucket key. */
  function CityLabel(city: Option<string>): (shown: string)
    ensures shown != ""
    ensures StringTruthy(city) ==> shown == city.value
    ensures !StringTruthy(city) ==> shown == UnknownLocation
  {
    if StringTruthy(city) then city.value else UnknownLocation
  }

}
