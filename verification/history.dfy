/** The history page: fetch every recording once and list it in the order
    the service returned, each card showing the timestamp, a city badge, the
    text and, when both coordinates are truthy, the coordinate line. */
module HistoryPage {
  import opened Records

  const FetchErrorMessage: string := "获取历史记录失败，请重试"

  datatype HistoryState = HistoryState(recordings: seq<Recording>, isLoading: bool, error: Option<string>)

  /** State on mount: loading, no error, empty list. */
  const Initial: HistoryState := HistoryState([], true, None)

  /** `setIsLoading(true)` before the request. */
  function BeginFetch(s: HistoryState): (r: HistoryState)
    ensures r.isLoading && r.recordings == s.recordings && r.error == s.error
  {
    s.(isLoading := true)
  }

  /** The request settles: the list replaces the old one and the error
      clears, or the fixed message is set and the list stays; loading ends. */
  function Settle(s: HistoryState, outcome: Fetch): (r: HistoryState)
    ensures !r.isLoading
    ensures outcome.Fetched? ==> r.recordings == outcome.data && r.error == None
    ensures outcome.FetchFailed? ==>
      r.recordings == s.recordings && r.error == Some(FetchErrorMessage)
  {
    match outcome
    case Fetched(data) => HistoryState(data, false, None)
    case FetchFailed => s.(isLoading := false, error := Some(FetchErrorMessage))
  }

  /** One card. `coordinates` holds the pair shown on the coordinate line,
      or `None` when the line is hidden. */
  datatype Card = Card(
    id: string,
    timestamp: Timestamp,
    cityBadge: string,
    text: string,
    coordinates: Option<(real, real)>)

  /** `(recording.latitude && recording.longitude) && ...`: the line shows
      only when both coordinates are present and non-zero. */
  function CoordinateLine(rec: Recording): (line: Option<(real, real)>)
    ensures line.Some? <==> HasCoordinates(rec.latitude, rec.longitude)
    ensures line.Some? ==> line.value == (rec.latitude.value, rec.longitude.value)
  {
    if HasCoordinates(rec.latitude, rec.longitude)
    then Some((rec.latitude.value, rec.longitude.value))
    else None
  }

  /** What `(recording.latitude && recording.longitude) && <line>` renders
      as written. `&&` yields its first falsy operand: a missing value
      renders nothing, but the number `0` is rendered as the text "0". */
  datatype CoordinateSlot = Hidden | StrayZero | Line(latitude: real, longitude: real)

  function CoordinateSlotAsWritten(rec: Recording): (slot: CoordinateSlot)
    ensures slot.Line? <==> HasCoordinates(rec.latitude, rec.longitude)
    ensures slot == StrayZero <==>
      rec.latitude == Some(0.0) || (CoordTruthy(rec.latitude) && rec.longitude == Some(0.0))
    ensures slot == Hidden <==>
      rec.latitude.None? || (CoordTruthy(rec.latitude) && rec.longitude.None?)
  {
    match rec.latitude
    case None => Hidden
    case Some(lat) =>
      if lat == 0.0 then StrayZero
      else match rec.longitude
        case None => Hidden
        case Some(lon) => if lon == 0.0 then StrayZero else Line(lat, lon)
  }

  /** A recording at latitude 0 (on the equator) gets a stray "0" in its
      card instead of no coordinate line. */
  lemma StrayZeroCounterexample(rec: Recording)
    requires rec.latitude == Some(0.0) && rec.longitude == Some(121.47)
    ensures CoordinateSlotAsWritten(rec) == StrayZero
    ensures CoordinateLine(rec) == None
  {
  }

  /** Apart from the stray "0", the as-written slot and the intended line
      agree: the same pair is shown exactly when the line is shown, and
      nothing is shown otherwise. */
  lemma SlotAgreesWithLine(rec: Recording)
    ensures CoordinateSlotAsWritten(rec) != StrayZero ==>
      match CoordinateSlotAsWritten(rec)
      case Line(lat, lon) => CoordinateLine(rec) == Some((lat, lon))
      case _ => CoordinateLine(rec) == None
  {
  }

  function RenderCard(rec: Recording): (card: Card)
  {
    Card(rec.id, rec.timestamp, CityLabel(rec.city), rec.text, CoordinateLine(rec))
  }

  /** `recordings.map(...)`: one card per recording, in the fetched order. */
  function RenderCards(recs: seq<Recording>): (cards: seq<Card>)
    ensures |cards| == |recs|
    ensures forall i :: 0 <= i < |recs| ==>
      && cards[i].id == recs[i].id
      && cards[i].timestamp == recs[i].timestamp
      && cards[i].text == recs[i].text
      && cards[i].cityBadge != ""
      && (StringTruthy(recs[i].city) ==> cards[i].cityBadge == recs[i].city.value)
      && (!StringTruthy(recs[i].city) ==> cards[i].cityBadge == UnknownLocation)
      && (cards[i].coordinates.Some? <==> HasCoordinates(recs[i].latitude, recs[i].longitude))
      && (cards[i].coordinates.Some? ==>
            cards[i].coordinates.value == (recs[i].latitude.value, recs[i].longitude.value))
  {
    seq(|recs|, i requires 0 <= i < |recs| => RenderCard(recs[i]))
  }

  datatype HistoryView = Spinner | ErrorBox(message: string) | NoRecordings | CardList(cards: seq<Card>)

  /** The render branch: loading, then a truthy error, then an empty list,
      then the cards. */
  function SelectView(s: HistoryState): (v: HistoryView)
    ensures v == Spinner <==> s.isLoading
    ensures v.ErrorBox? <==> !s.isLoading && StringTruthy(s.error)
    ensures v.ErrorBox? ==> v.message == s.error.value
    ensures v == NoRecordings <==> !s.isLoading && !StringTruthy(s.error) && s.recordings == []
    ensures v.CardList? ==> v.cards == RenderCards(s.recordings) && v.cards != []
  {
    if s.isLoading then Spinner
    else if StringTruthy(s.error) then ErrorBox(s.error.value)
    else if |s.recordings| == 0 then NoRecordings
    else CardList(RenderCards(s.recordings))
  }

  function AfterMount(outcome: Fetch): (v: HistoryView)
  {
    SelectView(Settle(BeginFetch(Initial), outcome))
  }

  /** The page shows a spinner until the request settles; then an empty list
      shows the empty state, a non-empty one a card per recording in the
      service's order, and a failure the fixed message. */
  lemma MountLifecycle(outcome: Fetch)
    ensures SelectView(Initial) == Spinner
    ensures outcome == Fetched([]) ==> AfterMount(outcome) == NoRecordings
    ensures outcome.Fetched? && outcome.data != [] ==>
      && AfterMount(outcome).CardList?
      && |AfterMount(outcome).cards| == |outcome.data|
      && forall i :: 0 <= i < |outcome.data| ==>
           AfterMount(outcome).cards[i].id == outcome.data[i].id
    ensures outcome.FetchFailed? ==> AfterMount(outcome) == ErrorBox(FetchErrorMessage)
  {
  }

  /** A zero coordinate hides the coordinate line even when the other one is
      set, as does a missing one. */
  lemma ZeroCoordinateHidden(rec: Recording)
    requires rec.latitude == Some(0.0) || rec.longitude == Some(0.0)
      || rec.latitude.None? || rec.longitude.None?
    ensures RenderCard(rec).coordinates == None
  {
  }
}
