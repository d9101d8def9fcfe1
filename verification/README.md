# MemoBread core, modelled in Dafny

MemoBread is a personal voice-memo tool. A FastAPI backend keeps recordings
in an in-memory dictionary. A React front end has four pages: record,
history, locations and search. This project models the logic those pieces
contain as immutable datatypes and pure functions, and proves their
properties:

- `records.dfy` (`Records`): the recording record, optional values, the
  outcome of the list request, and the truthiness tests the code applies. A
  coordinate is falsy when missing or `0`. A city is falsy when missing or
  empty.
- `store.dfy` (`RecordingStore`): the backend's `create`, `list`, `get` and
  `delete` handlers. They work over the dictionary together with its key
  insertion order. The fresh id, the two clock readings, the transcriber and
  the reverse geocoder are parameters.
- `record_timer.dfy` (`RecordTimer`): the record page's start, stop and
  once-a-second tick, as explicit transitions.
- `time_format.dfy` (`TimeFormat`): the page's `mm:ss` formatter and a
  parser that inverts it.
- `locations.dfy` (`LocationsPage`): the group-by-city loop, the fetch
  lifecycle and the choice of display.
- `search.dfy` (`SearchPage`): the blank-query guard, the case-insensitive
  substring filter, the field copy with a score, the sort by descending
  score, the state updates and the choice of display. Lower-casing is a
  per-character function passed in. The random draws are an input.
- `history.dfy` (`HistoryPage`): the fetch lifecycle, the choice of display,
  the city badge and the coordinate-line condition.
- `app_shell.dfy` (`AppShell`): the click handler that maps an `href` to a
  page name, and the page dispatch.

Three facts about the code shape the model:

- The record page has no geolocation and does not submit anything when
  recording stops. Stopping only clears the recording flag.
- The page name is the whole `href` minus its leading `/`, not its first
  segment. So `/history/1` names no known page and shows the record page.
- `renderPage` shows placeholder views for `history`, `locations` and
  `search`, not the page components. The page components are modelled on
  their own.

## Model

| member | source | states |
|---|---|---|
| `Records.CityLabel` | frontend/src/pages/HistoryPage.tsx:67 | The badge is never empty. It is the city when the city is truthy, and "未知位置" when the city is missing or empty. |
| `RecordingStore.Create` | backend/app/routes/recording.py:28-53 | The record is stored under the fresh id and nothing else in the map changes. A missing timestamp becomes `now` and a supplied one is kept. The text is the transcription of the audio. Without two truthy coordinates the city is the client's. With them, a truthy geocoded city wins over the client's. The store stays valid: every key is listed once in order and each record sits under its own id. |
| `RecordingStore.EmptyValid` | backend/app/routes/recording.py:12 | The store starts empty and valid, with nothing to list. |
| `RecordingStore.CreateFresh` | backend/app/routes/recording.py:28-51 | Creating under an id not yet stored adds exactly one key, and every other entry keeps its value. |
| `RecordingStore.ListAfterCreate` | backend/app/routes/recording.py:51-58 | After a create under a fresh id, the list is the old list followed by the new record. |
| `RecordingStore.GeocoderNotConsulted` | backend/app/routes/recording.py:35-39 | Unless both coordinates are truthy, create gives the same result whichever geocoder is used, so a `0.0` coordinate skips the lookup. |
| `RecordingStore.GetAfterCreate` | backend/app/routes/recording.py:51-53 | A get right after a create returns the created record. |
| `RecordingStore.List` | backend/app/routes/recording.py:55-58 | The list has one entry per key, in key insertion order. It holds exactly the stored values. |
| `RecordingStore.Get` | backend/app/routes/recording.py:60-66 | A present id returns its record. An absent id returns 404 "Recording not found". |
| `RecordingStore.Delete` | backend/app/routes/recording.py:68-75 | An absent id returns 404 and the store is unchanged. A present id loses exactly that key and its place in the order, and the fixed success message is returned. |
| `RecordingStore.DeleteThenGet` | backend/app/routes/recording.py:60-75 | After deleting a present id, a get of it returns 404 and the list is one shorter. Every other id still returns the same record. The list holds exactly the old records whose id differs. |
| `RecordingStore.ListedIdsAreKeys` | backend/app/routes/recording.py:41-51 | A get of any listed record's id returns that record. |
| `RecordTimer.Start` | frontend/src/pages/RecordPage.tsx:53-57 | Start sets recording and resets time and progress to 0, whatever they were. |
| `RecordTimer.Stop` | frontend/src/pages/RecordPage.tsx:59-61 | Stop clears the recording flag and leaves time and progress unchanged. |
| `RecordTimer.OnTick` | frontend/src/pages/RecordPage.tsx:41-45 | While recording, a tick adds exactly one second and sets progress to min(progress + 1, 100), so it never decreases and never passes 100. While idle there is no interval, so nothing changes. |
| `RecordTimer.RunConsistent` | frontend/src/pages/RecordPage.tsx:41-61 | Over any sequence of start, stop and tick, progress stays equal to min(time, 100). |
| `RecordTimer.ProgressNeverExceedsMax` | frontend/src/pages/RecordPage.tsx:34-61 | From the page's initial state, progress never exceeds 100 and always equals min(time, 100). |
| `RecordTimer.TicksAfterStart` | frontend/src/pages/RecordPage.tsx:41-57 | After a start followed by n ticks, time is n and progress is min(n, 100). |
| `RecordTimer.ProgressMonotone` | frontend/src/pages/RecordPage.tsx:41-50 | Within a session (no start pressed), neither progress nor time decreases. |
| `RecordTimer.IdleTicksChangeNothing` | frontend/src/pages/RecordPage.tsx:38-61 | After a stop, any number of ticks leaves time and progress where the stop left them. |
| `TimeFormat.FormatTime` | frontend/src/pages/RecordPage.tsx:63-67 | The display is at least five characters long. Below 6000 seconds it is exactly five, with the colon in the middle. |
| `TimeFormat.ParseFormat` | frontend/src/pages/RecordPage.tsx:63-67 | Parsing the display gives back the seconds, for every non-negative count. |
| `TimeFormat.ParseIffFormat` | frontend/src/pages/RecordPage.tsx:63-67 | The parser maps a string to s exactly when the formatter writes that string for s. |
| `TimeFormat.FiveCharacters` | frontend/src/pages/RecordPage.tsx:63-67 | Below 6000 seconds the display is `dd:dd`. |
| `TimeFormat.DigitsValue` | frontend/src/pages/RecordPage.tsx:65-66 | Reading back the decimal `toString` of n gives n. |
| `LocationsPage.AddToGroups` | frontend/src/pages/LocationsPage.tsx:19-23 | One loop step appends the record to the bucket with its key, or opens a new bucket at the end when the key is new. Other buckets are unchanged, keys stay distinct, and the total size grows by one. |
| `LocationsPage.GroupByLocation` | frontend/src/pages/LocationsPage.tsx:17-24 | Bucket keys are distinct, and bucket sizes sum to the number of fetched recordings. |
| `LocationsPage.GroupingIsPartition` | frontend/src/pages/LocationsPage.tsx:17-24 | Each bucket holds exactly its key's recordings, in fetched order, and is non-empty. Every recording's key has a bucket, with a falsy city going to "未知位置". |
| `LocationsPage.PartitionPlacesOnce` | frontend/src/pages/LocationsPage.tsx:18-23 | Each recording lies in exactly one bucket, the one keyed by its city label. |
| `LocationsPage.EmptyIffNoGroups` | frontend/src/pages/LocationsPage.tsx:17-24 | There are no buckets exactly when no recordings were fetched. |
| `LocationsPage.BeginFetch` | frontend/src/pages/LocationsPage.tsx:13 | Loading starts and nothing else changes. |
| `LocationsPage.Settle` | frontend/src/pages/LocationsPage.tsx:14-33 | Loading ends either way. On success the list is stored, its buckets partition it, and the error is cleared. On failure only the fixed message is set. |
| `LocationsPage.SelectView` | frontend/src/pages/LocationsPage.tsx:54-69 | Precedence is loading, then a truthy error, then no buckets, then the bucket cards. |
| `LocationsPage.MountLifecycle` | frontend/src/pages/LocationsPage.tsx:5-69 | A spinner shows first. Then an empty list shows the empty state, a non-empty list shows its buckets, and a failure shows the fixed message. |
| `LocationsPage.InheritedKeyCounterexample` | frontend/src/pages/LocationsPage.tsx:19-23 | As written, one recording with city "toString" makes the page show the failure message. The corrected grouping puts it in its own bucket. |
| `LocationsPage.AddAsWritten` | frontend/src/pages/LocationsPage.tsx:19-23 | One step as written throws exactly when the key has no bucket yet and names an inherited object member. Otherwise it is the corrected step. |
| `LocationsPage.GroupAsWritten` | frontend/src/pages/LocationsPage.tsx:17-24 | When the loop as written does not throw, it builds exactly the corrected buckets, with distinct keys. |
| `LocationsPage.ThrowsIffInherited` | frontend/src/pages/LocationsPage.tsx:17-24 | The loop as written throws exactly when some fetched recording's key names an inherited object member. |
| `LocationsPage.SettleAsWritten` | frontend/src/pages/LocationsPage.tsx:14-33 | Loading ends either way. Without a throw, it equals the corrected settle. When the grouping throws, the list is already stored, the old buckets stay and the fixed message is set. |
| `LocationsPage.AsWrittenAgrees` | frontend/src/pages/LocationsPage.tsx:17-24 | When no key names an inherited object member, the loop as written and the corrected grouping agree. |
| `SearchPage.Includes` | frontend/src/pages/SearchPage.tsx:25 | `includes` is true exactly when the needle occurs at some position of the text. |
| `SearchPage.Matching` | frontend/src/pages/SearchPage.tsx:24-25 | A recording is kept exactly when it is fetched and its lower-cased text contains the lower-cased query. Each kept recording appears as often as it was fetched. |
| `SearchPage.Score` | frontend/src/pages/SearchPage.tsx:33 | A draw in [0, 1) gives a score in [0.5, 1.0). |
| `SearchPage.InsertByScore` | frontend/src/pages/SearchPage.tsx:35 | Insertion adds exactly the one result, as a multiset, and every output entry is the new one or an old one. |
| `SearchPage.InsertKeepsOrder` | frontend/src/pages/SearchPage.tsx:35 | Inserting into a list sorted by descending score keeps it sorted. |
| `SearchPage.SortByScore` | frontend/src/pages/SearchPage.tsx:35 | The output is a permutation of the input and is non-increasing by score. |
| `SearchPage.Search` | frontend/src/pages/SearchPage.tsx:24-35 | The results are a permutation of the scored matches, with one result per match, ordered non-increasing by score. |
| `SearchPage.SearchSound` | frontend/src/pages/SearchPage.tsx:24-35 | Every result's text contains the untrimmed query ignoring case, and its score is in [0.5, 1.0). It equals a fetched recording with id, text, timestamp, coordinates and city copied unchanged. |
| `SearchPage.SearchComplete` | frontend/src/pages/SearchPage.tsx:24-32 | Every fetched recording whose lower-cased text contains the lower-cased query appears among the results with its fields unchanged. |
| `SearchPage.SetQuery` | frontend/src/pages/SearchPage.tsx:72-73 | Typing replaces the query and nothing else. |
| `SearchPage.Submit` | frontend/src/pages/SearchPage.tsx:16-20 | A blank or whitespace-only query changes nothing. Otherwise searching starts and the page remembers that a search was made. |
| `SearchPage.Settle` | frontend/src/pages/SearchPage.tsx:22-44 | Searching ends either way, and the input keeps whatever was typed meanwhile. On success the results are the search of the fetched list by the query captured at submit, and the error is cleared. On failure the fixed message is set and the old results stay. |
| `SearchPage.HandleSearch` | frontend/src/pages/SearchPage.tsx:13-45 | A blank query is a no-op. Otherwise the search ends with `hasSearched` set, plus the success or failure updates above, for the submitted query. |
| `SearchPage.EditWhileSearching` | frontend/src/pages/SearchPage.tsx:13-25 | Editing the input while the request runs keeps the edit in the box. The results and error stay those of the submitted query. |
| `SearchPage.SelectView` | frontend/src/pages/SearchPage.tsx:84-122 | Precedence is searching, then a truthy error, then a search with no results, then the results, else nothing. |
| `SearchPage.MatchingEmpty` | frontend/src/pages/SearchPage.tsx:24-25 | The filter is empty exactly when no fetched recording matches. |
| `SearchPage.SearchLifecycle` | frontend/src/pages/SearchPage.tsx:13-122 | Before any search nothing is shown, and a spinner shows while one runs. A failure shows the fixed message. "No matches" shows exactly when no fetched text contains the query, including an empty list. Otherwise the sorted results show. |
| `SearchPage.BlankQueryIsNoOp` | frontend/src/pages/SearchPage.tsx:16 | With a blank query the state, and so the display, stay as they were. |
| `HistoryPage.BeginFetch` | frontend/src/pages/HistoryPage.tsx:13 | Loading starts and nothing else changes. |
| `HistoryPage.Settle` | frontend/src/pages/HistoryPage.tsx:12-21 | Loading ends either way. On success the list equals the fetched data and the error is cleared. On failure the fixed message is set and the list stays. |
| `HistoryPage.CoordinateLine` | frontend/src/pages/HistoryPage.tsx:71-75 | The coordinate line shows exactly when both coordinates are truthy, and it shows those two values. |
| `HistoryPage.RenderCards` | frontend/src/pages/HistoryPage.tsx:57-77 | There is one card per recording, in the service's order. Each card keeps the id, timestamp and text, with the city-or-"未知位置" badge. It has the intended coordinate line: shown exactly when both coordinates are truthy, with the recording's own latitude and longitude, otherwise nothing. |
| `HistoryPage.CoordinateSlotAsWritten` | frontend/src/pages/HistoryPage.tsx:71-75 | As written, the slot shows the line exactly when both coordinates are truthy. It renders a stray "0" exactly when the latitude is 0, or the latitude is truthy and the longitude is 0. Otherwise it renders nothing. |
| `HistoryPage.StrayZeroCounterexample` | frontend/src/pages/HistoryPage.tsx:71 | A recording at latitude 0 with a non-zero longitude gets the stray "0" as written. The intended line is hidden. |
| `HistoryPage.SlotAgreesWithLine` | frontend/src/pages/HistoryPage.tsx:71-75 | Outside the stray-"0" case, the as-written slot and the intended line show the same pair or nothing. |
| `HistoryPage.SelectView` | frontend/src/pages/HistoryPage.tsx:42-79 | Precedence is loading, then a truthy error, then an empty list, then the cards. |
| `HistoryPage.MountLifecycle` | frontend/src/pages/HistoryPage.tsx:5-79 | A spinner shows first, while loading with no error and an empty list. Then an empty list shows the empty state, a non-empty list shows one card per recording in order, and a failure shows the fixed message. |
| `HistoryPage.ZeroCoordinateHidden` | frontend/src/pages/HistoryPage.tsx:71 | A zero or missing latitude or longitude hides the intended coordinate line. |
| `AppShell.RenderPage` | frontend/src/App.tsx:9-22 | Dispatch is total. "history", "locations" and "search" show their views, and every other name shows the record page. |
| `AppShell.Navigate` | frontend/src/App.tsx:24-38 | No anchor, no `href`, or an `href` not starting with '/' leaves the page unchanged, and so does a bare '/'. Otherwise the page is the whole `href` minus its first character. |
| `AppShell.SidebarLinks` | frontend/src/App.tsx:9-36 | Each of the four in-app links shows its view, from any current page. |
| `AppShell.NestedPathsFallBack` | frontend/src/App.tsx:28-36 | "/history/1" becomes "history/1" and shows the record page, and "/" leaves the page unchanged. |
| `AppShell.RunFrom` | frontend/src/App.tsx:24-38 | After any clicks, the page is the starting one or the tail of a clicked `href`. |
| `AppShell.PageComesFromAClick` | frontend/src/App.tsx:7-36 | From the initial "record" page, the current page is never empty. It is "record" or the tail of a clicked `href`. |

## Left out

- The speech-to-text service is the `transcribe` parameter. Its base64 decoding, temp files and fixed reply are not modelled.
- The reverse geocoder is the `geocode` parameter. Its floating-point distance to four cities and its 50 km threshold are not modelled.
- `uuid4()` and `datetime.now()` are parameters. The fresh id is an input, and the two clock readings (the timestamp default and `created_at`) are separate inputs.
- The FastAPI wiring, CORS setup and response-model validation are not modelled, nor are success status codes. Only the 404 error and the fixed delete message are.
- The axios client in `api.ts` is not modelled. Each page receives the list request's outcome as a `Fetch` value (success list or failure).
- The Navigation sidebar and layout markup are not modelled, nor the Card and Progress components. The record page's static footer is left out too.
- React scheduling is not modelled: effect timing, `setInterval` timing and teardown, a tick already queued when stop is pressed, and updates after unmount. Ticks are explicit transitions that happen only while recording.
- `preventDefault` and `history.pushState` are not modelled. `Navigate` returns only the new page name.
- `toLocaleString` dates, `toFixed(4)` coordinates and `formatSimilarity` rounding are display formatting and are not modelled.
- The random scores are an input sequence of draws in [0, 1). Scores are exact reals, with no floating-point rounding.
- `toLowerCase` is an arbitrary per-character function. Full Unicode case mapping, which can change a string's length, is not modelled.
- Coordinates are reals, so NaN does not exist. NaN is falsy in JavaScript but truthy in Python.
- Buckets are kept in first-appearance order. JavaScript enumerates integer-like object keys first; this is not modelled.
- The disabled submit button while searching is markup and is not modelled. `HandleSearch` models the handler itself.
- RenderCards: cards carry the intended coordinate line. The stray "0" that the code renders for a zero coordinate is modelled by `HistoryPage.CoordinateSlotAsWritten` and recorded under "## Findings".
- Timer time, progress and the formatter's seconds are unbounded naturals, while JavaScript holds them in doubles. Above 2^53, `prev + 1` stops changing. From 1e21 minutes, `toString` writes exponent notation such as "1e+21". `TimeFormat.ParseFormat` and `TimeFormat.ParseIffFormat` therefore hold for every natural in the model, but for the code only below those bounds, which one tick per second never reaches.
- `SortByScore`: the insertion it uses is stable, as JavaScript's `sort` is, but stability is not stated as a property.

## Findings

| source | as written | input that shows it | evidently intended | confidence | as-written member | corrected member |
|---|---|---|---|---|---|---|
| frontend/src/pages/LocationsPage.tsx:19-23 | Buckets live in a plain object literal. For a key naming an inherited member (`toString`, `constructor`, `__proto__`, ...), `!locationGroups[key]` is false before the bucket exists. No array is created, and the `push` throws a TypeError that the page reports as a failed fetch. | one fetched recording whose city is "toString" | every city gets its own bucket, as a `Map` or a prototype-less object would give | not executed; follows from JavaScript property lookup semantics | `LocationsPage.InheritedKeyCounterexample` (over `LocationsPage.GroupAsWritten`) | `LocationsPage.GroupByLocation` with `LocationsPage.GroupingIsPartition` |
| frontend/src/pages/HistoryPage.tsx:71-75 | `(recording.latitude && recording.longitude) && <line>` yields the number `0` when a coordinate is `0`, and React renders that number as the text "0" in the card. | a recording with latitude 0 and longitude 121.47 | no coordinate line and no stray text, as for a missing coordinate | not executed; follows from JavaScript `&&` and React's rendering of numbers | `HistoryPage.StrayZeroCounterexample` (over `HistoryPage.CoordinateSlotAsWritten`) | `HistoryPage.CoordinateLine` with `HistoryPage.ZeroCoordinateHidden` |
