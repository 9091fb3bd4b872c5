# Mendoza bike-station KML server: a Dafny model

This project models the core of `server.js`, a small service that publishes the
public bike-share stations of Mendoza as a KML document. It reads two GBFS
feeds: station status (bike and dock counts) and station information (name,
address, coordinates). It joins them by `station_id` and turns every station into
a placemark. A five-minute cache keeps it from polling the feeds on every request.

The model has five modules:

- `JsValues` (`js_values.dfy`) covers the JavaScript value rules the transform
  depends on. A numeric JSON field is `Missing` (undefined), `Null` or a
  `Number`. The module defines truthiness, `x || 0`, and `x + y || 0`, where
  `undefined + n` is NaN but `null + n` is `n`.
- `Text` (`text.dfy`) is the decimal rendering of integers used in template
  literals. It also has a parser, used only to prove the rendering loses no
  information.
- `Gbfs` (`gbfs.dfy`) holds the feed records and the outcomes of
  `getStationData` and `getStationInfo`. Each outcome is computed from an
  abstract HTTP reply. The module also builds the `station_id` → information
  lookup.
- `Kml` (`kml.dfy`) is the per-station placemark transform of `generateKML`:
  the join, the count defaults, the display name, the style tag, the
  coordinate text and the `"0,0,0"` filter.
- `StationCache` (`station_cache.dfy`) is the cache record. It has the GET
  `/mendozabike.kml` and POST `/refresh` transitions over fetch outcomes, and
  runs of requests.

## Behaviour worth knowing

- **Freshness check.** GET refetches when `now - lastUpdate > interval`. The test
  is strict, so a cache exactly one interval old is still fresh
  (`ExactlyOneIntervalIsFresh`).
- **Failed refresh.** `/refresh` empties the cache *before* fetching. A failed
  refresh therefore leaves `{data: null, lastUpdate: 0}`, and the previous data
  is gone.
- **Dock counts.** `totalDocks` is `num_docks_available + num_bikes_available || 0`.
  It is 0 when either raw field is missing, even if the other is non-zero. A
  `null` field adds 0.
- **Stations without information.** A station with no information record gets
  coordinates `0,0,0`, so the filter always drops it. The fallback name
  `"Estación {id}"` can only appear for a station whose record exists but has
  no usable name.

## Model

| member | source | states |
|---|---|---|
| JsValues.FieldOrZero | server.js:121-122 | defaulting a count to 0 gives a non-zero value only for a present non-zero number, and then it is that number; a missing or null count becomes 0 |
| JsValues.SumOrZero | server.js:123 | the total is 0 whenever either raw field is missing, even if the other is non-zero; otherwise it is the sum of the defaulted fields (null counts as 0) |
| Text.ParseIntOfIntToString | server.js:145-149 | the decimal text of a rendered number reads back as that number |
| Text.IntTextIsCanonical | server.js:145-149 | the rendering of a number is the only numeral text of its length that reads back as that number: no bare '-', no '-0', no leading zeros |
| Text.IntToStringIsZero | server.js:149 | the only number rendered as "0" is zero |
| Gbfs.FetchStatus | server.js:28-44 | the status fetch succeeds exactly when the response is ok, decodes and has `data.stations`; a non-ok response fails with its HTTP status and a transport error fails too |
| Gbfs.FetchInfo | server.js:47-61 | the info fetch never fails: it yields the decoded document exactly when the response is ok and decodes, and null otherwise |
| Gbfs.InfoLookup | server.js:70-75 | the lookup is empty unless the information document is present and has `data.stations`; then its keys are exactly the records' identifiers, and every entry is one of those records, stored under its own identifier (which of several records with one identifier is kept is stated by `Gbfs.ResolveIsLastRecord`) |
| Gbfs.IndexById | server.js:70-75 | an identifier is in the lookup exactly when some information record carries it |
| Gbfs.IndexByIdIsFindLast | server.js:72-74 | the lookup agrees on every identifier with a backwards scan that returns the last record carrying it |
| Gbfs.LaterRecordWins | server.js:72-74 | when an identifier appears several times, the lookup holds the last record with it |
| Gbfs.IndexByIdEntriesAreRecords | server.js:72-74 | every lookup entry is one of the records, stored under its own identifier |
| Gbfs.ResolveIsLastRecord | server.js:120 | the information a status record resolves to is the last information record carrying its identifier, and the empty object when no record carries it or the information document is null or lacks `data.stations` |
| Kml.Classify | server.js:126-131 | the style is total and exclusive: many iff bikes > 5, few iff 0 < bikes ≤ 5, empty otherwise |
| Kml.StyleThresholds | server.js:121-131 | a placemark's style URL is `#station-many`, `#station-few` or `#station-empty` by the thresholds on the defaulted bike count |
| Kml.DisplayName | server.js:135 | the display name is the record's name when present and non-empty, otherwise `"Estación " + id`; it is never empty |
| Kml.PlacemarkName | server.js:145 | the placemark name starts with the display name, followed by " (", a numeral that reads back as the bike count, and " bicis)"; its length is that of the count's rendering plus the fixed parts |
| Kml.PlacemarkNameIsDetermined | server.js:145 | any string with the name's layout whose middle numeral reads back as the bike count is the placemark name, so layout and read-back fix every character |
| Kml.PlacemarkNameShowsCount | server.js:145 | the placemark name starts with the display name and carries the bike count, which reads back from the name |
| Kml.CoordinateText | server.js:149 | the coordinate text is the longitude's text, then a comma right after it, the latitude's text, and ",0" at the end |
| Kml.CoordinateTextReadsBack | server.js:149 | the longitude and the latitude each read back from their part of the coordinate text |
| Kml.CoordinateTextIsDetermined | server.js:149 | any string with the coordinate layout whose two numerals read back as longitude and latitude is the coordinate text, so layout and read-back fix every character |
| Kml.CoordinateTextIsOrigin | server.js:149 | the coordinate text equals "0,0,0" exactly when both defaulted coordinates are zero |
| Kml.ToPlacemark | server.js:119-151 | a placemark is named `${display} (${bikes} bicis)` from its display name and defaulted bike count. Its title, counts and style follow the defaulted status counts, and its total is the JavaScript sum of the raw dock and bike counts, or 0 when that sum is NaN. Its coordinates are the text of the defaulted longitude and latitude, which is "0,0,0" exactly when both are absent or zero, and always when no record was found. The address line appears exactly when the address is non-empty, and then shows that address |
| Kml.TotalDocks | server.js:121-123 | the total equals the shown docks + bikes when neither raw count is missing (a null one adds 0), and is 0 when either is missing even if the other is non-zero; a missing or null count shows as 0 |
| Kml.LocatedIff | server.js:149-152 | a station survives the filter exactly when it has an information record with a non-zero longitude or latitude |
| Kml.KeepLocated | server.js:152 | the filter keeps exactly the placemarks not at "0,0,0", never grows the list, and is empty exactly when none is located |
| Kml.KeepLocatedAppend | server.js:152 | the filter distributes over concatenation, so it preserves order |
| Kml.GenerateKml | server.js:119-152 | the output has at most one placemark per status record; it holds exactly the located placemarks of the status records, joined through the lookup |
| Kml.GenerateKmlAppend | server.js:119-152 | the output follows status order: the output for concatenated status lists is the concatenation of the outputs |
| Kml.UnmatchedStationDropped | server.js:119-152 | a station whose identifier has no information record never appears in the output |
| Kml.NoInfoNoPlacemarks | server.js:70-75 | with null information, or information lacking `data.stations`, the output is empty |
| Kml.PlazaExample | server.js:119-152 | a station with 3 bikes and 2 docks, named Plaza, at longitude -68.8 and latitude -32.9 in tenths of a degree, yields "Plaza (3 bicis)" at "-688,-329,0" with total 5 and the few style |
| StationCache.FetchCycle | server.js:170-176 | a fetch cycle fails exactly when the status fetch fails; an info failure only leaves the information null |
| StationCache.GetKml | server.js:162-180 | GET calls upstream exactly when the cache is stale. A fresh cache is kept unchanged. A successful refetch stores both results stamped with the `now` read before the fetch. A status failure leaves the cache untouched and fails the request. A served document is always rendered from the cache as left |
| StationCache.PostRefresh | server.js:218-235 | refresh always calls upstream. On success it stores the new data stamped with the post-fetch clock and reports the station count. On failure the cache is left empty with timestamp 0 |
| StationCache.FreshGetIgnoresUpstream | server.js:165-180 | on a fresh cache GET is the same whatever upstream would answer, and it serves the stored data |
| StationCache.IsStale | server.js:166 | the cache is fresh exactly when it holds data and `now` is at most one interval after the last update |
| StationCache.ExactlyOneIntervalIsFresh | server.js:166 | the staleness comparison is strict: one interval after an update is fresh, one millisecond more is stale |
| StationCache.SecondGetWithinWindowDoesNotFetch | server.js:165-180 | after a successful refetch at t1, a GET at most one interval later does not call upstream and serves the same document |
| StationCache.FailedGetIsRetried | server.js:165-176 | after a GET whose status fetch failed, the next GET calls upstream again |
| StationCache.FailedRefreshForcesRefetch | server.js:220-229 | after a failed refresh the next GET must refetch, and fails if its own status fetch fails |
| StationCache.RefreshAlwaysFetches | server.js:218-226 | a refresh request calls upstream exactly once, whatever the cache held |
| StationCache.RunKeepsConsistent | server.js:220-229 | over any run of requests, an empty cache always carries timestamp 0 |
| StationCache.GetsWithinWindowAreQuiet | server.js:165-177 | GETs within one interval of a held update neither call upstream nor change the cache |
| StationCache.GetsWithinWindowFetchAtMostOnce | server.js:165-177 | GETs whose clock readings lie within one interval call upstream at most once when their status fetches succeed |

## Left out

- Express routing, the CORS middleware, response headers and status codes, the `/` information endpoint and the listener (server.js:1-18, 183-198, 202-215, 244-248): HTTP plumbing. Responses are modelled as a document, a refresh summary or a failure.
- The network requests and JSON decoding: an HTTP exchange is a parameter (`HttpReply`: no reply, or an ok flag, a status and a decoded or undecodable body).
- Error messages: a failure carries its kind (`FetchError`) rather than the message text.
- `Promise.all` and the race between concurrent stale requests: each handler is one atomic step. Both fetches are given, even when the status fetch fails.
- The `xml2js` builder, the static style section and the document header: a foreign library and fixed markup. A placemark keeps its style as a tag; `StyleUrl` gives the URL.
- The HTML markup of the description and the `toLocaleString('es-AR')` rendering of `last_reported`: locale and clock formatting. The description keeps the data it shows; `last_reported` is not modelled.
- Floating point: coordinates are integers in fixed scaled units and render as integer decimals. The filter only depends on "renders as 0 exactly when zero" and "contains no comma", which both renderings share.
- JavaScript numbers are doubles; counts and coordinates are unbounded integers here, because the feeds' values are far below 2^53.
- Numeric fields that arrive as strings, a `null` entry in a stations array, a missing `station_id`, and a `data.stations` that is not an array: each would make the source throw or coerce oddly. Identifiers are strings.
- The lookup is a plain JavaScript object in the source, so an identifier such as `constructor` or `__proto__` would reach the object prototype. The model's lookup is a map.
- An information body that decodes to `null` is represented as a document without `data.stations`. `NoInfoNoPlacemarks` shows both behave like a failed info fetch.
- Logging (`console.*`).
- CoordinateText: its contract gives the layout of the text only. That the two numerals are the coordinates' renderings follows from `Kml.CoordinateTextReadsBack` with `Kml.CoordinateTextIsDetermined`. Stating the read-back on the function itself makes the worked example `Kml.PlazaPlacemark` run out of resource.
