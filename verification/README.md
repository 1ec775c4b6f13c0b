# yr forecast cache, modelled in Dafny

The `yr` Go package fetches a weather forecast (an XML document) by URL or from a file.
It decodes the forecast into records: a location name, the forecast intervals, links and a credit.
Parsed forecasts are kept for ten minutes in a package-level map keyed by the request URL.
This project models that cache and the control flow of `LoadFromURL` as a state machine.
It also models the records, their accessors and `LoadFromFile`'s control flow.

- `wrappers.dfy`: `Option`. A nil pointer or a nil `error` is `None`.
- `decimal.dfy`: the decimal text that `%d` prints, and a parser that reads it back.
- `yr.dfy`: the records (`WeatherData`, `Time`, `Symbol`, `TempData`, `Link`, `Credit`).
  It also holds `Current`, `GetCredits`, the two `String` methods, and `LoadFromFile` over abstract read and decode outcomes.
- `cache.dfy`: `CacheEntry`, the fetch outcome, and `Load`, the specification of one `LoadFromURL` call.
  The package-level `cache` variable is the class `PackageState`. It is `None` while the map is still nil.
  Its methods `LoadFromURL` and `InvalidateCache` are proved against `Load` and `Invalidated`.
  `RunCalls` replays a sequence of calls and counts the GETs issued, as the package's cache test counts server hits.

The network, the body read, the XML decoder and the `Close` call are inputs to the model.
A `Fetch` value says how each of them turned out.
The clock is an integer number of seconds, passed in as `now`.
The source reads the clock up to twice: once for the lookup when an entry exists, and once for the store.
The time between the lookup and the store is the `elapsed` field of a response.
So a stored entry expires at `now + elapsed + 600`.

The model follows the code as written, including two behaviours a caller may not expect:

- A status other than 200 does not return an error carrying the status.
  The deferred `err = resp.Body.Close()` replaces it, so the caller sees `Close`'s result.
  The same happens to a body-read error and to the `nil` error of the normal path.
  So a successful load can return data together with a non-nil error.
- A decode error is never returned by `LoadFromURL`.
  The partly decoded value is cached for ten minutes and returned with `Close`'s error.
  `LoadFromFile`, by contrast, returns the decode error and nil data.

## Model

| member | source | states |
|---|---|---|
| `Yr.WeatherData.Current` | yr.go:64-66 | The first interval of the forecast, which is one of its intervals. Callers must supply a non-empty interval list. |
| `Yr.WeatherData.GetCredits` | yr.go:93-95 | The credit record, unchanged. |
| `Yr.Time.String` | yr.go:68-70 | An interval's text starts with "<from> to <to>: " and ends with " deg.". The text between them is exactly as long as the temperature's `%d` text and reads back as exactly the temperature. |
| `Yr.WeatherData.String` | yr.go:57-62 | The summary starts with "Current weather for <name>: ". The first interval's symbol name and ", " follow. It ends with " degrees C", and the number just before that reads back as exactly the first interval's temperature. Callers must supply a non-empty interval list. |
| `Yr.LoadFromFile` | yr.go:72-86 | Data is returned exactly when no error is returned. A read error or a decode error is returned as it came. Returned data is the decoded value. A clean read and a clean decode return the decoded value with a nil error. |
| `Decimal.Digits` | yr.go:69 | The decimal digits of a natural number: non-empty, all digits, no leading zero. Their value is the number. |
| `Decimal.FormatIntRoundTrip` | yr.go:69 | Every integer, printed as `%d` prints it, parses back to itself. |
| `Decimal.FormatIntInjective` | yr.go:69 | Two integers that print the same are equal. |
| `YrCache.Load` | yr.go:103-144 | A GET is issued exactly when the entry is missing or does not expire strictly after now. A hit returns the cached data with a nil error and leaves the map alone. No other key is touched. Nil data always leaves the map unchanged. Returned data is always what the map now holds for the URL, and that entry is still fresh. A transport error is returned as is. After a response, the returned error is `Close`'s. A non-200 status or a failed read returns nil data. A 200 whose body was read overwrites the URL's entry with expiry now + elapsed + 600 and the decoded value, whether or not decoding failed, and returns that value. |
| `YrCache.Invalidated` | yr.go:97-101 | After invalidation the cache has no entries; a nil map stays nil and a made map stays made. |
| `YrCache.PackageState.constructor` | yr.go:12 | The cache starts as a nil map. |
| `YrCache.PackageState.LoadFromURL` | yr.go:103-144 | Makes the map if it is nil. The new map and the two results are those `Load` gives for the old cache. |
| `YrCache.PackageState.InvalidateCache` | yr.go:97-101 | Deletes the keys one at a time. Afterwards the cache is `Invalidated` of the old one. |
| `YrCache.FreshEntryServesLoads` | yr.go:110-113 | Any sequence of loads of a URL whose entry expires after each load's time issues no GET and leaves the cache as it was. Every load returns the entry's data with a nil error. |
| `YrCache.SuccessfulLoadIsServedForTenMinutes` | yr.go:136-143 | A 200 response whose body was read counts as one GET. Every load of that URL in the next ten minutes returns the same data with a nil error and no further GET, even when decoding failed. |
| `YrCache.InvalidateForcesFetch` | yr.go:97-101 | After invalidation, a load of any URL issues a GET. |
| `YrCache.ExpiryIsStrict` | yr.go:111 | An entry that expires exactly now is a miss and leads to a GET. |
| `YrCache.FailedFetchIsNotCached` | yr.go:116-134 | A transport failure, a non-200 status or a failed read returns nil data and leaves the cache's entries as they were. The next load of the URL, at any later time, issues a GET again. |
| `YrCache.CacheScenario` | yr_test.go:45-78 | Starting from a nil cache: a load, a second load within ten minutes, an invalidation and a third load issue exactly two GETs. The second load returns the first load's data with a nil error. |

## Left out

- The HTTP GET, `ioutil.ReadAll` and `ioutil.ReadFile` are I/O. Their outcomes are inputs (`Fetch`, `Body`, `FileRead`).
- `xml.Unmarshal` and the struct-tag mapping from XML elements to record fields are not modelled. The decoder is reflection inside the standard library. Its result (the value decoded so far, and an error) is an input (`Decoded`). So the test that a decoded sample has given field values is not modelled either.
- `time.Now()` and `time.Duration` are replaced by integer seconds, with the ten-minute TTL as 600.
- The cache map is read and written without a lock. The data race under concurrent callers is not modelled, because the model is single-threaded.
- Go slices share their backing arrays. The data returned by `LoadFromURL` and the cached copy share the interval and link slices. The model uses values, so it does not capture that aliasing.
- `fmt.Sprintf` is modelled only as string concatenation and `%d` decimal text.
- The unused `Tabular` type, the test-only `TabularData` and `Interval` types, and the standard-library check in `TestTimeComparison` are not modelled.
