/** The package-level cache of forecasts by URL and LoadFromURL, the only
    operation that fills it. The HTTP GET, the body read, the decoder and the
    clock are inputs: `now` is the clock (in seconds) when the lookup runs, and
    the fetch outcome says what the network, the reader, the decoder and the
    deferred `Close` did. */
module YrCache {
  import opened Wrappers
  import opened Yr

  /** Entries live for ten minutes after they are stored. */
  const TTL: int := 600

  datatype CacheEntry = CacheEntry(expires: int, data: WeatherData)

  /** The contents of the package-level `cache` variable: None is the nil map
      it starts as, Some(m) the map once it has been made. */
  type Cache = Option<map<string, CacheEntry>>

  /** What `ioutil.ReadAll(resp.Body)` did; the bytes it read are given already decoded. */
  datatype Body = ReadFailed(err: Error) | Read(decoded: Decoded)

  /** What `http.Get` and everything after it did.
      A response carries its status code and text, the body read and decode
      outcome, the result of the deferred `resp.Body.Close()`, and the time
      that passed between the cache lookup and the cache store. */
  datatype Fetch =
    | TransportFailed(err: Error)
    | Response(statusCode: int, status: string, body: Body, closeErr: Option<Error>, elapsed: nat)

  /** The entries of the cache; a nil map has none. */
  function Entries(c: Cache): map<string, CacheEntry>
  {
    if c.Some? then c.value else map[]
  }

  /** A lookup is a hit only when the entry expires strictly after now. */
  predicate IsHit(m: map<string, CacheEntry>, url: string, now: int)
  {
    url in m && m[url].expires > now
  }

  /** The map after one LoadFromURL, what it returned, and whether it issued a GET. */
  datatype Step = Step(cache: map<string, CacheEntry>, out: Outcome, fetched: bool)

  /** One call of LoadFromURL(url) at time `now` when the GET would turn out as `f`. */
  function Load(c: Cache, url: string, now: int, f: Fetch): (r: Step)
    // A GET is issued exactly when the lookup misses.
    ensures r.fetched <==> !IsHit(Entries(c), url, now)
    // A hit returns the cached data with a nil error and changes nothing.
    ensures !r.fetched ==> r.out == Outcome(Some(Entries(c)[url].data), None) && r.cache == Entries(c)
    // No other key is ever touched.
    ensures r.cache - {url} == Entries(c) - {url}
    // Whenever nil data comes back, the map is as it was.
    ensures r.out.weatherData.None? ==> r.cache == Entries(c)
    // Whatever data comes back is what the map now holds for the URL, still fresh.
    ensures r.out.weatherData.Some? ==>
              url in r.cache && r.cache[url].data == r.out.weatherData.value && r.cache[url].expires > now
    // A transport failure returns that error with nil data.
    ensures r.fetched && f.TransportFailed? ==> r.out == Outcome(None, Some(f.err))
    // Once a response exists, the returned error is the one Close gave.
    ensures r.fetched && f.Response? ==> r.out.err == f.closeErr
    // A non-200 status or a failed read returns nil data.
    ensures r.fetched && f.Response? && (f.statusCode != 200 || f.body.ReadFailed?) ==>
              r.out.weatherData.None?
    // A 200 whose body was read is stored for ten minutes and returned,
    // whether or not it decoded.
    ensures r.fetched && f.Response? && f.statusCode == 200 && f.body.Read? ==>
              r.cache == Entries(c)[url := CacheEntry(now + f.elapsed + TTL, f.body.decoded.value)] &&
              r.out.weatherData == Some(f.body.decoded.value)
  {
    var m := Entries(c);
    if IsHit(m, url, now) then
      Step(m, Outcome(Some(m[url].data), None), false)
    else
      match f
      case TransportFailed(e) => Step(m, Outcome(None, Some(e)), true)
      case Response(code, status, body, closeErr, elapsed) =>
        if code != 200 then Step(m, Outcome(None, closeErr), true)
        else
          match body
          case ReadFailed(_) => Step(m, Outcome(None, closeErr), true)
          case Read(decoded) =>
            Step(m[url := CacheEntry(now + elapsed + TTL, decoded.value)],
                 Outcome(Some(decoded.value), closeErr), true)
  }

  /** The cache after InvalidateCache: a made map loses every entry; a nil map stays nil. */
  function Invalidated(c: Cache): (r: Cache)
    ensures r.Some? <==> c.Some?
    ensures Entries(r) == map[]
  {
    if c.Some? then Some(map[]) else None
  }

  /** The package-level state of yr.go: the `cache` variable. */
  class PackageState {
    var cache: Cache

    /** The program starts with a nil cache. */
    constructor ()
      ensures cache == None
    {
      cache := None;
    }

    method LoadFromURL(url: string, now: int, fetch: Fetch) returns (weatherData: Option<WeatherData>, err: Option<Error>)
      modifies this
      ensures cache == Some(Load(old(cache), url, now, fetch).cache)
      ensures Outcome(weatherData, err) == Load(old(cache), url, now, fetch).out
    {
      if cache.None? {
        cache := Some(map[]);
      }
      if url in cache.value {
        var entry := cache.value[url];
        if entry.expires > now {
          return Some(entry.data), None;
        }
      }
      match fetch
      case TransportFailed(e) =>
        return None, Some(e);
      case Response(code, status, body, closeErr, elapsed) =>
        // From here on the deferred `err = resp.Body.Close()` runs on every
        // return and replaces whatever error was being returned.
        if code != 200 {
          weatherData, err := None, Some(Error(status));
        } else {
          match body
          case ReadFailed(e) =>
            weatherData, err := None, Some(e);
          case Read(decoded) =>
            var wData := decoded.value;
            err := decoded.err;
            if err.Some? {
              weatherData := None;
            }
            cache := Some(cache.value[url := CacheEntry(now + elapsed + TTL, wData)]);
            weatherData, err := Some(wData), None;
        }
        err := closeErr;
    }

    /** Deletes every key, one at a time; ranging over a nil map does nothing. */
    method InvalidateCache()
      modifies this
      ensures cache == Invalidated(old(cache))
    {
      var keys := Entries(cache).Keys;
      while keys != {}
        invariant cache.Some? <==> old(cache).Some?
        invariant Entries(cache).Keys == keys
        decreases keys
      {
        var k :| k in keys;
        cache := Some(cache.value - {k});
        keys := keys - {k};
      }
      assert Entries(cache) == map[];
    }
  }

  /** A call a client of the package makes. */
  datatype Call = LoadCall(url: string, now: int, fetch: Fetch) | InvalidateCall

  /** The cache after a run of calls, what each call returned (an invalidation
      returns nothing), and how many GETs the run issued. */
  datatype Run = Run(cache: Cache, outs: seq<Outcome>, fetches: nat)

  function Apply(c: Cache, call: Call): (Cache, Outcome, nat)
  {
    match call
    case LoadCall(url, now, f) =>
      var s := Load(c, url, now, f);
      (Some(s.cache), s.out, if s.fetched then 1 else 0)
    case InvalidateCall => (Invalidated(c), Outcome(None, None), 0)
  }

  function RunCalls(c: Cache, calls: seq<Call>): (r: Run)
    ensures |r.outs| == |calls|
    // At most one GET per call.
    ensures r.fetches <= |calls|
    decreases |calls|
  {
    if calls == [] then Run(c, [], 0)
    else
      var (c1, out, n) := Apply(c, calls[0]);
      var rest := RunCalls(c1, calls[1..]);
      Run(rest.cache, [out] + rest.outs, n + rest.fetches)
  }

  /** While an entry is fresh, loads of its URL issue no GET, all return the
      entry's data with a nil error, and the cache is left exactly as it was. */
  lemma {:induction false} FreshEntryServesLoads(c: Cache, url: string, calls: seq<Call>)
    requires url in Entries(c)
    requires forall i :: 0 <= i < |calls| ==>
               calls[i].LoadCall? && calls[i].url == url && calls[i].now < Entries(c)[url].expires
    ensures RunCalls(c, calls).fetches == 0
    ensures RunCalls(c, calls).cache == c
    ensures forall i :: 0 <= i < |calls| ==>
              RunCalls(c, calls).outs[i] == Outcome(Some(Entries(c)[url].data), None)
  {
    if calls != [] {
      FreshEntryServesLoads(c, url, calls[1..]);
    }
  }

  /** After a 200 response whose body was read, every load of the same URL
      within the next ten minutes is served from the cache: no GET, nil error,
      and the same data, even when that data failed to decode. */
  lemma SuccessfulLoadIsServedForTenMinutes(c: Cache, url: string, now: int, f: Fetch, later: seq<Call>)
    requires !IsHit(Entries(c), url, now)
    requires f.Response? && f.statusCode == 200 && f.body.Read?
    requires forall i :: 0 <= i < |later| ==>
               later[i].LoadCall? && later[i].url == url && now <= later[i].now < now + TTL
    ensures var r := RunCalls(c, [LoadCall(url, now, f)] + later);
            r.fetches == 1 &&
            r.outs[0].weatherData == Some(f.body.decoded.value) &&
            forall i :: 1 <= i < |r.outs| ==> r.outs[i] == Outcome(Some(f.body.decoded.value), None)
  {
    var calls := [LoadCall(url, now, f)] + later;
    var c1 := Some(Load(c, url, now, f).cache);
    assert calls[1..] == later;
    FreshEntryServesLoads(c1, url, later);
  }

  /** After InvalidateCache, a load of any URL issues a GET. */
  lemma InvalidateForcesFetch(c: Cache, url: string, now: int, f: Fetch)
    ensures Load(Invalidated(c), url, now, f).fetched
  {
  }

  /** An entry that expires exactly now is a miss: the comparison is strict. */
  lemma ExpiryIsStrict(c: Cache, url: string, now: int, f: Fetch)
    requires url in Entries(c) && Entries(c)[url].expires == now
    ensures Load(c, url, now, f).fetched
  {
  }

  /** A failed fetch (transport error, non-200 status or failed read) returns
      nil data and stores nothing, so the next load of the URL, at any later
      time, issues a GET again. */
  lemma FailedFetchIsNotCached(c: Cache, url: string, now: int, f: Fetch, later: int, g: Fetch)
    requires !IsHit(Entries(c), url, now)
    requires now <= later
    requires f.TransportFailed? || f.statusCode != 200 || f.body.ReadFailed?
    ensures RunCalls(c, [LoadCall(url, now, f)]).cache == Some(Entries(c))
    ensures var r := RunCalls(c, [LoadCall(url, now, f), LoadCall(url, later, g)]);
            r.fetches == 2 && r.outs[0].weatherData.None?
  {
  }

  /** The cache test of the package: starting from a nil cache, a load, a
      second load of the same URL within ten minutes, an invalidation and a
      third load issue exactly two GETs; the second load returns the data of
      the first with a nil error. */
  lemma CacheScenario(url: string, t0: int, f0: Fetch, t1: int, f1: Fetch, t2: int, f2: Fetch)
    requires f0.Response? && f0.statusCode == 200 && f0.body.Read?
    requires t0 <= t1 < t0 + TTL
    // The test's first check: after the first two loads the server saw one GET.
    ensures RunCalls(None, [LoadCall(url, t0, f0), LoadCall(url, t1, f1)]).fetches == 1
    ensures var r := RunCalls(None, [LoadCall(url, t0, f0), LoadCall(url, t1, f1), InvalidateCall, LoadCall(url, t2, f2)]);
            r.fetches == 2 &&
            r.outs[1] == Outcome(Some(f0.body.decoded.value), None) &&
            r.outs[0].weatherData == r.outs[1].weatherData
  {
    var calls := [LoadCall(url, t0, f0), LoadCall(url, t1, f1), InvalidateCall, LoadCall(url, t2, f2)];
    var c1 := Some(Load(None, url, t0, f0).cache);
    var c2 := Some(Load(c1, url, t1, f1).cache);
    var c3 := Invalidated(c2);
    assert calls[1..] == [LoadCall(url, t1, f1), InvalidateCall, LoadCall(url, t2, f2)];
    assert calls[1..][1..] == [InvalidateCall, LoadCall(url, t2, f2)];
    assert calls[1..][1..][1..] == [LoadCall(url, t2, f2)];
    assert calls[1..][1..][1..][1..] == [];
    var first := [LoadCall(url, t0, f0), LoadCall(url, t1, f1)];
    assert first[1..] == [LoadCall(url, t1, f1)];
    assert first[1..][1..] == [];
    assert RunCalls(c3, calls[1..][1..][1..]).fetches == 1;
    assert RunCalls(c2, calls[1..][1..]).fetches == 1;
    assert RunCalls(c1, calls[1..]).fetches == 1;
  }
}
