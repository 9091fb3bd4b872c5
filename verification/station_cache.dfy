/**
 The station cache of server.js and the two handlers that use it: GET
 /mendozabike.kml refetches only when the cache is stale, POST /refresh
 empties the cache and refetches unconditionally.  Each handler is one
 atomic step; the clock reading and the upstream answers are parameters.
 */
module StationCache {
  import opened JsValues
  import opened Gbfs
  import opened Kml

  /** Freshness window in milliseconds: five minutes. */
  const UpdateInterval: int := 5 * 60 * 1000

  /** What a successful fetch cycle stores: the status stations and the information document. */
  datatype CachedData = CachedData(stationStatus: seq<StationStatus>, stationInfo: Option<InfoDocument>)

  /** `stationCache`: no data and timestamp 0 at start-up. */
  datatype Cache = Cache(data: Option<CachedData>, lastUpdate: int)

  const Initial: Cache := Cache(None, 0)

  /** The answers the two upstream endpoints would give to one fetch cycle. */
  datatype Upstream = Upstream(status: HttpReply<StatusDocument>, info: HttpReply<InfoDocument>)

  datatype KmlResponse = KmlDocument(placemarks: seq<Placemark>) | KmlFailure(error: FetchError)

  datatype RefreshResponse = Refreshed(stations: nat, lastUpdate: int) | RefreshFailure(error: FetchError)

  /** A handler's effect: the new cache, the response, and whether it called upstream. */
  datatype Outcome<R> = Outcome(cache: Cache, response: R, fetched: bool)

  /**
   The GET condition: refetch when there is no data or strictly more than one
   interval has elapsed since the last update.
   */
  predicate IsStale(c: Cache, now: int)
    ensures !IsStale(c, now) <==> c.data.Some? && now <= c.lastUpdate + UpdateInterval
  {
    c.data.None? || now - c.lastUpdate > UpdateInterval
  }

  /** The document rendered from cached data. */
  function Render(d: CachedData): seq<Placemark> {
    GenerateKml(d.stationStatus, d.stationInfo)
  }

  /** Both fetches of one cycle; the cycle fails exactly when the status fetch fails. */
  function FetchCycle(up: Upstream): (r: Result<CachedData>)
    ensures r.Ok? <==> FetchStatus(up.status).Ok?
    ensures r.Ok? ==> r.value == CachedData(FetchStatus(up.status).value, FetchInfo(up.info))
    ensures r.Err? ==> r.error == FetchStatus(up.status).error
  {
    match FetchStatus(up.status)
    case Ok(stations) => Ok(CachedData(stations, FetchInfo(up.info)))
    case Err(e) => Err(e)
  }

  /**
   GET /mendozabike.kml at clock reading `now`.  A fresh cache is served
   without calling upstream; a stale one is refetched, and on success the
   cache holds the new data stamped with `now`; on a status failure the cache
   is left as it was and the request fails.  A document is always rendered
   from what the cache holds afterwards.
   */
  function GetKml(c: Cache, now: int, up: Upstream): (r: Outcome<KmlResponse>)
    ensures r.fetched <==> IsStale(c, now)
    ensures r.response.KmlFailure? <==> IsStale(c, now) && FetchStatus(up.status).Err?
    ensures r.response.KmlFailure? ==> r.cache == c && r.response.error == FetchStatus(up.status).error
    ensures r.response.KmlDocument? ==> r.cache.data.Some? && r.response.placemarks == Render(r.cache.data.value)
    ensures !IsStale(c, now) ==> r.cache == c
    ensures IsStale(c, now) && FetchStatus(up.status).Ok? ==>
      r.cache == Cache(Some(CachedData(FetchStatus(up.status).value, FetchInfo(up.info))), now)
  {
    if IsStale(c, now) then
      match FetchCycle(up)
      case Ok(d) => Outcome(Cache(Some(d), now), KmlDocument(Render(d)), true)
      case Err(e) => Outcome(c, KmlFailure(e), true)
    else
      Outcome(c, KmlDocument(Render(c.data.value)), false)
  }

  /**
   POST /refresh.  The cache is emptied before the fetch, so the previous
   data never survives: on success the cache holds the new data stamped with
   `now`, the clock reading taken after the fetch; on failure it stays empty.
   */
  function PostRefresh(c: Cache, now: int, up: Upstream): (r: Outcome<RefreshResponse>)
    ensures r.fetched
    ensures r.response.RefreshFailure? <==> FetchStatus(up.status).Err?
    ensures r.response.RefreshFailure? ==> r.cache == Initial
    ensures r.response.Refreshed? ==>
      && r.cache == Cache(Some(CachedData(FetchStatus(up.status).value, FetchInfo(up.info))), now)
      && r.response.stations == |FetchStatus(up.status).value|
      && r.response.lastUpdate == now
  {
    var cleared := Cache(None, 0);
    match FetchCycle(up)
    case Ok(d) => Outcome(Cache(Some(d), now), Refreshed(|d.stationStatus|, now), true)
    case Err(e) => Outcome(cleared, RefreshFailure(e), true)
  }

  /** On a fresh cache, GET serves the stored data whatever upstream would answer. */
  lemma FreshGetIgnoresUpstream(c: Cache, now: int, up1: Upstream, up2: Upstream)
    requires !IsStale(c, now)
    ensures GetKml(c, now, up1) == GetKml(c, now, up2)
    ensures GetKml(c, now, up1) == Outcome(c, KmlDocument(Render(c.data.value)), false)
  {
  }

  /** The comparison is strict: exactly one interval after an update the cache is still fresh. */
  lemma ExactlyOneIntervalIsFresh(d: CachedData, t: int)
    ensures !IsStale(Cache(Some(d), t), t + UpdateInterval)
    ensures IsStale(Cache(Some(d), t), t + UpdateInterval + 1)
  {
  }

  /**
   After a GET at t1 that refetched successfully, a second GET no more than
   one interval later does not call upstream and serves the same document.
   */
  lemma SecondGetWithinWindowDoesNotFetch(c: Cache, t1: int, up1: Upstream, t2: int, up2: Upstream)
    requires IsStale(c, t1) && FetchStatus(up1.status).Ok?
    requires t2 - t1 <= UpdateInterval
    ensures !GetKml(GetKml(c, t1, up1).cache, t2, up2).fetched
    ensures GetKml(GetKml(c, t1, up1).cache, t2, up2).response == GetKml(c, t1, up1).response
  {
  }

  /** A GET whose status fetch failed leaves the cache stale, so the next GET fetches again. */
  lemma FailedGetIsRetried(c: Cache, t1: int, up1: Upstream, t2: int, up2: Upstream)
    requires IsStale(c, t1) && FetchStatus(up1.status).Err?
    requires t2 >= t1
    ensures GetKml(GetKml(c, t1, up1).cache, t2, up2).fetched
  {
  }

  /**
   A failed refresh leaves the cache empty, so the next GET must refetch, and
   a GET whose fetch fails then has no data to fall back to.
   */
  lemma FailedRefreshForcesRefetch(c: Cache, t1: int, up1: Upstream, t2: int, up2: Upstream)
    requires FetchStatus(up1.status).Err?
    ensures GetKml(PostRefresh(c, t1, up1).cache, t2, up2).fetched
    ensures FetchStatus(up2.status).Err? ==>
      GetKml(PostRefresh(c, t1, up1).cache, t2, up2).response.KmlFailure?
  {
  }

  /** The requests that reach the cache, each with its clock reading and upstream answers. */
  datatype Request = GetRequest(now: int, up: Upstream) | RefreshRequest(now: int, up: Upstream)

  /** The part of a handler's outcome that a run of requests observes. */
  datatype Transition = Transition(cache: Cache, fetched: bool)

  function Step(c: Cache, req: Request): Transition {
    match req
    case GetRequest(now, up) =>
      var o := GetKml(c, now, up);
      Transition(o.cache, o.fetched)
    case RefreshRequest(now, up) =>
      var o := PostRefresh(c, now, up);
      Transition(o.cache, o.fetched)
  }

  /** The cache after handling the requests in order. */
  function Run(c: Cache, reqs: seq<Request>): Cache
    decreases |reqs|
  {
    if |reqs| == 0 then c else Run(Step(c, reqs[0]).cache, reqs[1..])
  }

  /** How many of the requests call upstream. */
  function FetchCount(c: Cache, reqs: seq<Request>): nat
    decreases |reqs|
  {
    if |reqs| == 0 then 0
    else (if Step(c, reqs[0]).fetched then 1 else 0) + FetchCount(Step(c, reqs[0]).cache, reqs[1..])
  }

  /** A refresh request always calls upstream, whatever the state of the cache. */
  lemma RefreshAlwaysFetches(c: Cache, now: int, up: Upstream)
    ensures FetchCount(c, [RefreshRequest(now, up)]) == 1
  {
  }

  /** An empty cache carries the initial timestamp 0. */
  predicate Consistent(c: Cache) {
    c.data.None? ==> c.lastUpdate == 0
  }

  /** Every run from a consistent cache, in particular from start-up, ends in a consistent cache. */
  lemma {:induction false} RunKeepsConsistent(c: Cache, reqs: seq<Request>)
    requires Consistent(c)
    ensures Consistent(Run(c, reqs))
    decreases |reqs|
  {
    if |reqs| > 0 {
      RunKeepsConsistent(Step(c, reqs[0]).cache, reqs[1..]);
    }
  }

  ghost predicate AllGets(reqs: seq<Request>) {
    forall i :: 0 <= i < |reqs| ==> reqs[i].GetRequest?
  }

  /** GETs that all fall within one interval of a held update neither fetch nor change the cache. */
  lemma {:induction false} GetsWithinWindowAreQuiet(c: Cache, reqs: seq<Request>)
    requires c.data.Some?
    requires AllGets(reqs)
    requires forall i :: 0 <= i < |reqs| ==> reqs[i].now - c.lastUpdate <= UpdateInterval
    ensures FetchCount(c, reqs) == 0
    ensures Run(c, reqs) == c
    decreases |reqs|
  {
    if |reqs| > 0 {
      assert Step(c, reqs[0]).cache == c;
      GetsWithinWindowAreQuiet(c, reqs[1..]);
    }
  }

  /**
   GETs whose clock readings all lie in one interval [t0, t0 + UpdateInterval]
   call upstream at most once, provided the status fetches succeed.
   */
  lemma {:induction false} GetsWithinWindowFetchAtMostOnce(c: Cache, reqs: seq<Request>, t0: int)
    requires AllGets(reqs)
    requires forall i :: 0 <= i < |reqs| ==> t0 <= reqs[i].now <= t0 + UpdateInterval
    requires forall i :: 0 <= i < |reqs| ==> FetchStatus(reqs[i].up.status).Ok?
    ensures FetchCount(c, reqs) <= 1
    decreases |reqs|
  {
    if |reqs| > 0 {
      var next := Step(c, reqs[0]).cache;
      if Step(c, reqs[0]).fetched {
        assert next.lastUpdate == reqs[0].now && next.data.Some?;
        GetsWithinWindowAreQuiet(next, reqs[1..]);
      } else {
        GetsWithinWindowFetchAtMostOnce(next, reqs[1..], t0);
      }
    }
  }
}
