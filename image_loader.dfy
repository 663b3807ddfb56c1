/**
 * The image loader actor: a URL-keyed cache of decoded images plus a table
 * of fetches in flight, so that concurrent requests for one URL share one
 * network fetch. The actor's suspension points become separate events: a
 * `Request` (the synchronous part of `loadImage` up to its first `await`)
 * and the `Complete` of a fetch (the part after the task's value arrives).
 */
module ImageLoading {
  import opened Wrappers

  type Url = string

  /** A decoded image; decoding itself (`UIImage(data:)`) is outside the model. */
  datatype Image = Image(pixels: seq<int>)

  /** What `session.data(from:)` produced for one fetch. */
  datatype Response =
    | TransportFailure(description: string)
      /** A response that is not an HTTP response. */
    | NonHttp
      /** An HTTP response, with what decoding its body as an image gave. */
    | Http(statusCode: int, decoded: Option<Image>)

  datatype LoadError =
    | Transport(description: string)
      /** `URLError(.badServerResponse)`. */
    | BadServerResponse
      /** The `ImageLoader` error with code -1. */
    | DecodeFailed

  /** The body of the fetch task: validate the response, then decode. */
  function Validate(r: Response): (res: Result<Image, LoadError>)
    ensures res.Ok? <==> r.Http? && 200 <= r.statusCode <= 299 && r.decoded.Some?
    ensures res.Ok? ==> res.value == r.decoded.value
    ensures res == Err(BadServerResponse) <==> r.NonHttp? || (r.Http? && !(200 <= r.statusCode <= 299))
    ensures res == Err(DecodeFailed) <==> r.Http? && 200 <= r.statusCode <= 299 && r.decoded.None?
    ensures r.TransportFailure? ==> res == Err(Transport(r.description))
  {
    match r
    case TransportFailure(d) => Err(Transport(d))
    case NonHttp => Err(BadServerResponse)
    case Http(code, decoded) =>
      if !(200 <= code <= 299) then Err(BadServerResponse)
      else if decoded.None? then Err(DecodeFailed)
      else Ok(decoded.value)
  }

  /** What one call of `loadImage` does before its first suspension. */
  datatype RequestOutcome =
      /** The cached image is returned at once. */
    | Hit(image: Image)
      /** The caller awaits the fetch already in flight for the URL. */
    | Joined
      /** A new fetch was started and registered for the URL. */
    | Started

  /** How often `u` occurs in `log`. */
  function Occurrences(log: seq<Url>, u: Url): nat
  {
    if log == [] then 0
    else Occurrences(log[..|log| - 1], u) + (if log[|log| - 1] == u then 1 else 0)
  }

  lemma OccurrencesSnoc(log: seq<Url>, x: Url, u: Url)
    ensures Occurrences(log + [x], u) == Occurrences(log, u) + (if x == u then 1 else 0)
  {
    assert (log + [x])[..|log|] == log;
  }

  /**
   * Every fetch started for a URL has completed, except the one in flight
   * when the URL is in `ongoing`: so at most one fetch per URL is running.
   */
  ghost predicate SingleFlight(started: seq<Url>, completed: seq<Url>, ongoing: set<Url>)
  {
    forall u :: Occurrences(started, u) == Occurrences(completed, u) + (if u in ongoing then 1 else 0)
  }

  /** Starting a fetch for a URL not in flight keeps a single flight. */
  lemma StartKeepsSingleFlight(started: seq<Url>, completed: seq<Url>, ongoing: set<Url>, url: Url)
    requires SingleFlight(started, completed, ongoing) && url !in ongoing
    ensures SingleFlight(started + [url], completed, ongoing + {url})
  {
    forall u ensures Occurrences(started + [url], u) == Occurrences(started, u) + (if url == u then 1 else 0) {
      OccurrencesSnoc(started, url, u);
    }
  }

  /** Completing the fetch in flight for a URL keeps a single flight. */
  lemma CompleteKeepsSingleFlight(started: seq<Url>, completed: seq<Url>, ongoing: set<Url>, url: Url)
    requires SingleFlight(started, completed, ongoing) && url in ongoing
    ensures SingleFlight(started, completed + [url], ongoing - {url})
  {
    forall u ensures Occurrences(completed + [url], u) == Occurrences(completed, u) + (if url == u then 1 else 0) {
      OccurrencesSnoc(completed, url, u);
    }
  }

  class ImageLoaderImpl {
    var cache: map<Url, Image>
    var ongoingTasks: set<Url>
    /** Every fetch ever started, by URL, in order. */
    ghost var started: seq<Url>
    /** Every fetch that has completed, by URL, in order. */
    ghost var completed: seq<Url>
    /** Every image a fetch delivered, with its URL. */
    ghost var delivered: set<(Url, Image)>

    ghost predicate Valid()
      reads this
    {
      // the cache only holds images that a fetch for that URL delivered
      && (forall u :: u in cache ==> (u, cache[u]) in delivered)
      // a URL is never both cached and in flight
      && (forall u :: u in ongoingTasks ==> u !in cache)
      // single flight: every fetch started for a URL has completed, except one in flight
      && SingleFlight(started, completed, ongoingTasks)
    }

    constructor()
      ensures Valid()
      ensures cache == map[] && ongoingTasks == {} && started == [] && completed == []
    {
      cache := map[];
      ongoingTasks := {};
      started := [];
      completed := [];
      delivered := {};
    }

    /** `loadImage(from:)` up to the point where it awaits a fetch. */
    method Request(url: Url) returns (r: RequestOutcome)
      requires Valid()
      modifies this
      ensures Valid()
      ensures cache == old(cache) && completed == old(completed) && delivered == old(delivered)
      ensures url in old(cache) ==>
        r == Hit(old(cache)[url]) && ongoingTasks == old(ongoingTasks) && started == old(started)
      ensures url !in old(cache) && url in old(ongoingTasks) ==>
        r == Joined && ongoingTasks == old(ongoingTasks) && started == old(started)
      ensures url !in old(cache) && url !in old(ongoingTasks) ==>
        r == Started && ongoingTasks == old(ongoingTasks) + {url} && started == old(started) + [url]
    {
      if url in cache {
        return Hit(cache[url]);
      }
      if url in ongoingTasks {
        return Joined;
      }
      StartKeepsSingleFlight(started, completed, ongoingTasks, url);
      ongoingTasks := ongoingTasks + {url};
      started := started + [url];
      r := Started;
    }

    /**
     * The fetch registered for `url` finishes with `response`: a decoded
     * image is cached, and the entry leaves the in-flight table either way.
     * The starter and every joined caller receive `result`.
     */
    method Complete(url: Url, response: Response) returns (result: Result<Image, LoadError>)
      requires Valid() && url in ongoingTasks
      modifies this
      ensures Valid()
      ensures result == Validate(response)
      ensures result.Ok? ==> cache == old(cache)[url := result.value]
      ensures result.Err? ==> cache == old(cache)
      ensures result.Ok? ==> delivered == old(delivered) + {(url, result.value)}
      ensures result.Err? ==> delivered == old(delivered)
      ensures ongoingTasks == old(ongoingTasks) - {url}
      ensures started == old(started) && completed == old(completed) + [url]
    {
      result := Validate(response);
      if result.Ok? {
        cache := cache[url := result.value];
        delivered := delivered + {(url, result.value)};
      }
      CompleteKeepsSingleFlight(started, completed, ongoingTasks, url);
      ongoingTasks := ongoingTasks - {url};
      completed := completed + [url];
    }

    /** `NSCache` may drop an entry at any time. */
    method Evict(url: Url)
      requires Valid()
      modifies this`cache
      ensures Valid()
      ensures cache == old(cache) - {url}
    {
      cache := cache - {url};
    }
  }

  /**
   * Five overlapping requests for an uncached URL start exactly one fetch;
   * all five callers receive the image it delivers, and the next request is
   * answered from the cache.
   */
  method ParallelRequestsShareOneFetch(loader: ImageLoaderImpl, url: Url, image: Image)
    returns (outcomes: seq<RequestOutcome>, result: Result<Image, LoadError>, again: RequestOutcome)
    requires loader.Valid() && url !in loader.cache && url !in loader.ongoingTasks
    modifies loader
    ensures loader.Valid()
    ensures outcomes == [Started, Joined, Joined, Joined, Joined]
    ensures result == Ok(image) && again == Hit(image)
    ensures loader.started == old(loader.started) + [url]
    ensures loader.completed == old(loader.completed) + [url]
  {
    var r1 := loader.Request(url);
    var r2 := loader.Request(url);
    var r3 := loader.Request(url);
    var r4 := loader.Request(url);
    var r5 := loader.Request(url);
    outcomes := [r1, r2, r3, r4, r5];
    result := loader.Complete(url, Http(200, Some(image)));
    again := loader.Request(url);
  }

  /** After a successful fetch, the next request is a hit and starts nothing. */
  method SuccessIsCached(loader: ImageLoaderImpl, url: Url, image: Image)
    returns (again: RequestOutcome)
    requires loader.Valid() && url !in loader.cache && url !in loader.ongoingTasks
    modifies loader
    ensures loader.Valid()
    ensures again == Hit(image)
    ensures loader.started == old(loader.started) + [url]
  {
    var first := loader.Request(url);
    var result := loader.Complete(url, Http(200, Some(image)));
    again := loader.Request(url);
  }

  /** A failed fetch is not cached: the next request starts a fresh fetch. */
  method FailureIsNotCached(loader: ImageLoaderImpl, url: Url, response: Response)
    returns (again: RequestOutcome)
    requires loader.Valid() && url !in loader.cache && url !in loader.ongoingTasks
    requires Validate(response).Err?
    modifies loader
    ensures loader.Valid()
    ensures again == Started
    ensures loader.started == old(loader.started) + [url, url]
  {
    var first := loader.Request(url);
    var result := loader.Complete(url, response);
    again := loader.Request(url);
  }
}
