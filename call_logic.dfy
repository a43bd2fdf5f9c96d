/**
 * The decisions a call makes once its collaborators are reduced to values:
 * how a raw response is classified, when the cache yields a response, which
 * cache mode the header selects, and what `execute` and `enqueue` do for
 * each mode.
 */
module CallLogic {
  import opened Wrappers
  import opened JavaLang
  import opened CacheMode
  import opened NoContent
  import opened Http

  /** `Response.isSuccessful()`: a status in [200, 300). */
  predicate IsSuccessful(code: int) {
    200 <= code < 300
  }

  /** 204 No Content and 205 Reset Content carry no body to convert. */
  predicate HasNoContent(code: int) {
    code == 204 || code == 205
  }

  /** The statuses whose body goes through the converter. */
  predicate NeedsConversion(code: int) {
    IsSuccessful(code) && !HasNoContent(code)
  }

  /**
   * The body a parsed response keeps in place of the raw one: the same
   * content type and length, and no stream to read.
   */
  function Detach(body: RawBody): (d: NoContentResponseBody)
    ensures ContentType(d) == body.contentType
    ensures ContentLength(d) == body.contentLength
    ensures Source(d).Throws?
  {
    NoContentResponseBody(body.contentType, body.contentLength)
  }

  /** The raw response as every parsed response keeps it. */
  function Meta(raw: RawResponse): RawMeta {
    RawMeta(raw.code, Detach(raw.body))
  }

  /** Calls the converter, passing the request to the cache-aware kind. */
  function Convert<T>(converter: Converter<T>, body: RawBody, request: Request): Conversion<T> {
    match converter
    case Basic(fromBody) => fromBody(body)
    case CacheAware(_, fromBodyFor) => fromBodyFor(body, request)
  }

  /**
   * The outcome of `parseResponse` and whether it closed the raw body
   * itself.
   */
  datatype Parsed<T> = Parsed(result: Try<Response<T>>, rawBodyClosed: bool)

  /**
   * `parseResponse`: classifies a raw response by its status.
   * Outside [200, 300) the body is read completely into an error response
   * and the raw body is closed; 204 and 205 give a success without a body;
   * any other 2xx gives a success carrying the converter's value. When the
   * converter throws a `RuntimeException` after the body's stream failed,
   * the stream's `IOException` is thrown instead.
   */
  function ParseResponse<T>(raw: RawResponse, request: Request, converter: Converter<T>): (p: Parsed<T>)
    ensures p.result.Returns? ==> p.result.value.raw == Meta(raw)
    ensures p.rawBodyClosed <==> !IsSuccessful(raw.code)
    ensures p.result.Returns? && p.result.value.Error? <==>
              !IsSuccessful(raw.code) && raw.body.streamFault.None?
    ensures p.result.Returns? && p.result.value.Error? ==>
              p.result.value.errorBody == BufferedBody(raw.body.contentType, raw.body.bytes)
    ensures !IsSuccessful(raw.code) && raw.body.streamFault.Some? ==>
              p.result == Throws(IOException(raw.body.streamFault.value))
    ensures HasNoContent(raw.code) ==> p.result == Returns(Success(Meta(raw), None))
    ensures NeedsConversion(raw.code) ==>
              (p.result.Returns? <==> Convert(converter, raw.body, request).Returns?)
    ensures NeedsConversion(raw.code) && p.result.Returns? ==>
              p.result.value == Success(Meta(raw), Some(Convert(converter, raw.body, request).value))
    ensures NeedsConversion(raw.code) && p.result.Throws? ==>
              var e := Convert(converter, raw.body, request).error;
              p.result.error == if IsRuntime(e) && raw.body.streamFault.Some?
                                then IOException(raw.body.streamFault.value)
                                else e
  {
    var meta := Meta(raw);
    if raw.code < 200 || raw.code >= 300 then
      // The error body is buffered; the raw body is closed whether or not reading it failed.
      var buffered: Try<BufferedBody> :=
        if raw.body.streamFault.Some? then Throws(IOException(raw.body.streamFault.value))
        else Returns(BufferedBody(raw.body.contentType, raw.body.bytes));
      var result: Try<Response<T>> :=
        if buffered.Throws? then Throws(buffered.error) else Returns(Error(meta, buffered.value));
      Parsed(result, true)
    else if raw.code == 204 || raw.code == 205 then
      Parsed(Returns(Success(meta, None)), false)
    else
      match Convert(converter, raw.body, request)
      case Returns(value) => Parsed(Returns(Success(meta, Some(value))), false)
      case Throws(e) =>
        // A fault captured from the underlying stream wins over the converter's RuntimeException.
        if IsRuntime(e) && raw.body.streamFault.Some? then
          Parsed(Throws(IOException(raw.body.streamFault.value)), false)
        else
          Parsed(Throws(e), false)
  }

  /** Outside the 2xx range and for 204 and 205, the converter is never consulted. */
  lemma ConverterNotConsulted<T>(raw: RawResponse, request: Request, c1: Converter<T>, c2: Converter<T>)
    requires !NeedsConversion(raw.code)
    ensures ParseResponse(raw, request, c1) == ParseResponse(raw, request, c2)
  {
  }

  /**
   * The entry `execCacheRequest` may use: the converter is the cache-aware
   * kind, it has a cache, the cache holds an entry for the URL, and that
   * entry is unexpired and has data.
   */
  function UsableEntry<T>(request: Request, converter: Converter<T>): Option<Entry> {
    if converter.Basic? || converter.cache.None? then None
    else if request.url !in converter.cache.value then None
    else
      var entry := converter.cache.value[request.url];
      if entry.expired || entry.data.None? then None else Some(entry)
  }

  /** The body of the response synthesised from a cache entry. */
  function CacheBody(entry: Entry): RawBody
    requires entry.data.Some?
  {
    RawBody(Some(entry.mimeType), |entry.data.value|, entry.data.value, None)
  }

  /**
   * `execCacheRequest`: `null` when the converter is not cache-aware, there
   * is no cache, no entry for the URL, the entry has expired or has no data,
   * or converting the entry throws; otherwise the success a 200 response
   * with the entry's bytes and MIME type parses to.
   */
  function ExecCacheRequest<T>(request: Request, converter: Converter<T>): (r: Option<Response<T>>)
    ensures converter.Basic? ==> r.None?
    ensures converter.CacheAware? && converter.cache.None? ==> r.None?
    ensures converter.CacheAware? && converter.cache.Some? ==>
              var cache := converter.cache.value;
              (request.url !in cache ==> r.None?) &&
              (request.url in cache && cache[request.url].expired ==> r.None?) &&
              (request.url in cache && cache[request.url].data.None? ==> r.None?)
    ensures r.Some? <==>
              UsableEntry(request, converter).Some? &&
              Convert(converter, CacheBody(UsableEntry(request, converter).value), request).Returns?
    ensures r.Some? ==>
              var entry := UsableEntry(request, converter).value;
              && r.value.Success?
              && r.value.raw.code == 200
              && r.value.body == Some(Convert(converter, CacheBody(entry), request).value)
              && ContentType(r.value.raw.body) == Some(entry.mimeType)
              && ContentLength(r.value.raw.body) == |entry.data.value|
  {
    var entry := UsableEntry(request, converter);
    if entry.None? then None
    else
      // Any exception while parsing the synthetic response is a miss.
      var parsed := ParseResponse(RawResponse(200, CacheBody(entry.value)), request, converter);
      if parsed.result.Returns? then Some(parsed.result.value) else None
  }

  /** `getCacheMode`: the request's `Cache-Mode` header, `null` when it has none. */
  function GetCacheMode(request: Request): (h: Option<string>)
    ensures h == request.cacheModeHeader
  {
    request.cacheModeHeader
  }

  /**
   * The mode the `switch` selects from the header: none for an absent or
   * empty header, otherwise the mode whose constant equals the header text,
   * after `trim` and `toLowerCase` when `normalize` is set (as in `execute`)
   * and verbatim otherwise (as in `enqueue`).
   */
  function SelectMode(header: Option<string>, normalize: bool): (m: Option<Mode>)
    ensures forall mode {:trigger Directive(mode)} :: m == Some(mode) <==>
              header.Some? && (if normalize then Normalize(header.value) else header.value) == Directive(mode)
  {
    if IsEmpty(header) then
      assert Trim([]) == [];
      forall mode ensures Directive(mode) != [] {
        DirectiveNonEmpty(mode);
      }
      None
    else
      Lookup(if normalize then Normalize(header.value) else header.value)
  }

  /** `execute` selects a mode for any case or padding variant of a constant. */
  lemma ExecuteModeIgnoresCaseAndPadding(m: Mode, pre: string, v: string, post: string)
    requires forall i :: 0 <= i < |pre| ==> IsTrimmed(pre[i])
    requires forall i :: 0 <= i < |post| ==> IsTrimmed(post[i])
    requires ToLower(v) == Directive(m)
    ensures SelectMode(Some(pre + v + post), true) == Some(m)
  {
    NormalizeSelects(m, pre, v, post);
  }

  /** In `execute`, each constant, written exactly, selects its own mode. */
  lemma ExecuteSelectsDirective(m: Mode)
    ensures SelectMode(Some(Directive(m)), true) == Some(m)
  {
    DirectiveNormalized(m);
  }

  /** `enqueue` selects a mode only for the constant itself. */
  lemma EnqueueModeIsVerbatim(header: Option<string>, m: Mode)
    ensures SelectMode(header, false) == Some(m) <==> header == Some(Directive(m))
  {
  }

  /** A constant written in upper case selects its mode in `execute`... */
  lemma CaseVariantSelectsInExecute(m: Mode)
    ensures SelectMode(Some(UpperCase(Directive(m))), true) == Some(m)
  {
    var d := Directive(m);
    var v := UpperCase(d);
    DirectiveChars(m);
    ToLowerUndoesUpperCase(d);
    ExecuteModeIgnoresCaseAndPadding(m, [], v, []);
    assert [] + v + [] == v;
  }

  /** ...but selects no mode in `enqueue`. */
  lemma CaseVariantIgnoredByEnqueue(m: Mode)
    ensures SelectMode(Some(UpperCase(Directive(m))), false) == None
  {
    var v := UpperCase(Directive(m));
    DirectiveChars(m);
    var r := SelectMode(Some(v), false);
    if r.Some? {
      EnqueueModeIsVerbatim(Some(v), r.value);
      DirectiveChars(r.value);
      assert false;
    }
  }

  /**
   * `parseResponse(rawCall.execute(), request)`: a transport failure is
   * thrown as an `IOException`; a raw response is parsed, and what comes
   * back keeps its status and detached body.
   */
  function NetworkParse<T>(network: NetOutcome, request: Request, converter: Converter<T>): (r: Try<Response<T>>)
    ensures network.NetFailure? ==> r == Throws(IOException(network.message))
    ensures network.NetResponse? ==> r == ParseResponse(network.response, request, converter).result
    ensures r.Returns? ==> network.NetResponse? && r.value.raw == Meta(network.response)
  {
    match network
    case NetFailure(message) => Throws(IOException(message))
    case NetResponse(raw) => ParseResponse(raw, request, converter).result
  }

  /** The network path's outcome as `execute` returns it. */
  function FromNetwork<T>(network: NetOutcome, request: Request, converter: Converter<T>): Try<Option<Response<T>>> {
    match NetworkParse(network, request, converter)
    case Returns(response) => Returns(Some(response))
    case Throws(e) => Throws(e)
  }

  /**
   * What `execute` returns once the raw call exists, for the selected mode
   * (`None` when the header selects no mode).
   */
  function ExecuteWithMode<T>(mode: Option<Mode>, request: Request, converter: Converter<T>, network: NetOutcome)
    : (r: Try<Option<Response<T>>>)
    // Only `network-else-cache` swallows exceptions; elsewhere the network's exception escapes.
    ensures r.Throws? <==>
              (mode != Some(NetworkElseCache) && ExecuteCallsTransport(mode, request, converter)
               && NetworkParse(network, request, converter).Throws?)
    ensures r.Throws? ==> r.error == NetworkParse(network, request, converter).error
    // `null` is returned only by the fallback of `network-else-cache` that misses the cache.
    ensures r == Returns(None) <==>
              (mode == Some(NetworkElseCache) && NetworkParse(network, request, converter).Throws?
               && ExecCacheRequest(request, converter).None?)
    // A response that is returned comes from the network or from the cache.
    ensures r.Returns? && r.value.Some? ==>
              Returns(r.value.value) == NetworkParse(network, request, converter)
              || r.value == ExecCacheRequest(request, converter)
  {
    match mode
    case Some(NetworkElseCache) =>
      var response := NetworkParse(network, request, converter);
      if response.Returns? then Returns(Some(response.value))
      else Returns(ExecCacheRequest(request, converter))
    case Some(CacheElseNetwork) =>
      var cached := ExecCacheRequest(request, converter);
      if cached.Some? then Returns(cached) else FromNetwork(network, request, converter)
    case _ => FromNetwork(network, request, converter)
  }

  /** Whether `execute` calls `rawCall.execute()` in the selected mode. */
  predicate ExecuteCallsTransport<T>(mode: Option<Mode>, request: Request, converter: Converter<T>) {
    !(mode == Some(CacheElseNetwork) && ExecCacheRequest(request, converter).Some?)
  }

  /**
   * `cache-else-network` with a cache hit returns the cached 200 success
   * without executing the raw call.
   */
  lemma ExecuteCacheHit<T>(request: Request, converter: Converter<T>, network: NetOutcome)
    requires ExecCacheRequest(request, converter).Some?
    ensures ExecuteWithMode(Some(CacheElseNetwork), request, converter, network)
            == Returns(ExecCacheRequest(request, converter))
    ensures !ExecuteCallsTransport(Some(CacheElseNetwork), request, converter)
    ensures ExecCacheRequest(request, converter).value.Success?
    ensures ExecCacheRequest(request, converter).value.raw.code == 200
  {
  }

  /**
   * A cache miss in `cache-else-network`, `load-default`, `network-only`,
   * an unrecognised value and an absent header all behave as
   * `network-only`: they return the parsed network response.
   */
  lemma ExecuteFallsThroughToNetwork<T>(mode: Option<Mode>, request: Request, converter: Converter<T>, network: NetOutcome)
    requires mode != Some(NetworkElseCache)
    requires mode == Some(CacheElseNetwork) ==> ExecCacheRequest(request, converter).None?
    ensures ExecuteWithMode(mode, request, converter, network)
            == ExecuteWithMode(Some(NetworkOnly), request, converter, network)
            == FromNetwork(network, request, converter)
    ensures ExecuteCallsTransport(mode, request, converter)
  {
  }

  /**
   * In `network-else-cache`, `execute` never throws once the raw call
   * exists: a network response that parses is returned, and any exception
   * from the transport or from parsing is replaced by the cache's answer,
   * which may be `null`.
   */
  lemma ExecuteNetworkElseCache<T>(request: Request, converter: Converter<T>, network: NetOutcome)
    ensures ExecuteWithMode(Some(NetworkElseCache), request, converter, network).Returns?
    ensures NetworkParse(network, request, converter).Returns? ==>
              ExecuteWithMode(Some(NetworkElseCache), request, converter, network)
              == Returns(Some(NetworkParse(network, request, converter).value))
    ensures NetworkParse(network, request, converter).Throws? ==>
              ExecuteWithMode(Some(NetworkElseCache), request, converter, network)
              == Returns(ExecCacheRequest(request, converter))
    ensures ExecuteCallsTransport(Some(NetworkElseCache), request, converter)
  {
  }

  /**
   * In `network-else-cache`, an HTTP error status is an answer, not a
   * failure: the cache is not consulted (unless reading the error body fails).
   */
  lemma ExecuteStatusErrorIsNotFallback<T>(request: Request, converter: Converter<T>, raw: RawResponse)
    requires !IsSuccessful(raw.code) && raw.body.streamFault.None?
    ensures ExecuteWithMode(Some(NetworkElseCache), request, converter, NetResponse(raw))
            == Returns(Some(Error(Meta(raw), BufferedBody(raw.body.contentType, raw.body.bytes))))
  {
  }

  /** Where `enqueue` goes after selecting a mode. */
  datatype EnqueueRoute<T> =
    | DeliverCached(response: Response<T>)   // cache hit: `callback.onResponse` at once
    | Dispatch(networkElseCache: bool)       // `exeRequest(callback, request, networkElseCache)`

  /** The `switch` in `enqueue`. */
  function RouteEnqueue<T>(mode: Option<Mode>, request: Request, converter: Converter<T>): (r: EnqueueRoute<T>)
    ensures r.DeliverCached? <==>
              mode == Some(CacheElseNetwork) && ExecCacheRequest(request, converter).Some?
    ensures r.DeliverCached? ==> ExecCacheRequest(request, converter) == Some(r.response)
    ensures r.Dispatch? ==> (r.networkElseCache <==> mode == Some(NetworkElseCache))
  {
    match mode
    case Some(NetworkElseCache) => Dispatch(true)
    case Some(CacheElseNetwork) =>
      var cached := ExecCacheRequest(request, converter);
      if cached.Some? then DeliverCached(cached.value) else Dispatch(false)
    case _ => Dispatch(false)
  }

  /** What the transport callback of `exeRequest` does with the caller's callback. */
  datatype Delivery<T> =
    | DeliverResponse(response: Response<T>)          // `callback.onResponse(response)`
    | DeliverFailure(error: Throwable)                // `callback.onFailure(error)`
    | ScheduleFallback(cached: Option<Response<T>>)   // hand `execCacheRequest` to the cache executor

  /**
   * The transport callback's `onResponse`: a response that parses is
   * delivered; a parse exception schedules the cache fallback when the call
   * is `network-else-cache` and is delivered as a failure otherwise.
   */
  function OnRawResponse<T>(raw: RawResponse, request: Request, networkElseCache: bool, converter: Converter<T>)
    : (d: Delivery<T>)
    ensures d.DeliverResponse? <==> ParseResponse(raw, request, converter).result.Returns?
    ensures d.DeliverResponse? ==> d.response == ParseResponse(raw, request, converter).result.value
    ensures d.ScheduleFallback? <==> ParseResponse(raw, request, converter).result.Throws? && networkElseCache
    ensures d.ScheduleFallback? ==> d.cached == ExecCacheRequest(request, converter)
    ensures d.DeliverFailure? ==> !networkElseCache && d.error == ParseResponse(raw, request, converter).result.error
  {
    var parsed := ParseResponse(raw, request, converter).result;
    if parsed.Returns? then DeliverResponse(parsed.value)
    else if networkElseCache then ScheduleFallback(ExecCacheRequest(request, converter))
    else DeliverFailure(parsed.error)
  }

  /** The transport callback's `onFailure`: the `IOException` goes to the caller, never to the cache. */
  function OnRawFailure<T>(message: string): (d: Delivery<T>)
    ensures d.DeliverFailure? && d.error == IOException(message)
  {
    DeliverFailure(IOException(message))
  }

  /**
   * The asynchronous path delivers an HTTP error status as a response, in
   * every mode; it is never a reason to fall back to the cache.
   */
  lemma EnqueueStatusErrorDelivered<T>(raw: RawResponse, request: Request, networkElseCache: bool, converter: Converter<T>)
    requires !IsSuccessful(raw.code) && raw.body.streamFault.None?
    ensures OnRawResponse(raw, request, networkElseCache, converter)
            == DeliverResponse(Error(Meta(raw), BufferedBody(raw.body.contentType, raw.body.bytes)))
  {
  }

  /**
   * Both paths answer a network response identically: what `execute`
   * returns in `network-only` is what the asynchronous path delivers, a
   * response for a response and the same exception for an exception.
   */
  lemma PathsAgreeOnNetworkResponse<T>(raw: RawResponse, request: Request, converter: Converter<T>)
    ensures var sync := ExecuteWithMode(Some(NetworkOnly), request, converter, NetResponse(raw));
            var async := OnRawResponse(raw, request, false, converter);
            (sync.Returns? <==> async.DeliverResponse?) &&
            (sync.Returns? ==> sync.value == Some(async.response)) &&
            (sync.Throws? ==> async == DeliverFailure(sync.error))
  {
  }

  /** A 404 whose body reads "not found" parses to an error response holding those bytes. */
  lemma NotFoundKeepsBody<T>(request: Request, converter: Converter<T>)
    ensures var body := RawBody(Some("text/plain"), 9, [110, 111, 116, 32, 102, 111, 117, 110, 100], None);
            var p := ParseResponse(RawResponse(404, body), request, converter);
            && p.rawBodyClosed
            && p.result.Returns? && p.result.value.Error?
            && p.result.value.errorBody.bytes == [110, 111, 116, 32, 102, 111, 117, 110, 100]
            && ContentLength(p.result.value.raw.body) == 9
  {
  }
}
