/**
 * The values the call logic works on: the request, the transport's raw
 * response, the typed response handed to callers, the converter and the
 * response cache. The transport, the converter and the cache are
 * collaborators whose behaviour enters only through these values.
 */
module Http {
  import opened Wrappers
  import opened JavaLang
  import opened NoContent

  /**
   * An outgoing request: the URL (the cache key, used verbatim) and the
   * value of its `Cache-Mode` header, if any.
   */
  datatype Request = Request(url: string, cacheModeHeader: Option<string>)

  /**
   * A raw response body as the transport delivers it: its metadata, the bytes
   * its stream yields and, if reading the stream fails part-way, the message
   * of the `IOException` it fails with.
   */
  datatype RawBody = RawBody(
    contentType: Option<MediaType>,
    contentLength: Long,
    bytes: seq<byte>,
    streamFault: Option<string>)

  /** A response from the transport: status code and body. */
  datatype RawResponse = RawResponse(code: int, body: RawBody)

  /** A body read completely into memory. */
  datatype BufferedBody = BufferedBody(contentType: Option<MediaType>, bytes: seq<byte>)

  /** The raw response a typed response keeps: its status, with the body detached. */
  datatype RawMeta = RawMeta(code: int, body: NoContentResponseBody)

  /**
   * The typed result handed to callers: a success carrying the converted body
   * (absent for 204 and 205) or an HTTP error carrying the buffered error body.
   */
  datatype Response<T> =
    | Success(raw: RawMeta, body: Option<T>)
    | Error(raw: RawMeta, errorBody: BufferedBody)

  /** What a converter's `fromBody` does with a body: returns a value or throws. */
  type Conversion<T> = Try<T>

  /**
   * A converter is either a basic one, `fromBody(body)`, or the cache-aware
   * kind, `fromBody(body, request)`, that also gives access to a cache.
   */
  datatype Converter<T> =
    | Basic(fromBody: RawBody -> Conversion<T>)
    | CacheAware(cache: Option<Cache>, fromBodyFor: (RawBody, Request) -> Conversion<T>)

  /** A cache entry: its bytes (possibly `null`), MIME type and whether it has expired now. */
  datatype Entry = Entry(data: Option<ByteArray>, mimeType: string, expired: bool)

  /** The cache as the call logic sees it: a read-only map from URL to entry. */
  type Cache = map<string, Entry>

  /**
   * What the transport does with a call once it is executed or enqueued: it
   * fails with an `IOException` or delivers a raw response.
   */
  datatype NetOutcome = NetFailure(message: string) | NetResponse(response: RawResponse)

  /** The arguments of the service-method invocation the call was made for. */
  type Args = seq<string>

  /** Builds the request from the invocation's arguments. */
  datatype RequestFactory = RequestFactory(create: Args -> Request)

  /** The HTTP client the call was made with; its behaviour is given as outcomes. */
  datatype Client = Client(id: nat)
}
