/**
 * The body that replaces a response's real body once the body's stream has
 * been taken away: it keeps the content type and length and cannot be read.
 * Both fields are fixed at construction, so it is a value.
 */
module NoContent {
  import opened Wrappers
  import opened JavaLang

  /** A media type, as the text it was parsed from. */
  type MediaType = string

  datatype NoContentResponseBody = NoContentResponseBody(mediaType: Option<MediaType>, length: Long)

  /** `contentType()`: the media type the body was built with (possibly `null`). */
  function ContentType(b: NoContentResponseBody): (t: Option<MediaType>)
    ensures t == b.mediaType
  {
    b.mediaType
  }

  /** `contentLength()`: the length the body was built with. */
  function ContentLength(b: NoContentResponseBody): (n: Long)
    ensures n == b.length
  {
    b.length
  }

  /** The message `source()` throws with. */
  const ConvertedBodyMessage := "Cannot read raw response body of a converted body."

  /** `source()`: always throws, so the body can never be read. */
  function Source(b: NoContentResponseBody): (r: Try<seq<byte>>)
    ensures r.Throws? && r.error.IllegalStateException?
  {
    Throws(IllegalStateException(ConvertedBodyMessage))
  }

  /** What the constructor is given, the getters give back; the source is never readable. */
  lemma Accessors(contentType: Option<MediaType>, contentLength: Long)
    ensures ContentType(NoContentResponseBody(contentType, contentLength)) == contentType
    ensures ContentLength(NoContentResponseBody(contentType, contentLength)) == contentLength
    ensures Source(NoContentResponseBody(contentType, contentLength)).Throws?
  {
  }
}
