# KOkHttpCall: per-request cache/network decisions

A model of `KOkHttpCall`, the single-use call handle of a Retrofit-style
HTTP client. For each request it reads the `Cache-Mode` header, picks one of
four cache modes, and either answers from a local response cache, goes to the
network, or goes to the network with the cache as fallback. It classifies raw
HTTP responses into typed results, does this in a blocking (`execute`) and a
callback-based (`enqueue`) variant, and keeps the `executed` / `canceled`
flags and the raw-call slot that make it single-use and cancellable.

Modules:

- `Wrappers`: `Option` for Java's nullable references.
- `JavaLang`: the exceptions involved, `Try` (returns or throws), `byte`,
  `Long`, and `TextUtils.isEmpty`, `String.trim`, `String.toLowerCase`.
- `CacheMode`: the four header constants and the `switch` labels over them.
- `NoContent`: `NoContentResponseBody`, the metadata-only body that replaces a
  response's real body.
- `Http`: requests, raw responses, typed responses, converters, cache entries.
- `CallLogic`: the pure decisions: `parseResponse`, `execCacheRequest`, mode
  selection, and what `execute` and the transport callback of `enqueue` do
  per mode.
- `Calls`: the class `KOkHttpCall` (fields `executed`, `canceled`, `rawCall`,
  a ghost `trace` of every transport and callback interaction) and the class
  `TransportCallback` (the callback `exeRequest` hands to the transport).

The collaborators enter as values. The transport is what `newCall` throws,
if anything, and a `NetOutcome`: an `IOException` or a raw response
`(code, body)`. The cache is a read-only map from URL to
`Entry(data, mimeType, expired)`. The converter is a function from a body to
a value or an exception, tagged basic or cache-aware. The caller's callback
is described by what its two methods throw.

Behaviour of the code worth knowing:

- `enqueue` on an executed call throws `IllegalStateException("Already executed")`.
  It does not report this to the callback.
- In `network-else-cache`, `execute` returns the cache's answer when the
  network or parsing fails. That answer may be `null`; the original
  exception is never rethrown.
- Only `execute` trims and lower-cases the header. `enqueue` matches it
  verbatim, so `CACHE-ELSE-NETWORK` selects a mode only in `execute`.
- `execute` calls `client.newCall` before it looks at the mode, so a cache hit
  in `cache-else-network` still creates a raw call (it is never executed).
- A call canceled before dispatch still calls `newCall`. The new raw call is
  canceled at once, stored, and then executed or enqueued as the mode dictates.
- `cancel` calls `rawCall.cancel()` every time it is called while a raw call
  exists, not once.
- `enqueue` runs the caller's callback unguarded in two places: on a cache
  hit and when `newCall` throws. An exception from the callback there escapes
  `enqueue`. Only the transport callback swallows the caller's exceptions.
- An HTTP error status is an answer, not a failure. It triggers the cache
  fallback only when reading its body fails.

## Model

| member | source | states |
|---|---|---|
| `JavaLang.Trim` | src/retrofit/KOkHttpCall.java:230 | the trimmed header is the piece of the input after its leading characters <= U+0020; everything cut off behind it is <= U+0020; the result neither starts nor ends with such a character |
| `JavaLang.ToLower` | src/retrofit/KOkHttpCall.java:230 | lower-casing keeps the length and lowers each character on its own |
| `JavaLang.TrimPadded` | src/retrofit/KOkHttpCall.java:230 | trimming a non-blank string padded on both sides with characters <= U+0020 gives back exactly that string |
| `JavaLang.ToLowerAppend` | src/retrofit/KOkHttpCall.java:230 | lower-casing distributes over concatenation: each piece of the header is lowered on its own |
| `JavaLang.ToLowerUndoesUpperCase` | src/retrofit/KOkHttpCall.java:230 | lower-casing the upper-case spelling of text without upper-case letters gives the text back |
| `CacheMode.Lookup` | src/retrofit/KOkHttpCall.java:231-252 | the `case` labels select mode m exactly when the text equals m's constant |
| `CacheMode.DirectiveChars` | src/cc/easyandroid/easyhttp/core/retrofit/CacheMode.java:5-11 | the four constants are written with lower-case ASCII letters and hyphens only |
| `CacheMode.DirectivesDistinct` | src/cc/easyandroid/easyhttp/core/retrofit/CacheMode.java:5-11 | the four constants are pairwise distinct, so each label selects one mode |
| `CacheMode.DirectiveNonEmpty` | src/cc/easyandroid/easyhttp/core/retrofit/CacheMode.java:5-11 | each constant is non-empty and passes the `TextUtils.isEmpty` guard |
| `CacheMode.DirectiveNormalized` | src/cc/easyandroid/easyhttp/core/retrofit/CacheMode.java:5-11 | each constant equals its own trimmed, lower-cased form |
| `CacheMode.NormalizeSelects` | src/retrofit/KOkHttpCall.java:228-231 | any case variant of a constant, padded on either side, normalises onto that constant and selects its mode |
| `NoContent.Source` | src/cc/easyandroid/easyhttp/core/retrofit/NoContentResponseBody.java:42-45 | `source()` always throws `IllegalStateException`: the detached body cannot be read |
| `NoContent.Accessors` | src/cc/easyandroid/easyhttp/core/retrofit/NoContentResponseBody.java:27-40 | `contentType()` and `contentLength()` return exactly what the constructor was given |
| `NoContent.ContentType` | src/cc/easyandroid/easyhttp/core/retrofit/NoContentResponseBody.java:32-35 | `contentType()` is the media type the body was built with, possibly `null` |
| `NoContent.ContentLength` | src/cc/easyandroid/easyhttp/core/retrofit/NoContentResponseBody.java:37-40 | `contentLength()` is the length the body was built with |
| `CallLogic.Detach` | src/retrofit/KOkHttpCall.java:271-275 | the body kept on a parsed response has the raw body's content type and length and cannot be read |
| `CallLogic.ParseResponse` | src/retrofit/KOkHttpCall.java:270-310 | every result keeps the status and the detached body; outside [200,300) the result is an error response with the whole body buffered (or the stream's `IOException`) and the raw body is closed, and only then; 204/205 give a success without a body; other 2xx succeed exactly when the converter does, with its value; a converter `RuntimeException` after a stream fault becomes the stream's `IOException` |
| `CallLogic.ConverterNotConsulted` | src/retrofit/KOkHttpCall.java:277-290 | outside [200,300) and for 204/205 the outcome is the same whatever the converter |
| `CallLogic.NotFoundKeepsBody` | src/retrofit/KOkHttpCall.java:278-286 | a 404 with body "not found" gives an error response that still holds those bytes, and closes the raw body |
| `CallLogic.ExecCacheRequest` | src/retrofit/KOkHttpCall.java:93-120 | `null` for a basic converter, no cache, no entry for the URL, an expired entry, an entry without data, or a conversion that throws; otherwise a 200 success with the converted entry and the entry's MIME type and length |
| `CallLogic.GetCacheMode` | src/retrofit/KOkHttpCall.java:266-268 | the mode text is the request's `Cache-Mode` header, `null` when it has none |
| `CallLogic.SelectMode` | src/retrofit/KOkHttpCall.java:228-231 | the header selects mode m exactly when it is present and its text (normalised or verbatim) equals m's constant; an absent or empty header selects none |
| `CallLogic.ExecuteModeIgnoresCaseAndPadding` | src/retrofit/KOkHttpCall.java:228-231 | in `execute`, any padded case variant of a constant selects that mode |
| `CallLogic.ExecuteSelectsDirective` | src/retrofit/KOkHttpCall.java:228-231 | in `execute`, each constant written exactly selects its own mode |
| `CallLogic.EnqueueModeIsVerbatim` | src/retrofit/KOkHttpCall.java:130-133 | in `enqueue`, a mode is selected exactly when the header equals its constant |
| `CallLogic.CaseVariantSelectsInExecute` | src/retrofit/KOkHttpCall.java:228-231 | each constant written in upper case (`CACHE-ELSE-NETWORK`, ...) still selects its mode in `execute` |
| `CallLogic.CaseVariantIgnoredByEnqueue` | src/retrofit/KOkHttpCall.java:130-133 | the same upper-case spellings select no mode in `enqueue` |
| `CallLogic.NetworkParse` | src/retrofit/KOkHttpCall.java:235 | executing the raw call: a transport failure is thrown as its `IOException`; a raw response is parsed, and a returned response keeps its status and detached body |
| `CallLogic.ExecuteWithMode` | src/retrofit/KOkHttpCall.java:228-256 | the `switch` of `execute`: an exception escapes exactly when the mode is not `network-else-cache`, the raw call is executed and parsing it fails, and it is that exception; `null` is returned exactly when `network-else-cache` fails on the network and misses the cache; any returned response is the network's or the cache's |
| `CallLogic.ExecuteCacheHit` | src/retrofit/KOkHttpCall.java:240-245 | `cache-else-network` with a hit returns the cached 200 success and does not execute the raw call |
| `CallLogic.ExecuteFallsThroughToNetwork` | src/retrofit/KOkHttpCall.java:240-256 | a miss, `load-default`, `network-only`, an unknown or absent header all give what `network-only` gives, the parsed network response, and execute the raw call |
| `CallLogic.ExecuteNetworkElseCache` | src/retrofit/KOkHttpCall.java:232-239 | `network-else-cache` never throws: a parsed network response is returned, and any exception is replaced by the cache's answer, possibly `null` |
| `CallLogic.ExecuteStatusErrorIsNotFallback` | src/retrofit/KOkHttpCall.java:232-239 | in `network-else-cache` a readable HTTP error status is returned as an error response, without consulting the cache |
| `CallLogic.RouteEnqueue` | src/retrofit/KOkHttpCall.java:132-153 | `enqueue` answers from the cache exactly for `cache-else-network` with a hit; otherwise it dispatches, with the fallback flag set exactly for `network-else-cache` |
| `CallLogic.OnRawResponse` | src/retrofit/KOkHttpCall.java:190-209 | a response that parses is delivered; a parse exception schedules the cache fallback exactly when the call is `network-else-cache`, and is delivered as a failure otherwise |
| `CallLogic.OnRawFailure` | src/retrofit/KOkHttpCall.java:185-188 | a transport `IOException` is delivered as a failure with that exception, never sent to the cache |
| `CallLogic.EnqueueStatusErrorDelivered` | src/retrofit/KOkHttpCall.java:190-209 | the asynchronous path delivers a readable HTTP error status as a response in every mode |
| `CallLogic.PathsAgreeOnNetworkResponse` | src/retrofit/KOkHttpCall.java:191-208 | for a network response, `execute` in `network-only` and the transport callback agree: the same response, or the same exception as a failure |
| `Calls.FirstExecuteCallsNewCallOnce` | src/retrofit/KOkHttpCall.java:219-256 | whether or not the raw call is executed, a first `execute` calls `newCall` exactly once, and a canceled call cancels the raw call it created |
| `Calls.ExecuteEventsCallNewCallOnce` | src/retrofit/KOkHttpCall.java:219-256 | a first `execute` calls `newCall` exactly once, whatever follows |
| `Calls.ExecuteCacheHitSkipsRawExecute` | src/retrofit/KOkHttpCall.java:219-245 | when the header selects `cache-else-network` and the cache has a hit, `execute` still calls `newCall` once (and cancels the raw call if canceled) but never executes it, and returns the cached response |
| `Calls.KOkHttpCall.constructor` | src/retrofit/KOkHttpCall.java:50-55 | a new call holds the given client, factory, converter and arguments, and is unexecuted, uncanceled, without a raw call |
| `Calls.KOkHttpCall.Clone` | src/retrofit/KOkHttpCall.java:57-61 | `clone` gives a fresh call with the same client, request factory, converter and arguments, which builds the same request, unexecuted, uncanceled and without a raw call |
| `Calls.KOkHttpCall.CreateRequest` | src/retrofit/KOkHttpCall.java:262-264 | the request is built by the stored factory from the stored arguments, so a clone builds the same request |
| `Calls.KOkHttpCall.Execute` | src/retrofit/KOkHttpCall.java:213-257 | a second call throws "Already executed" and changes nothing; a first sets `executed`, calls `newCall`, cancels the new raw call if already canceled, stores it, and returns what the mode dictates; the trace records exactly these interactions |
| `Calls.KOkHttpCall.ExecuteCreated` | src/retrofit/KOkHttpCall.java:225-256 | once `newCall` returned, `execute` returns what the mode dictates, stores the raw call, records the cancel and, unless the cache answered, the raw execute, and keeps the call's invariant |
| `Calls.KOkHttpCall.ExecuteRawCall` | src/retrofit/KOkHttpCall.java:228-256 | the `switch` of `execute` returns the mode's outcome, and executes the raw call unless the mode is `cache-else-network` and the cache hits |
| `Calls.KOkHttpCall.RecordExecute` | src/retrofit/KOkHttpCall.java:221-225 | once `newCall` returned, the new raw call is canceled at once if the call is canceled and then stored; the trace gains exactly these steps and the execute, and the invariant holds |
| `Calls.KOkHttpCall.Enqueue` | src/retrofit/KOkHttpCall.java:122-154 | a second call throws "Already executed" and changes nothing; a cache hit calls `onResponse` once without `newCall`, and what the callback throws escapes; otherwise it dispatches through `exeRequest` |
| `Calls.KOkHttpCall.ExeRequest` | src/retrofit/KOkHttpCall.java:156-168 | if `newCall` throws, `onFailure` is called once and what it throws escapes; otherwise the raw call is canceled at once if the call is canceled, stored, and enqueued with a transport callback for this request and mode |
| `Calls.KOkHttpCall.Cancel` | src/retrofit/KOkHttpCall.java:312-319 | `cancel` sets `canceled` and cancels the raw call if there is one; the invariant keeps every canceled call's raw call canceled |
| `Calls.TransportCallback.constructor` | src/retrofit/KOkHttpCall.java:168 | the callback handed to the transport remembers the call, the caller's callback, the request and the `network-else-cache` flag |
| `Calls.TransportCallback.OnFailure` | src/retrofit/KOkHttpCall.java:169-188 | a transport `IOException` goes to `onFailure`, never to the cache; what the callback throws is dropped |
| `Calls.TransportCallback.OnResponse` | src/retrofit/KOkHttpCall.java:177-209 | a raw response is delivered, failed or sent to the cache fallback as `OnRawResponse` says; what the callback throws is dropped |
| `Calls.ExecuteThenEnqueue` | src/retrofit/KOkHttpCall.java:122-128 | after `execute`, `enqueue` throws "Already executed" and `newCall` has been called once in all |
| `Calls.EnqueueThenExecute` | src/retrofit/KOkHttpCall.java:213-218 | after `enqueue`, `execute` throws "Already executed" |

## Left out

- Calls.KOkHttpCall.Execute: stores the raw call after computing the `switch`'s outcome, not before (KOkHttpCall.java:225). Nothing else runs in between, and the trace keeps the source's order of cancel and execute, so no result of the model changes.
- Thread pools and hand-off (`defaultHttpExecutor`, `MainThreadExecutor`, `cacheExecutor`, `cacheCallbackExecutor`, Android `Handler`/`Looper`/`Process`): concurrency and platform plumbing. `volatile` and `synchronized` are modelled as plain fields updated in sequence.
- `CallbackRunnable` is not part of this model. The cache fallback of the asynchronous path is recorded as a `FallbackScheduled` event carrying the `execCacheRequest` result, without saying how it is delivered.
- OkHttp internals: the transport's behaviour is an input (what `newCall` throws, what executing or enqueuing the raw call yields). How OkHttp reacts to a canceled raw call is part of that input.
- `MediaType.parse` is a library call: the entry's MIME text is carried as the media type unchanged. A `null` MIME type, which would make `MediaType.parse` throw outside the `try` of `execCacheRequest`, is not modelled.
- The converter, `KGsonConverter` and Gson are not part of this model. A converter is a function from a body to a value or an exception. It is assumed to read the body until it ends or faults, so the fault `ExceptionCatchingRequestBody` captures is the stream's fault.
- `Utils.readBodyToBytesIfNecessary`, `closeQuietly` and `ExceptionCatchingRequestBody` are not part of this model. They appear as "buffer the bytes, or throw the stream's `IOException`", a closed flag, and the stream's fault.
- `ResponseBody.contentLength()` throwing `IOException` is not modelled.
- `java.lang.Error` is not modelled: only exceptions are thrown. So `catch (Exception e)` and `catch (Throwable t)` catch the same things here.
- `String.toLowerCase(Locale.CHINA)` is modelled for the characters whose lower-case form is ASCII: A-Z and U+212A KELVIN SIGN. Every other character is left unchanged. This keeps the outcome of the comparison with the four ASCII constants, not the lowered text itself.
- Request headers: a request carries only its URL and its `Cache-Mode` value. OkHttp's header lookup (case-insensitive name, last value wins) is not part of this model. `createRequest` is assumed not to throw, since `RequestFactory` is not part of this model.
- The Volley cache is a read-only map, and `isExpired()` is a stored flag; storage, eviction and the clock are left out.
- `printStackTrace` logging is left out.
- src/cc/easyandroid/easyhttp/EasyHttpUtils.java (process-wide configuration and Rx adaptation) is not part of this model.
- Retrofit's `Response` class is a datatype with a success and an error variant; its factory checks are not modelled.
