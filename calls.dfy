/**
 * The call handle: a single-use object holding the client, the request
 * factory, the converter and the invocation arguments, with the `executed`
 * and `canceled` flags and the raw-call slot that `execute`, `enqueue` and
 * `cancel` update. Every interaction with the transport and with the
 * caller's callback is recorded in a ghost trace.
 */
module Calls {
  import opened Wrappers
  import opened JavaLang
  import opened CacheMode
  import opened Http
  import opened CallLogic

  /** The transport's handle for one request. */
  datatype RawCall = RawCall(request: Request)

  /** The caller's callback, described by what its two methods throw, if anything. */
  datatype UserCallback = UserCallback(onResponseThrows: Option<Throwable>, onFailureThrows: Option<Throwable>)

  /** An interaction of the call with the transport or with the caller's callback. */
  datatype Event<T> =
    | NewCall(request: Request)                        // `client.newCall(request)`
    | RawCancel                                        // `rawCall.cancel()`
    | RawExecute                                       // `rawCall.execute()`
    | RawEnqueue                                       // `rawCall.enqueue(...)`
    | CallbackOnResponse(response: Response<T>)       // `callback.onResponse(response)`
    | CallbackOnFailure(error: Throwable)              // `callback.onFailure(error)`
    | FallbackScheduled(cached: Option<Response<T>>)   // the cache fallback handed to the cache executor

  /** What a second `execute` or `enqueue` throws. */
  const AlreadyExecuted := IllegalStateException("Already executed")

  /** The number of `newCall` invocations in a trace. */
  function NewCalls<T>(trace: seq<Event<T>>): nat {
    if trace == [] then 0
    else (if trace[0].NewCall? then 1 else 0) + NewCalls(trace[1..])
  }

  lemma {:induction false} NewCallsAppend<T>(a: seq<Event<T>>, b: seq<Event<T>>)
    ensures NewCalls(a + b) == NewCalls(a) + NewCalls(b)
  {
    if a != [] {
      assert (a + b)[0] == a[0];
      assert (a + b)[1..] == a[1..] + b;
      NewCallsAppend(a[1..], b);
    } else {
      assert a + b == b;
    }
  }

  /** A trace without `newCall` counts none. */
  lemma {:induction false} NewCallsNone<T>(trace: seq<Event<T>>)
    requires forall i :: 0 <= i < |trace| ==> !trace[i].NewCall?
    ensures NewCalls(trace) == 0
  {
    if trace != [] {
      NewCallsNone(trace[1..]);
    }
  }

  /** A trace that opens with the one `newCall` counts one. */
  lemma NewCallsFirstOnly<T>(request: Request, rest: seq<Event<T>>)
    requires forall i :: 0 <= i < |rest| ==> !rest[i].NewCall?
    ensures NewCalls([NewCall(request)] + rest) == 1
  {
    var first: seq<Event<T>> := [NewCall(request)];
    assert first[1..] == [];
    NewCallsNone(rest);
    NewCallsAppend(first, rest);
  }

  /** The caller-visible event for what the transport callback delivers. */
  function DeliveryEvent<T>(d: Delivery<T>): (e: Event<T>)
    ensures !e.NewCall? && !e.RawCancel?
  {
    match d
    case DeliverResponse(response) => CallbackOnResponse(response)
    case DeliverFailure(error) => CallbackOnFailure(error)
    case ScheduleFallback(cached) => FallbackScheduled(cached)
  }

  /** What `execute` returns on its first invocation. */
  function ExecuteResult<T>(request: Request, converter: Converter<T>, newCallFault: Option<Throwable>, network: NetOutcome)
    : Try<Option<Response<T>>>
  {
    if newCallFault.Some? then Throws(newCallFault.value)
    else ExecuteWithMode(SelectMode(GetCacheMode(request), true), request, converter, network)
  }

  /**
   * The transport interactions of a first `execute`: `newCall` always; then,
   * unless it threw, an immediate cancel when the call was already
   * canceled, and `rawCall.execute()` when `executesRawCall` says so.
   */
  function FirstExecuteEvents<T>(request: Request, canceled: bool, newCallFault: Option<Throwable>, executesRawCall: bool)
    : seq<Event<T>>
  {
    [NewCall(request)] +
    if newCallFault.Some? then []
    else (if canceled then [RawCancel] else []) + (if executesRawCall then [RawExecute] else [])
  }

  /** The transport interactions of a first `execute`; the raw call runs unless a cache hit answered. */
  function ExecuteEvents<T>(request: Request, converter: Converter<T>, canceled: bool, newCallFault: Option<Throwable>)
    : seq<Event<T>>
  {
    FirstExecuteEvents(request, canceled, newCallFault,
                       ExecuteCallsTransport(SelectMode(GetCacheMode(request), true), request, converter))
  }

  /**
   * Whatever the mode decides, the first `execute` makes exactly one
   * `newCall`, and a canceled call cancels its raw call.
   */
  lemma FirstExecuteCallsNewCallOnce<T>(request: Request, canceled: bool, newCallFault: Option<Throwable>,
                                        executesRawCall: bool)
    ensures NewCalls(FirstExecuteEvents<T>(request, canceled, newCallFault, executesRawCall)) == 1
    ensures canceled && newCallFault.None? ==> RawCancel in FirstExecuteEvents<T>(request, canceled, newCallFault, executesRawCall)
  {
    var first: seq<Event<T>> := [NewCall(request)];
    assert NewCalls(first) == 1 by {
      assert first[1..] == [];
    }
    if newCallFault.Some? {
      assert FirstExecuteEvents<T>(request, canceled, newCallFault, executesRawCall) == first;
    } else {
      var cancels: seq<Event<T>> := if canceled then [RawCancel] else [];
      var executes: seq<Event<T>> := if executesRawCall then [RawExecute] else [];
      assert NewCalls(cancels) == 0 by {
        if canceled { assert cancels[1..] == []; }
      }
      assert NewCalls(executes) == 0 by {
        if executesRawCall { assert executes[1..] == []; }
      }
      NewCallsAppend(cancels, executes);
      NewCallsAppend(first, cancels + executes);
    }
  }

  /**
   * `execute` calls `newCall` first even when the cache answers: when the
   * header selects `cache-else-network` and the cache has a hit, it creates
   * the raw call (and cancels it if the call was canceled) but never
   * executes it, calls `newCall` once, and returns the cached response.
   */
  lemma ExecuteCacheHitSkipsRawExecute<T>(request: Request, converter: Converter<T>, canceled: bool, network: NetOutcome)
    requires SelectMode(GetCacheMode(request), true) == Some(CacheElseNetwork)
    requires ExecCacheRequest(request, converter).Some?
    ensures ExecuteEvents<T>(request, converter, canceled, None)
            == [NewCall(request)] + (if canceled then [RawCancel] else [])
    ensures ExecuteResult(request, converter, None, network) == Returns(ExecCacheRequest(request, converter))
    ensures NewCalls(ExecuteEvents<T>(request, converter, canceled, None)) == 1
  {
    ExecuteCacheHit(request, converter, network);
    ExecuteEventsCallNewCallOnce<T>(request, converter, canceled, None);
  }

  /** A first `execute` invokes `newCall` exactly once, whatever happens next. */
  lemma ExecuteEventsCallNewCallOnce<T>(request: Request, converter: Converter<T>, canceled: bool,
                                        newCallFault: Option<Throwable>)
    ensures NewCalls(ExecuteEvents<T>(request, converter, canceled, newCallFault)) == 1
  {
    var executes := ExecuteCallsTransport(SelectMode(GetCacheMode(request), true), request, converter);
    FirstExecuteCallsNewCallOnce<T>(request, canceled, newCallFault, executes);
  }


  class KOkHttpCall<T> {
    const client: Client
    const requestFactory: RequestFactory
    const responseConverter: Converter<T>
    const args: Args

    var rawCall: Option<RawCall>
    var executed: bool
    var canceled: bool
    ghost var trace: seq<Event<T>>

    /** `createRequest()`: the request the factory builds from the arguments. */
    function CreateRequest(): (r: Request)
      ensures r == requestFactory.create(args)
    {
      requestFactory.create(args)
    }

    /**
     * Nothing reaches the transport before the call is executed, `newCall`
     * happens at most once, the raw call is the one for this call's request,
     * and a canceled call's raw call has been canceled.
     */
    ghost predicate Valid()
      reads this
    {
      && (!executed ==> trace == [] && rawCall.None?)
      && NewCalls(trace) <= 1
      && (rawCall.Some? ==> rawCall.value == RawCall(CreateRequest()))
      && (canceled && rawCall.Some? ==> RawCancel in trace)
    }

    constructor (client: Client, requestFactory: RequestFactory, responseConverter: Converter<T>, args: Args)
      ensures Valid()
      ensures this.client == client && this.requestFactory == requestFactory
      ensures this.responseConverter == responseConverter && this.args == args
      ensures !executed && !canceled && rawCall.None? && trace == []
    {
      this.client := client;
      this.requestFactory := requestFactory;
      this.responseConverter := responseConverter;
      this.args := args;
      rawCall := None;
      executed := false;
      canceled := false;
      trace := [];
    }

    /** `clone()`: a fresh, unexecuted, uncanceled call over the same collaborators and arguments. */
    method Clone() returns (c: KOkHttpCall<T>)
      ensures fresh(c) && c.Valid()
      ensures c.client == client && c.requestFactory == requestFactory
      ensures c.responseConverter == responseConverter && c.args == args
      ensures !c.executed && !c.canceled && c.rawCall.None? && c.trace == []
      ensures c.CreateRequest() == CreateRequest()
    {
      c := new KOkHttpCall(client, requestFactory, responseConverter, args);
    }

    /**
     * `execute()`, given what `client.newCall` throws (if anything) and
     * what the transport does when the raw call is executed.
     */
    method Execute(newCallFault: Option<Throwable>, network: NetOutcome) returns (outcome: Try<Option<Response<T>>>)
      requires Valid()
      modifies this`executed, this`rawCall, this`trace
      ensures Valid() && executed
      ensures old(executed) ==> outcome == Throws(AlreadyExecuted) && trace == old(trace) && rawCall == old(rawCall)
      ensures !old(executed) ==>
                && outcome == ExecuteResult(CreateRequest(), responseConverter, newCallFault, network)
                && trace == ExecuteEvents(CreateRequest(), responseConverter, canceled, newCallFault)
                && rawCall == (if newCallFault.None? then Some(RawCall(CreateRequest())) else None)
    {
      if executed {
        return Throws(AlreadyExecuted);
      }
      executed := true;
      var request := CreateRequest();
      trace := trace + [NewCall(request)];
      if newCallFault.Some? {
        FirstExecuteCallsNewCallOnce<T>(request, canceled, newCallFault, false);
        return Throws(newCallFault.value);
      }
      outcome := ExecuteCreated(request, network);
    }

    /**
     * The rest of a first `execute` once `newCall` returned the raw call:
     * the `switch` over the mode, and the raw call's cancel, store and execute.
     */
    method ExecuteCreated(request: Request, network: NetOutcome) returns (outcome: Try<Option<Response<T>>>)
      requires executed && request == CreateRequest() && rawCall.None? && trace == [NewCall(request)]
      modifies this`rawCall, this`trace
      ensures Valid()
      ensures outcome == ExecuteResult(request, responseConverter, None, network)
      ensures trace == ExecuteEvents(request, responseConverter, canceled, None)
      ensures rawCall == Some(RawCall(request))
    {
      var mode := SelectMode(GetCacheMode(request), true);
      ghost var ranRawCall;
      outcome, ranRawCall := ExecuteRawCall(request, mode, network);
      RecordExecute(request, ranRawCall);
    }

    /**
     * The state a first `execute` leaves once `newCall` returned: the new
     * raw call, canceled at once when the call is canceled, is stored, and
     * `rawCall.execute()` is recorded when the `switch` called it.
     */
    method RecordExecute(request: Request, ghost ranRawCall: bool)
      requires executed && request == CreateRequest() && rawCall.None? && trace == [NewCall(request)]
      modifies this`rawCall, this`trace
      ensures Valid()
      ensures trace == FirstExecuteEvents(request, canceled, None, ranRawCall)
      ensures rawCall == Some(RawCall(request))
    {
      var call := RawCall(request);
      if canceled {
        trace := trace + [RawCancel];
      }
      rawCall := Some(call);
      if ranRawCall {
        trace := trace + [RawExecute];
      }
      assert trace == FirstExecuteEvents(request, canceled, None, ranRawCall);
      FirstExecuteCallsNewCallOnce<T>(request, canceled, None, ranRawCall);
    }

    /**
     * The `switch` of `execute`, once the raw call exists; `ranRawCall` says
     * whether it called `rawCall.execute()`.
     */
    method ExecuteRawCall(request: Request, mode: Option<Mode>, network: NetOutcome)
      returns (outcome: Try<Option<Response<T>>>, ghost ranRawCall: bool)
      ensures outcome == ExecuteWithMode(mode, request, responseConverter, network)
      ensures ranRawCall <==> ExecuteCallsTransport(mode, request, responseConverter)
    {
      ranRawCall := true;
      if mode == Some(NetworkElseCache) {
        var response := NetworkParse(network, request, responseConverter);
        if response.Throws? {
          // Any exception from the transport or from parsing: answer from the cache, even with null.
          var cached := ExecCacheRequest(request, responseConverter);
          outcome := Returns(cached);
        } else {
          outcome := Returns(Some(response.value));
        }
        return;
      }
      if mode == Some(CacheElseNetwork) {
        var cached := ExecCacheRequest(request, responseConverter);
        if cached.Some? {
          outcome := Returns(cached);
          ranRawCall := false;
          return;
        }
        // A miss falls through to the network, like the remaining labels.
      }
      var response := NetworkParse(network, request, responseConverter);
      if response.Throws? {
        outcome := Throws(response.error);
      } else {
        outcome := Returns(Some(response.value));
      }
    }

    /**
     * `enqueue(callback)`, given what `client.newCall` throws (if anything).
     * `thrown` is what escapes `enqueue` itself; `handler` is the callback
     * handed to the transport, through which it later completes the call.
     */
    method Enqueue(callback: UserCallback, newCallFault: Option<Throwable>)
      returns (thrown: Option<Throwable>, handler: Option<TransportCallback<T>>)
      requires Valid()
      modifies this`executed, this`rawCall, this`trace
      ensures Valid() && executed
      ensures old(executed) ==>
                thrown == Some(AlreadyExecuted) && handler.None? && trace == old(trace) && rawCall == old(rawCall)
      ensures !old(executed) ==>
                var request := CreateRequest();
                match RouteEnqueue(SelectMode(GetCacheMode(request), false), request, responseConverter)
                case DeliverCached(response) =>
                  && trace == [CallbackOnResponse(response)]
                  && thrown == callback.onResponseThrows
                  && handler.None? && rawCall.None?
                case Dispatch(networkElseCache) =>
                  if newCallFault.Some? then
                    && trace == [NewCall(request), CallbackOnFailure(newCallFault.value)]
                    && thrown == callback.onFailureThrows
                    && handler.None? && rawCall.None?
                  else
                    && trace == [NewCall(request)] + (if canceled then [RawCancel] else []) + [RawEnqueue]
                    && thrown.None?
                    && rawCall == Some(RawCall(request))
                    && handler.Some? && fresh(handler.value)
                    && handler.value.owner == this && handler.value.callback == callback
                    && handler.value.request == request
                    && handler.value.networkElseCache == networkElseCache
    {
      if executed {
        return Some(AlreadyExecuted), None;
      }
      executed := true;
      var request := CreateRequest();
      var mode := SelectMode(GetCacheMode(request), false);
      if mode == Some(NetworkElseCache) {
        thrown, handler := ExeRequest(callback, request, true, newCallFault);
        return;
      }
      if mode == Some(CacheElseNetwork) {
        var cached := ExecCacheRequest(request, responseConverter);
        if cached.Some? {
          // The caller's callback runs here, unguarded: what it throws escapes `enqueue`.
          trace := trace + [CallbackOnResponse(cached.value)];
          return callback.onResponseThrows, None;
        }
      }
      thrown, handler := ExeRequest(callback, request, false, newCallFault);
    }

    /** `exeRequest`: creates the raw call and hands it the transport callback. */
    method ExeRequest(callback: UserCallback, request: Request, networkElseCache: bool, newCallFault: Option<Throwable>)
      returns (thrown: Option<Throwable>, handler: Option<TransportCallback<T>>)
      requires executed && trace == [] && rawCall.None? && request == CreateRequest()
      modifies this`rawCall, this`trace
      ensures Valid()
      ensures newCallFault.Some? ==>
                && trace == [NewCall(request), CallbackOnFailure(newCallFault.value)]
                && thrown == callback.onFailureThrows
                && handler.None? && rawCall.None?
      ensures newCallFault.None? ==>
                && trace == [NewCall(request)] + (if canceled then [RawCancel] else []) + [RawEnqueue]
                && thrown.None?
                && rawCall == Some(RawCall(request))
                && handler.Some? && fresh(handler.value)
                && handler.value.owner == this && handler.value.callback == callback
                && handler.value.request == request && handler.value.networkElseCache == networkElseCache
    {
      trace := trace + [NewCall(request)];
      if newCallFault.Some? {
        // Unguarded as well: what `onFailure` throws escapes.
        ghost var failure: seq<Event<T>> := [CallbackOnFailure(newCallFault.value)];
        trace := trace + failure;
        NewCallsFirstOnly(request, failure);
        return callback.onFailureThrows, None;
      }
      var call := RawCall(request);
      if canceled {
        trace := trace + [RawCancel];
      }
      rawCall := Some(call);
      var h := new TransportCallback(this, callback, request, networkElseCache);
      trace := trace + [RawEnqueue];
      NewCallsFirstOnly(request, trace[1..]);
      assert trace == [NewCall(request)] + trace[1..];
      return None, Some(h);
    }

    /** `cancel()`: sets the flag and cancels the raw call, if there is one yet. */
    method Cancel()
      requires Valid()
      modifies this`canceled, this`trace
      ensures Valid() && canceled
      ensures trace == old(trace) + (if rawCall.Some? then [RawCancel] else [])
    {
      canceled := true;
      var call := rawCall;
      if call.Some? {
        trace := trace + [RawCancel];
        NewCallsAppend(old(trace), [RawCancel]);
      }
    }
  }

  /**
   * The callback `exeRequest` hands to the transport. It remembers the
   * caller's callback, the request and whether the call is
   * `network-else-cache`; the transport completes the call through it.
   * Whatever the caller's callback throws from here is caught and dropped.
   */
  class TransportCallback<T> {
    const owner: KOkHttpCall<T>
    const callback: UserCallback
    const request: Request
    const networkElseCache: bool

    constructor (owner: KOkHttpCall<T>, callback: UserCallback, request: Request, networkElseCache: bool)
      ensures this.owner == owner && this.callback == callback
      ensures this.request == request && this.networkElseCache == networkElseCache
    {
      this.owner := owner;
      this.callback := callback;
      this.request := request;
      this.networkElseCache := networkElseCache;
    }

    /** The transport failed with an `IOException`: the caller's `onFailure` gets it. */
    method OnFailure(message: string)
      requires owner.Valid() && owner.executed
      modifies owner`trace
      ensures owner.Valid()
      ensures owner.trace == old(owner.trace) + [CallbackOnFailure(IOException(message))]
    {
      var delivery: Delivery<T> := OnRawFailure(message);
      owner.trace := owner.trace + [DeliveryEvent(delivery)];
      NewCallsAppend(old(owner.trace), [DeliveryEvent(delivery)]);
    }

    /** The transport delivered a raw response: parse it and deliver, fail, or fall back to the cache. */
    method OnResponse(raw: RawResponse)
      requires owner.Valid() && owner.executed
      modifies owner`trace
      ensures owner.Valid()
      ensures owner.trace == old(owner.trace)
                + [DeliveryEvent(OnRawResponse(raw, request, networkElseCache, owner.responseConverter))]
    {
      var delivery := OnRawResponse(raw, request, networkElseCache, owner.responseConverter);
      owner.trace := owner.trace + [DeliveryEvent(delivery)];
      NewCallsAppend(old(owner.trace), [DeliveryEvent(delivery)]);
    }
  }

  /**
   * A call handle is single-use in every combination: after `execute`,
   * `enqueue` throws `IllegalStateException("Already executed")` and the
   * transport sees no second `newCall`.
   */
  method ExecuteThenEnqueue<T>(client: Client, factory: RequestFactory, converter: Converter<T>, args: Args,
                               callback: UserCallback, network: NetOutcome)
    returns (second: Option<Throwable>, ghost newCalls: nat)
    ensures second == Some(AlreadyExecuted)
    ensures newCalls == 1
  {
    var call := new KOkHttpCall(client, factory, converter, args);
    var _ := call.Execute(None, network);
    var handler;
    second, handler := call.Enqueue(callback, None);
    newCalls := NewCalls(call.trace);
  }

  /** ... and after `enqueue`, `execute` throws it likewise. */
  method EnqueueThenExecute<T>(client: Client, factory: RequestFactory, converter: Converter<T>, args: Args,
                               callback: UserCallback, network: NetOutcome)
    returns (second: Try<Option<Response<T>>>)
    ensures second == Throws(AlreadyExecuted)
  {
    var call := new KOkHttpCall(client, factory, converter, args);
    var _, _ := call.Enqueue(callback, None);
    second := call.Execute(None, network);
  }
}
