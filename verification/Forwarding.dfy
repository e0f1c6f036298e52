/** The retry loop of a proxied request: how often upstreams are called, with what body, and
    what becomes of every response. */
module Forwarding {
  import opened Basics

  type Bytes = seq<nat>

  /** The parts of a compiled route that the loop reads. `transform` is the request's JSON
      transform, `None` when the route has none; it fails on a body that is not an object. */
  datatype Route = Route(streaming: bool, retries: nat, transform: Option<Bytes -> Option<Bytes>>)

  /** `readable` is false when readBounded finds the body too long or cannot read it. */
  datatype Request = Request(verb: string, hasBody: bool, body: Bytes, readable: bool) {
    /** What a reader of the body delivers. */
    function Content(): Bytes {
      if hasBody then body else []
    }
  }

  /** What the pool, the circuit breaker and the transport do at one attempt. `overlong` is a
      round trip that failed because a streamed request body exceeded its limit. */
  datatype Outcome = NoEndpoint | BreakerOpen | TransportError(overlong: bool) | Response(status: nat)

  /** A round trip, by the number of its attempt, and what the reader of its request body still
      has to deliver when it starts. */
  datatype Trip = Trip(attempt: nat, unread: Bytes)

  function Rest(bytes: Bytes, n: nat): Bytes {
    if n <= |bytes| then bytes[n..] else []
  }

  /** A request body: what is read from it is gone. */
  class Reader {
    var unread: Bytes

    constructor (bytes: Bytes)
      ensures unread == bytes
    {
      unread := bytes;
    }

    /** A round trip reads as much as it wants, up to the end. */
    method Read(n: nat)
      modifies this
      ensures unread == Rest(old(unread), n)
    {
      unread := if n <= |unread| then unread[n..] else [];
    }
  }

  datatype Result =
    | BodyTooLarge
    | InvalidJson
    | NoHealthyUpstream
    | LastError(attempt: nat)
    | Respond(attempt: nat, status: nat)

  /** Responses are named by their attempt; the metric counts every attempt that had an
      endpoint. */
  datatype Log = Log(trips: seq<Trip>, obtained: seq<nat>, closed: seq<nat>, counted: nat)

  predicate IsIdempotent(verb: string) {
    verb in {"GET", "HEAD", "PUT", "DELETE", "OPTIONS"}
  }

  /** The idempotent methods of section 9.2.2 of RFC 9110. */
  predicate StandardIdempotent(verb: string) {
    verb in {"GET", "HEAD", "OPTIONS", "TRACE", "PUT", "DELETE"}
  }

  /** What the upstream is to receive, or why the request is refused beforehand. */
  datatype Prepared = Refused(reason: Result) | Ready(payload: Bytes)

  function Prepare(route: Route, request: Request): Prepared {
    if route.streaming || !request.hasBody then Ready(request.Content())
    else if !request.readable then Refused(BodyTooLarge)
    else if route.transform.None? || request.body == [] then Ready(request.body)
    else
      var body := route.transform.value(request.body);
      if body.None? then Refused(InvalidJson) else Ready(body.value)
  }

  function Attempts(route: Route, request: Request): (n: nat)
    ensures n >= 1
    ensures n > 1 ==> StandardIdempotent(request.verb) && !route.streaming
    ensures n <= 1 + route.retries
  {
    if IsIdempotent(request.verb) && !route.streaming then 1 + route.retries else 1
  }

  /** An attempt after which the loop returns. */
  predicate Decisive(world: nat -> Outcome, n: nat, k: nat) {
    match world(k)
    case NoEndpoint => true
    case Response(status) => status < 500 || k + 1 == n
    case _ => false
  }

  /** The attempts below `k` that obtained a response, in order. */
  function Obtained(world: nat -> Outcome, k: nat): (r: seq<nat>)
    ensures forall i :: 0 <= i < |r| ==> r[i] < k && world(r[i]).Response?
    ensures forall i, j :: 0 <= i < j < |r| ==> r[i] < r[j]
  {
    if k == 0 then [] else Obtained(world, k - 1) + if world(k - 1).Response? then [k - 1] else []
  }

  /** The attempts below `k` that made a round trip, in order: an open breaker makes none. */
  function Travelled(world: nat -> Outcome, k: nat): (r: seq<nat>)
    ensures |r| <= k
  {
    if k == 0 then [] else
    Travelled(world, k - 1) + if world(k - 1).Response? || world(k - 1).TransportError? then [k - 1] else []
  }

  /** Round trips that all start from the whole payload. */
  function Trips(attempts: seq<nat>, payload: Bytes): (r: seq<Trip>)
    ensures |r| == |attempts|
    ensures forall i :: 0 <= i < |r| ==> r[i] == Trip(attempts[i], payload)
  {
    seq(|attempts|, i requires 0 <= i < |attempts| => Trip(attempts[i], payload))
  }

  /** The result and the log agree with the outcomes: the loop ended at attempt `end`, the first
      decisive one, or after all `n` attempts. */
  ghost predicate Faithful(world: nat -> Outcome, n: nat, payload: Bytes, result: Result, log: Log, end: nat) {
    var ran := if end < n then end + 1 else n;
    && end <= n && n >= 1
    && (end < n ==> Decisive(world, n, end))
    && (forall k :: 0 <= k < end ==> !Decisive(world, n, k))
    && log.trips == Trips(Travelled(world, ran), payload)
    && log.obtained == Obtained(world, ran)
    && (if end == n then
          result == LastError(n - 1) && log.closed == log.obtained && log.counted == n
        else
          match world(end)
          case NoEndpoint => result == NoHealthyUpstream && log.closed == log.obtained && log.counted == end
          case Response(status) =>
            result == Respond(end, status) && log.obtained == log.closed + [end] && log.counted == end + 1
          case _ => false)
  }

  lemma StreamedOnce(route: Route, request: Request)
    requires route.streaming
    ensures Prepare(route, request) == Ready(request.Content()) && Attempts(route, request) == 1
  {
  }

  /** forward, with cloneUpstreamRequest inside. A buffered attempt gets a reader of its own, a
      streamed one the client's; either may be read to any extent, `taken`, by its round trip.
      Each attempt that is not the last closes the response it gives up; the one returned is
      open. */
  method Forward(route: Route, request: Request, world: nat -> Outcome, taken: nat -> nat)
    returns (result: Result, log: Log, ghost end: nat)
    ensures Prepare(route, request).Refused? ==>
      result == Prepare(route, request).reason && log == Log([], [], [], 0)
    ensures Prepare(route, request).Ready? ==>
      Faithful(world, Attempts(route, request), Prepare(route, request).payload, result, log, end)
  {
    hide Prepare, Attempts, Rest;
    log, end := Log([], [], [], 0), 0;
    var client := new Reader(request.Content());
    var prepared := Prepare(route, request);
    if prepared.Refused? {
      return prepared.reason, log, end;
    }
    ghost var payload := prepared.payload;
    var attempts := Attempts(route, request);
    if route.streaming {
      StreamedOnce(route, request);
    }
    var attempt := 0;
    while attempt < attempts
      invariant attempt <= attempts
      invariant route.streaming && attempt == 0 ==> client.unread == payload
      invariant forall k :: 0 <= k < attempt ==> !Decisive(world, attempts, k)
      invariant log.trips == Trips(Travelled(world, attempt), payload)
      invariant log.obtained == log.closed == Obtained(world, attempt)
      invariant log.counted == attempt
    {
      end := attempt;
      var outcome := world(attempt);
      if outcome.NoEndpoint? {
        assert Travelled(world, attempt + 1) == Travelled(world, attempt);
        assert Obtained(world, attempt + 1) == Obtained(world, attempt);
        return NoHealthyUpstream, log, end;
      }
      var body := client;
      if !route.streaming {
        body := new Reader(prepared.payload);
      }
      if !outcome.BreakerOpen? {
        log := log.(trips := log.trips + [Trip(attempt, body.unread)]);
        body.Read(taken(attempt));
      }
      log := log.(counted := log.counted + 1);
      assert log.trips == Trips(Travelled(world, attempt + 1), payload);
      if outcome.Response? {
        log := log.(obtained := log.obtained + [attempt]);
        if outcome.status < 500 || attempt + 1 == attempts {
          return Respond(attempt, outcome.status), log, end;
        }
        log := log.(closed := log.closed + [attempt]);
      }
      attempt := attempt + 1;
    }
    end := attempts;
    result := LastError(attempts - 1);
  }

  /** What attempt `k` would find if all attempts shared one reader. */
  function SharedUnread(body: Bytes, taken: nat -> nat, k: nat): Bytes {
    if k == 0 then body else Rest(SharedUnread(body, taken, k - 1), taken(k - 1))
  }

  /** None of the first `k` attempts reads anything. */
  predicate Unread(taken: nat -> nat, k: nat) {
    forall j :: 0 <= j < k ==> taken(j) == 0
  }

  lemma {:induction false} SharedShrinks(body: Bytes, taken: nat -> nat, k: nat)
    ensures |SharedUnread(body, taken, k)| <= |body|
    ensures SharedUnread(body, taken, k) == body <==> body == [] || Unread(taken, k)
  {
    if k > 0 {
      SharedShrinks(body, taken, k - 1);
    }
  }

  /** Why a streamed request is not retried: with a shared reader every one of `n` attempts would
      start from the whole body exactly when the body is empty or no attempt but the last reads
      any of it. */
  lemma SharedBodyExactly(body: Bytes, taken: nat -> nat, n: nat)
    requires n >= 1
    ensures (forall k :: 0 <= k < n ==> SharedUnread(body, taken, k) == body) <==> body == [] || Unread(taken, n - 1)
  {
    if body == [] || Unread(taken, n - 1) {
      forall k | 0 <= k < n ensures SharedUnread(body, taken, k) == body {
        assert Unread(taken, n - 1) ==> Unread(taken, k);
        SharedShrinks(body, taken, k);
      }
    } else {
      SharedShrinks(body, taken, n - 1);
      assert SharedUnread(body, taken, n - 1) != body;
    }
  }

  /** What every run of the loop keeps: at most 1 + retries round trips, and at most one unless
      the method is idempotent and the body buffered; every attempt starts from the whole body,
      whatever earlier ones read of it; and every response obtained is closed exactly once, except the one returned. */
  lemma ForwardConserves(
    route: Route, request: Request, world: nat -> Outcome, payload: Bytes, result: Result, log: Log, end: nat)
    requires Prepare(route, request) == Ready(payload)
    requires Faithful(world, Attempts(route, request), payload, result, log, end)
    ensures |log.trips| <= 1 + route.retries
    ensures !StandardIdempotent(request.verb) || route.streaming ==> |log.trips| <= 1
    ensures forall i :: 0 <= i < |log.trips| ==> log.trips[i].unread == payload
    ensures multiset(log.obtained) ==
            multiset(log.closed) + (if result.Respond? then multiset{result.attempt} else multiset{})
    ensures forall r :: r in log.obtained ==> multiset(log.obtained)[r] == 1
    ensures result.Respond? ==> result.attempt !in log.closed
  {
    Increasing(log.obtained);
    if result.Respond? {
      assert result.attempt in log.obtained;
      assert multiset(log.closed + [end]) == multiset(log.closed) + multiset{end};
    }
  }

  lemma {:induction false} Increasing(s: seq<nat>)
    requires forall i, j :: 0 <= i < j < |s| ==> s[i] < s[j]
    ensures forall r :: r in s ==> multiset(s)[r] == 1
  {
    if s != [] {
      var n := |s| - 1;
      Increasing(s[..n]);
      assert s == s[..n] + [s[n]];
      assert s[n] !in s[..n];
    }
  }

  /** The client is answered by the earliest response below 500, else by the final one. */
  lemma AnswersWithTheFirstGoodResponse(
    world: nat -> Outcome, n: nat, payload: Bytes, result: Result, log: Log, end: nat, k: nat)
    requires Faithful(world, n, payload, result, log, end)
    requires k < n && world(k).Response? && world(k).status < 500
    requires forall j :: 0 <= j < k ==> !world(j).NoEndpoint? && (world(j).Response? ==> world(j).status >= 500)
    ensures result == Respond(k, world(k).status)
  {
    assert Decisive(world, n, k);
    assert forall j :: 0 <= j < k ==> !Decisive(world, n, j);
  }

  // ---------------------------------------------------------------------------
  // Retries

  /** How many attempts may follow the first: those configured, for these five methods and a
      buffered body, and none for any other request. */
  function RetriesFor(route: Route, request: Request): nat {
    if !route.streaming && request.verb in {"GET", "HEAD", "PUT", "DELETE", "OPTIONS"} then route.retries else 0
  }

  /** The attempt had an endpoint and brought no response below 500. */
  predicate Fails(outcome: Outcome) {
    outcome.TransportError? || outcome.BreakerOpen? || (outcome.Response? && outcome.status >= 500)
  }

  ghost predicate FailsBefore(world: nat -> Outcome, k: nat) {
    forall j :: 0 <= j < k ==> Fails(world(j))
  }

  /** The first good response comes at attempt `k`, which is within the retries. */
  ghost predicate SavedAt(route: Route, request: Request, world: nat -> Outcome, k: int) {
    0 <= k <= RetriesFor(route, request) && world(k).Response? && world(k).status < 500 && FailsBefore(world, k)
  }

  /** All attempts within the retries fail. */
  ghost predicate AllFail(route: Route, request: Request, world: nat -> Outcome) {
    FailsBefore(world, RetriesFor(route, request) + 1)
  }

  /** The loop gets as far as the failures go. */
  lemma ReachesPastFailures(world: nat -> Outcome, n: nat, payload: Bytes, result: Result, log: Log, end: nat, k: nat)
    requires Faithful(world, n, payload, result, log, end) && k < n && FailsBefore(world, k)
    ensures end >= k
  {
    forall j | 0 <= j < k ensures !Decisive(world, n, j) {
      assert Fails(world(j));
    }
  }

  /** That requests are retried as promised: the first good response within the retries is the
      answer, after as many attempts as it took. */
  lemma RetriedUntilGood(
    route: Route, request: Request, world: nat -> Outcome, payload: Bytes, result: Result, log: Log, end: nat, k: int)
    requires Faithful(world, Attempts(route, request), payload, result, log, end)
    requires SavedAt(route, request, world, k)
    ensures result == Respond(k, world(k).status) && log.counted == k + 1
  {
    ReachesPastFailures(world, Attempts(route, request), payload, result, log, end, k);
    assert Decisive(world, Attempts(route, request), k);
  }

  /** And no more than promised: if all attempts within the retries fail, exactly these are made,
      one for a request that is not retried, and the answer is the last one's response or error. */
  lemma GivesUpAfterTheLast(
    route: Route, request: Request, world: nat -> Outcome, payload: Bytes, result: Result, log: Log, end: nat)
    requires Faithful(world, Attempts(route, request), payload, result, log, end) && AllFail(route, request, world)
    ensures var last := RetriesFor(route, request);
            && log.counted == last + 1
            && result == if world(last).Response? then Respond(last, world(last).status) else LastError(last)
  {
    var last := RetriesFor(route, request);
    assert Fails(world(last));
    assert FailsBefore(world, last);
    ReachesPastFailures(world, last + 1, payload, result, log, end, last);
    assert Decisive(world, last + 1, last) <==> world(last).Response?;
  }

  lemma EndsWithoutEndpoint(world: nat -> Outcome, n: nat, payload: Bytes, result: Result, log: Log, end: nat)
    requires Faithful(world, n, payload, result, log, end) && world(0).NoEndpoint?
    ensures result == NoHealthyUpstream && log.trips == []
  {
    assert Decisive(world, n, 0);
    assert Travelled(world, 1) == Travelled(world, 0) + [];
  }

  // ---------------------------------------------------------------------------
  // The request before and after the loop

  /** The request is refused without reaching an upstream: its buffered body cannot be read within
      the limit, or is to be transformed and is no JSON object. */
  predicate Unreadable(route: Route, request: Request) {
    !route.streaming && request.hasBody && !request.readable
  }

  predicate Untransformable(route: Route, request: Request) {
    && !route.streaming && request.hasBody && request.readable && request.body != []
    && route.transform.Some? && route.transform.value(request.body).None?
  }

  /** What every round trip of another request carries: the client's body, transformed where it is
      buffered, not empty and to be transformed. */
  function Carried(route: Route, request: Request): Bytes
    requires !Unreadable(route, request) && !Untransformable(route, request)
  {
    if !route.streaming && request.hasBody && request.body != [] && route.transform.Some?
    then route.transform.value(request.body).value else request.Content()
  }

  /** The status of the answer. `delivers` says of a response whether writeResponse can read its
      body within the limit and transform it, where it has to; a fault is written otherwise. */
  function StatusOf(world: nat -> Outcome, delivers: nat -> bool, result: Result): nat {
    match result
    case BodyTooLarge => 413
    case InvalidJson => 400
    case NoHealthyUpstream => 502
    case LastError(k) => if world(k) == TransportError(true) then 413 else 502
    case Respond(k, status) => if delivers(k) then status else 502
  }

  /** serveHTTP around the loop: after writeResponse the returned response is closed, so none is
      left open and none is closed twice. */
  method Serve(route: Route, request: Request, world: nat -> Outcome, taken: nat -> nat, delivers: nat -> bool)
    returns (status: nat, log: Log, ghost result: Result, ghost forwarded: Log, ghost end: nat)
    ensures Prepare(route, request).Ready? ==>
      Faithful(world, Attempts(route, request), Prepare(route, request).payload, result, forwarded, end)
    ensures Prepare(route, request).Refused? ==> result == Prepare(route, request).reason && log.trips == []
    ensures status == StatusOf(world, delivers, result) && log.trips == forwarded.trips
    ensures log.obtained == forwarded.obtained && log.closed == log.obtained
    ensures forall r :: r in log.obtained ==> multiset(log.closed)[r] == 1
    ensures Unreadable(route, request) ==> status == 413 && log.trips == []
    ensures Untransformable(route, request) ==> status == 400 && log.trips == []
    ensures !Unreadable(route, request) && !Untransformable(route, request) ==>
      && (forall i :: 0 <= i < |log.trips| ==> log.trips[i].unread == Carried(route, request))
      && (forall k :: SavedAt(route, request, world, k) ==> status == if delivers(k) then world(k).status else 502)
      && (var last := world(RetriesFor(route, request));
          AllFail(route, request, world) && !last.Response? ==> status == if last == TransportError(true) then 413 else 502)
      && (world(0).NoEndpoint? ==> status == 502 && log.trips == [])
  {
    var answer;
    answer, log, end := Forward(route, request, world, taken);
    result, forwarded := answer, log;
    match answer {
      case BodyTooLarge => status := 413;
      case InvalidJson => status := 400;
      case NoHealthyUpstream => status := 502;
      case LastError(k) => status := if world(k) == TransportError(true) then 413 else 502;
      case Respond(attempt, code) =>
        status := if delivers(attempt) then code else 502;
        log := log.(closed := log.closed + [attempt]);
    }
    Increasing(log.obtained);
    if Prepare(route, request).Ready? {
      ghost var payload := Prepare(route, request).payload;
      forall k | SavedAt(route, request, world, k) ensures result == Respond(k, world(k).status) {
        RetriedUntilGood(route, request, world, payload, result, forwarded, end, k);
      }
      if AllFail(route, request, world) {
        GivesUpAfterTheLast(route, request, world, payload, result, forwarded, end);
      }
      if world(0).NoEndpoint? {
        EndsWithoutEndpoint(world, Attempts(route, request), payload, result, forwarded, end);
      }
    }
  }
}
