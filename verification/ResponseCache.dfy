/** The shared response cache: how a key is formed, when a response is stored and for how long,
    and what a hit returns, over runs in which routes may be reconfigured under the same name. */
module ResponseCache {
  import opened Basics
  import opened Text
  import opened CacheControl

  /** Header fields by canonical name. */
  type Header = map<string, seq<string>>

  function Get(h: Header, name: string): string {
    if name in h && h[name] != [] then h[name][0] else ""
  }

  predicate Contains(s: string, sub: string) {
    HasPrefix(s, sub) || (s != [] && Contains(s[1..], sub))
  }

  /** A positive time.Duration, which is what validation demands of a lifetime. */
  type Nanos = n: int | 0 < n < TWO_TO_63 witness 1

  datatype Policy = Policy(ttl: Nanos, maxBodyBytes: nat, perPrincipal: bool, varyHeaders: seq<string>)

  /** `authenticated` is a route with an auth policy; times are in nanoseconds. */
  datatype Route = Route(name: string, authenticated: bool, cache: Option<Policy>, maxBodyBytes: nat)

  /** What configuration validation enforces of a cached route. */
  predicate Admissible(route: Route) {
    route.authenticated && route.cache.Some? ==> route.cache.value.perPrincipal
  }

  datatype Request = Request(verb: string, uri: string, principal: string, header: Header)

  /** A response after the route's transforms. */
  datatype Response = Response(status: nat, header: Header, body: seq<nat>) {
    function Control(): string {
      ToLower(Get(header, "Cache-Control"))
    }
  }

  /** What reaches the client. */
  datatype Reply = Reply(status: nat, header: Header, body: seq<nat>)

  // ---------------------------------------------------------------------------
  // Keys

  /** textproto.CanonicalMIMEHeaderKey on header names. */
  function Canonical(name: string, upper: bool := true): string {
    if name == [] then [] else
    [if upper then UpperChar(name[0]) else LowerChar(name[0])] + Canonical(name[1..], name[0] == '-')
  }

  function VaryParts(names: seq<string>, header: Header): (r: seq<string>)
    ensures |r| == 2 * |names|
  {
    if names == [] then [] else
    [Canonical(names[0]), Get(header, Canonical(names[0]))] + VaryParts(names[1..], header)
  }

  function Parts(name: string, policy: Policy, request: Request): seq<string> {
    [name, request.verb, request.uri]
    + (if policy.perPrincipal then [request.principal] else [])
    + VaryParts(policy.varyHeaders, request.header)
  }

  predicate Refuses(control: string) {
    Contains(ToLower(control), "no-cache") || Contains(ToLower(control), "no-store")
  }

  predicate Cacheable(route: Route, request: Request) {
    && route.cache.Some? && (request.verb == "GET" || request.verb == "HEAD")
    && !Refuses(Get(request.header, "Cache-Control"))
  }

  /** The key of a request, `None` when the cache is bypassed. */
  function CacheKey(hash: string -> string, route: Route, request: Request): Option<string> {
    if !Cacheable(route, request) then None else
    Some("vial-gateway:cache:" + route.name + ":" + hash(Join(Parts(route.name, route.cache.value, request), NUL)))
  }

  ghost predicate AllNulFree(parts: seq<string>) {
    forall i :: 0 <= i < |parts| ==> Free(parts[i], NUL)
  }

  /** The first separator of a joined list is where its first part ends. */
  lemma JoinHead(parts: seq<string>)
    requires |parts| > 1
    ensures var j := Join(parts, NUL); var n := |parts[0]|;
            n < |j| && j[..n] == parts[0] && j[n] == NUL && j[n + 1..] == Join(parts[1..], NUL)
  {
  }

  /** Joining with NUL loses nothing when the parts have none. */
  lemma {:induction false} JoinInjective(a: seq<string>, b: seq<string>)
    requires a != [] && b != [] && AllNulFree(a) && AllNulFree(b) && Join(a, NUL) == Join(b, NUL)
    ensures a == b
    decreases |a|
  {
    if |a| > 1 { JoinHead(a); }
    if |b| > 1 { JoinHead(b); }
    if |a| == 1 && |b| == 1 {
      assert a == [a[0]] && b == [b[0]];
    } else if |a| > 1 && |b| > 1 {
      assert |a[0]| == |b[0]|;
      JoinInjective(a[1..], b[1..]);
      assert a == [a[0]] + a[1..] && b == [b[0]] + b[1..];
    }
  }

  /** A digest has 64 characters, and these requests' keys do not collide. */
  ghost predicate Distinguishes(hash: string -> string, a: string, b: string) {
    && |hash(a)| == 64 && |hash(b)| == 64
    && (hash(a) == hash(b) ==> a == b)
  }

  /** A canonical name does not depend on the case in which a header is configured. */
  lemma {:induction false} CanonicalExactly(a: string, b: string, upper: bool)
    ensures Canonical(a, upper) == Canonical(b, upper) <==> ToLower(a) == ToLower(b)
    decreases |a|
  {
    CanonicalLength(a, upper);
    CanonicalLength(b, upper);
    if |a| == |b| && a != [] {
      CanonicalExactly(a[1..], b[1..], a[0] == '-');
      assert ToLower(a) == [LowerChar(a[0])] + ToLower(a[1..]) && ToLower(b) == [LowerChar(b[0])] + ToLower(b[1..]);
      assert ToLower(a)[0] == LowerChar(a[0]) && ToLower(a)[1..] == ToLower(a[1..]);
      assert ToLower(b)[0] == LowerChar(b[0]) && ToLower(b)[1..] == ToLower(b[1..]);
      assert Canonical(a, upper)[1..] == Canonical(a[1..], a[0] == '-');
      assert Canonical(b, upper)[1..] == Canonical(b[1..], b[0] == '-');
    }
  }

  lemma {:induction false} CanonicalLength(a: string, upper: bool)
    ensures |Canonical(a, upper)| == |a|
    decreases |a|
  {
    if a != [] {
      CanonicalLength(a[1..], a[0] == '-');
    }
  }

  lemma {:induction false} VaryPartsAt(names: seq<string>, header: Header, i: nat)
    requires i < |names|
    ensures VaryParts(names, header)[2 * i] == Canonical(names[i])
    ensures VaryParts(names, header)[2 * i + 1] == Get(header, Canonical(names[i]))
    decreases |names|
  {
    hide Canonical, Get;
    if i > 0 {
      VaryPartsAt(names[1..], header, i - 1);
    }
  }

  /** The two requests have the same value for every header the policies vary on. */
  ghost predicate SameVary(p1: Policy, q1: Request, p2: Policy, q2: Request) {
    && |p1.varyHeaders| == |p2.varyHeaders|
    && (forall i :: 0 <= i < |p1.varyHeaders| ==>
          && Canonical(p1.varyHeaders[i]) == Canonical(p2.varyHeaders[i])
          && Get(q1.header, Canonical(p1.varyHeaders[i])) == Get(q2.header, Canonical(p2.varyHeaders[i])))
  }

  lemma VaryPartsExactly(p1: Policy, q1: Request, p2: Policy, q2: Request)
    ensures VaryParts(p1.varyHeaders, q1.header) == VaryParts(p2.varyHeaders, q2.header) <==> SameVary(p1, q1, p2, q2)
  {
    hide Canonical, Get, VaryParts;
    var a, b := VaryParts(p1.varyHeaders, q1.header), VaryParts(p2.varyHeaders, q2.header);
    var n := |p1.varyHeaders|;
    if n == |p2.varyHeaders| {
      if a == b {
        forall i | 0 <= i < n
          ensures Canonical(p1.varyHeaders[i]) == Canonical(p2.varyHeaders[i])
          ensures Get(q1.header, Canonical(p1.varyHeaders[i])) == Get(q2.header, Canonical(p2.varyHeaders[i]))
        {
          VaryPartsAt(p1.varyHeaders, q1.header, i);
          VaryPartsAt(p2.varyHeaders, q2.header, i);
        }
      }
      if SameVary(p1, q1, p2, q2) {
        forall k | 0 <= k < 2 * n ensures a[k] == b[k] {
          var i := k / 2;
          assert k == 2 * i || k == 2 * i + 1;
          VaryPartsAt(p1.varyHeaders, q1.header, i);
          VaryPartsAt(p2.varyHeaders, q2.header, i);
        }
      }
    }
  }

  /** Everything a key depends on: the name, method and URI, the principal where the policy asks for
      it, and the vary headers. */
  ghost predicate SameKeyed(r1: Route, q1: Request, r2: Route, q2: Request)
    requires r1.cache.Some? && r2.cache.Some?
  {
    && r1.name == r2.name && q1.verb == q2.verb && q1.uri == q2.uri
    && r1.cache.value.perPrincipal == r2.cache.value.perPrincipal
    && (r1.cache.value.perPrincipal ==> q1.principal == q2.principal)
    && SameVary(r1.cache.value, q1, r2.cache.value, q2)
  }

  lemma PartsExactly(r1: Route, q1: Request, r2: Route, q2: Request)
    requires r1.cache.Some? && r2.cache.Some?
    ensures Parts(r1.name, r1.cache.value, q1) == Parts(r2.name, r2.cache.value, q2) <==> SameKeyed(r1, q1, r2, q2)
  {
    hide SameVary, VaryParts;
    var p1, p2 := r1.cache.value, r2.cache.value;
    var a, b := Parts(r1.name, p1, q1), Parts(r2.name, p2, q2);
    var v, w := VaryParts(p1.varyHeaders, q1.header), VaryParts(p2.varyHeaders, q2.header);
    VaryPartsExactly(p1, q1, p2, q2);
    var k1, k2 := if p1.perPrincipal then 4 else 3, if p2.perPrincipal then 4 else 3;
    assert a[k1..] == v && b[k2..] == w;
    assert a[0] == r1.name && a[1] == q1.verb && a[2] == q1.uri;
    assert b[0] == r2.name && b[1] == q2.verb && b[2] == q2.uri;
    if p1.perPrincipal {
      assert a[3] == q1.principal;
    }
    if p2.perPrincipal {
      assert b[3] == q2.principal;
    }
    assert |a| == k1 + 2 * |p1.varyHeaders| && |b| == k2 + 2 * |p2.varyHeaders|;
  }

  /** Requests that agree on everything a key depends on get the same key. */
  lemma KeysAgree(hash: string -> string, r1: Route, q1: Request, r2: Route, q2: Request)
    requires Cacheable(r1, q1) && Cacheable(r2, q2) && SameKeyed(r1, q1, r2, q2)
    ensures CacheKey(hash, r1, q1) == CacheKey(hash, r2, q2)
  {
    PartsExactly(r1, q1, r2, q2);
  }

  /** When a request has a key: the route has a cache policy, the method is GET or HEAD, and the
      first Cache-Control line asks for nothing fresh. */
  lemma KeyedExactly(hash: string -> string, route: Route, request: Request)
    ensures CacheKey(hash, route, request).Some? <==>
            && route.cache.Some? && request.verb in {"GET", "HEAD"}
            && !Contains(ToLower(Get(request.header, "Cache-Control")), "no-cache")
            && !Contains(ToLower(Get(request.header, "Cache-Control")), "no-store")
  {
    hide Contains, Get;
  }

  /** Equal keys mean equal parts, even across different policies for one route name; in
      particular a key that names a principal never equals one that does not, and the values of
      all vary headers are the same. */
  lemma KeysSeparate(hash: string -> string, r1: Route, q1: Request, r2: Route, q2: Request)
    requires Cacheable(r1, q1) && Cacheable(r2, q2)
    requires CacheKey(hash, r1, q1) == CacheKey(hash, r2, q2)
    requires var a, b := Parts(r1.name, r1.cache.value, q1), Parts(r2.name, r2.cache.value, q2);
             AllNulFree(a) && AllNulFree(b) && Distinguishes(hash, Join(a, NUL), Join(b, NUL))
    ensures Parts(r1.name, r1.cache.value, q1) == Parts(r2.name, r2.cache.value, q2)
    ensures SameKeyed(r1, q1, r2, q2)
  {
    hide SameKeyed, Parts, Refuses;
    var a, b := Parts(r1.name, r1.cache.value, q1), Parts(r2.name, r2.cache.value, q2);
    var x, y := "vial-gateway:cache:" + r1.name + ":", "vial-gateway:cache:" + r2.name + ":";
    var h1, h2 := hash(Join(a, NUL)), hash(Join(b, NUL));
    assert x + h1 == y + h2;
    assert |x| == |y|;
    assert h1 == (x + h1)[|x|..] == (y + h2)[|y|..] == h2;
    PartsNonempty(r1.name, r1.cache.value, q1);
    PartsNonempty(r2.name, r2.cache.value, q2);
    JoinInjective(a, b);
    PartsExactly(r1, q1, r2, q2);
  }

  lemma PartsNonempty(name: string, policy: Policy, request: Request)
    ensures Parts(name, policy, request) != []
  {
  }

  // ---------------------------------------------------------------------------
  // Runs

  /** A stored response, when it lapses, and which exchange of the log stored it. */
  datatype Entry = Entry(response: Response, expires: nat, source: nat)

  /** One answered request; `hit` gives the exchange that a cache hit repeats. */
  datatype Exchange = Exchange(
    route: Route, request: Request, origin: Option<Response>, hit: Option<nat>, reply: Reply, at: nat)

  datatype State = State(entries: map<string, Entry>, log: seq<Exchange>, now: nat)

  /** `Lookup` is the GET of a request; on a miss it goes on to the upstream and finishes later
      as `Complete`, whose SET may fail. `Unlink` is an invalidation. */
  datatype Event =
    | Lookup(route: Route, request: Request)
    | Complete(route: Route, request: Request, response: Response, setOk: bool)
    | Tick(ns: nat)
    | Unlink(keys: set<string>)

  function BodyFor(request: Request, body: seq<nat>): seq<nat> {
    if request.verb == "HEAD" then [] else body
  }

  function Limit(route: Route): nat {
    if route.cache.Some? && route.cache.value.maxBodyBytes < route.maxBodyBytes
    then route.cache.value.maxBodyBytes else route.maxBodyBytes
  }

  /** Which responses storeCached keeps. */
  predicate Storable(policy: Policy, response: Response) {
    && response.status == 200 && |response.body| <= policy.maxBodyBytes
    && Get(response.header, "Set-Cookie") == ""
    && !Contains(response.Control(), "no-store") && !Contains(response.Control(), "private")
  }

  /** How long it keeps them. */
  function Lifetime(policy: Policy, response: Response): (ns: Nanos)
    ensures ns <= policy.ttl
  {
    var maxAge := MaxAgeOf(response.Control());
    if 0 < maxAge < policy.ttl then maxAge else policy.ttl
  }

  /** A stated age is kept when it is positive, and else ignored. */
  lemma LifetimeAgainstStated(policy: Policy, response: Response)
    ensures var value := StatedIn(response.Control());
            && (value.None? || StatedAge(value.value) == 0 ==> Lifetime(policy, response) == policy.ttl)
            && (value.Some? && StatedAge(value.value) > 0 ==> Lifetime(policy, response) <= StatedAge(value.value))
            && (value.Some? && 0 < StatedAge(value.value) < TWO_TO_63 ==>
                  Lifetime(policy, response) == if StatedAge(value.value) < policy.ttl then StatedAge(value.value) else policy.ttl)
  {
    hide StatedIn, StatedAge, NanosOf;
    var value := StatedIn(response.Control());
    if value.Some? {
      NanosAgainstStated(value.value);
    }
  }

  const TOO_LARGE := Reply(502, map["Cache-Control" := ["no-store"]], [])

  function Step(hash: string -> string, s: State, e: Event): State {
    match e
    case Tick(ns) => s.(now := s.now + ns)
    case Unlink(keys) => s.(entries := s.entries - keys)
    case Lookup(route, request) =>
      var key := CacheKey(hash, route, request);
      if key.None? || key.value !in s.entries || s.entries[key.value].expires < s.now then s else
      var entry := s.entries[key.value];
      var reply := Reply(entry.response.status, entry.response.header["X-Cache" := ["HIT"]],
                         BodyFor(request, entry.response.body));
      s.(log := s.log + [Exchange(route, request, None, Some(entry.source), reply, s.now)])
    case Complete(route, request, response, setOk) =>
      var key := CacheKey(hash, route, request);
      if key.Some? && |response.body| > Limit(route)
      then s.(log := s.log + [Exchange(route, request, None, None, TOO_LARGE, s.now)]) else
      var reply := Reply(response.status, response.header, BodyFor(request, response.body));
      s.(log := s.log + [Exchange(route, request, Some(response), None, reply, s.now)],
         entries := if key.Some? && setOk && Storable(route.cache.value, response)
                    then s.entries[key.value := Entry(response, s.now + Lifetime(route.cache.value, response), |s.log|)]
                    else s.entries)
  }

  function Run(hash: string -> string, s: State, es: seq<Event>): State
    decreases |es|
  {
    if es == [] then s else Step(hash, Run(hash, s, es[..|es| - 1]), es[|es| - 1])
  }

  const EMPTY := State(map[], [], 0)

  /** An entry is what its exchange received from upstream and passed on, under its key. */
  ghost predicate Backed(hash: string -> string, log: seq<Exchange>, key: string, entry: Entry) {
    && entry.source < |log|
    && var x := log[entry.source];
       && x.hit.None? && x.origin == Some(entry.response)
       && CacheKey(hash, x.route, x.request) == Some(key)
       && Storable(x.route.cache.value, entry.response)
       && x.reply == Reply(entry.response.status, entry.response.header, BodyFor(x.request, entry.response.body))
       && entry.expires == x.at + Lifetime(x.route.cache.value, entry.response)
  }

  /** Exchange `j` repeats exchange `i` while that was fresh: both have the same key, the reply
      is the same apart from X-Cache, and what may not be stored is not repeated. */
  ghost predicate Repeats(hash: string -> string, log: seq<Exchange>, j: nat)
    requires j < |log| && log[j].hit.Some?
  {
    var i := log[j].hit.value;
    && i < j
    && var x, y := log[i], log[j];
       && x.hit.None? && x.origin.Some?
       && CacheKey(hash, x.route, x.request).Some?
       && CacheKey(hash, y.route, y.request) == CacheKey(hash, x.route, x.request)
       && Storable(x.route.cache.value, x.origin.value)
       && x.reply == Reply(x.origin.value.status, x.origin.value.header, BodyFor(x.request, x.origin.value.body))
       && y.reply == Reply(x.origin.value.status, x.origin.value.header["X-Cache" := ["HIT"]],
                           BodyFor(y.request, x.origin.value.body))
       && x.at <= y.at <= x.at + Lifetime(x.route.cache.value, x.origin.value)
  }

  ghost predicate Consistent(hash: string -> string, s: State) {
    && (forall key :: key in s.entries ==> Backed(hash, s.log, key, s.entries[key]))
    && (forall j :: 0 <= j < |s.log| && s.log[j].hit.Some? ==> Repeats(hash, s.log, j))
    && (forall j :: 0 <= j < |s.log| ==> s.log[j].at <= s.now)
  }

  /** Appending to the log disturbs nothing. */
  lemma LogKeepsConsistent(hash: string -> string, s: State, x: Exchange)
    requires Consistent(hash, s) && x.at <= s.now
    requires x.hit.Some? ==> Repeats(hash, s.log + [x], |s.log|)
    ensures Consistent(hash, s.(log := s.log + [x]))
  {
    hide Lifetime, Storable, CacheKey, BodyFor;
    var log := s.log + [x];
    forall j | 0 <= j < |log| && log[j].hit.Some? ensures Repeats(hash, log, j) {
      if j < |s.log| {
        assert Repeats(hash, s.log, j);
      }
    }
  }

  lemma LookupKeepsConsistent(hash: string -> string, s: State, e: Event)
    requires Consistent(hash, s) && e.Lookup?
    ensures Consistent(hash, Step(hash, s, e))
  {
    hide Lifetime, Storable, CacheKey, BodyFor;
    var t := Step(hash, s, e);
    if t != s {
      var key := CacheKey(hash, e.route, e.request).value;
      assert Backed(hash, s.log, key, s.entries[key]);
      LogKeepsConsistent(hash, s, t.log[|s.log|]);
    }
  }

  lemma StoreKeepsConsistent(hash: string -> string, s: State, key: string, entry: Entry)
    requires Consistent(hash, s) && Backed(hash, s.log, key, entry)
    ensures Consistent(hash, s.(entries := s.entries[key := entry]))
  {
    hide Lifetime, Storable, CacheKey, BodyFor, Backed, Repeats;
  }

  lemma CompleteKeepsConsistent(hash: string -> string, s: State, e: Event)
    requires Consistent(hash, s) && e.Complete?
    ensures Consistent(hash, Step(hash, s, e))
  {
    hide Lifetime, Storable, CacheKey, BodyFor;
    var t := Step(hash, s, e);
    var x := t.log[|s.log|];
    var mid := s.(log := s.log + [x]);
    LogKeepsConsistent(hash, s, x);
    if t != mid {
      var key := CacheKey(hash, e.route, e.request).value;
      StoreKeepsConsistent(hash, mid, key, t.entries[key]);
    }
  }

  lemma QuietKeepsConsistent(hash: string -> string, s: State, e: Event)
    requires Consistent(hash, s) && (e.Tick? || e.Unlink?)
    ensures Consistent(hash, Step(hash, s, e))
  {
    hide Lifetime, Storable, CacheKey, BodyFor, Backed, Repeats;
  }

  lemma StepKeepsConsistent(hash: string -> string, s: State, e: Event)
    requires Consistent(hash, s)
    ensures Consistent(hash, Step(hash, s, e))
  {
    hide Consistent, Step;
    match e
    case Lookup(_, _) => LookupKeepsConsistent(hash, s, e);
    case Complete(_, _, _, _) => CompleteKeepsConsistent(hash, s, e);
    case Tick(_) => QuietKeepsConsistent(hash, s, e);
    case Unlink(_) => QuietKeepsConsistent(hash, s, e);
  }

  lemma {:induction false} RunConsistent(hash: string -> string, es: seq<Event>)
    ensures Consistent(hash, Run(hash, EMPTY, es))
    decreases |es|
  {
    if es != [] {
      RunConsistent(hash, es[..|es| - 1]);
      StepKeepsConsistent(hash, Run(hash, EMPTY, es[..|es| - 1]), es[|es| - 1]);
    }
  }

  /** The requests of a run have NUL-free key parts whose digests do not collide. */
  ghost predicate WellKeyed(hash: string -> string, log: seq<Exchange>) {
    && (forall i :: 0 <= i < |log| && log[i].route.cache.Some? ==>
          AllNulFree(Parts(log[i].route.name, log[i].route.cache.value, log[i].request)))
    && (forall i, j :: 0 <= i < |log| && 0 <= j < |log| && log[i].route.cache.Some? && log[j].route.cache.Some? ==>
          Distinguishes(hash,
                        Join(Parts(log[i].route.name, log[i].route.cache.value, log[i].request), NUL),
                        Join(Parts(log[j].route.name, log[j].route.cache.value, log[j].request), NUL)))
  }

  /** Cache transparency: in every run each hit repeats, within its lifetime, what an earlier
      exchange under the same key received, apart from X-Cache. */
  lemma CacheIsTransparent(hash: string -> string, es: seq<Event>, j: nat)
    requires j < |Run(hash, EMPTY, es).log| && Run(hash, EMPTY, es).log[j].hit.Some?
    ensures Repeats(hash, Run(hash, EMPTY, es).log, j)
  {
    RunConsistent(hash, es);
  }

  lemma {:induction false} ContainsMeaning(s: string, sub: string)
    ensures Contains(s, sub) <==> exists i :: 0 <= i <= |s| && HasPrefix(s[i..], sub)
    decreases |s|
  {
    if s != [] {
      ContainsMeaning(s[1..], sub);
      if i :| 0 <= i <= |s| && HasPrefix(s[i..], sub) {
        assert i > 0 ==> s[i..] == s[1..][i - 1..];
        assert i == 0 ==> s[i..] == s;
      }
      if Contains(s[1..], sub) {
        var k :| 0 <= k <= |s[1..]| && HasPrefix(s[1..][k..], sub);
        assert s[k + 1..] == s[1..][k..];
      }
      assert s[0..] == s;
    } else {
      assert s[0..] == s;
    }
  }

  /** What a hit may repeat: a 200 response to a GET or HEAD that sets no cookie and is neither
      no-store nor private, as sections 5.2.2.5 and 5.2.2.7 of RFC 9111 ask, to a client that
      did not ask for a fresh one, while it is no older than the policy and a positive max-age
      allow. */
  lemma HitsAreShareable(hash: string -> string, es: seq<Event>, j: nat)
    requires j < |Run(hash, EMPTY, es).log| && Run(hash, EMPTY, es).log[j].hit.Some?
    ensures var log := Run(hash, EMPTY, es).log;
            var y := log[j];
            && y.hit.value < j && var x := log[y.hit.value];
            && x.origin.Some? && x.route.cache.Some? && x.reply.status == y.reply.status == 200
            && Get(x.reply.header, "Set-Cookie") == ""
            && !Contains(ToLower(Get(x.reply.header, "Cache-Control")), "no-store")
            && !Contains(ToLower(Get(x.reply.header, "Cache-Control")), "private")
            && (y.request.verb == "GET" || y.request.verb == "HEAD")
            && !Contains(ToLower(Get(y.request.header, "Cache-Control")), "no-cache")
            && !Contains(ToLower(Get(y.request.header, "Cache-Control")), "no-store")
            && |y.reply.body| <= x.route.cache.value.maxBodyBytes
            && x.at <= y.at <= x.at + x.route.cache.value.ttl
            && var value := StatedIn(x.origin.value.Control());
               (value.Some? && StatedAge(value.value) > 0 ==> y.at <= x.at + StatedAge(value.value))
  {
    hide StatedIn, StatedAge, Lifetime, CacheKey, Contains;
    CacheIsTransparent(hash, es, j);
    var x := Run(hash, EMPTY, es).log[Run(hash, EMPTY, es).log[j].hit.value];
    var y := Run(hash, EMPTY, es).log[j];
    CacheableWhenKeyed(hash, x.route, x.request);
    CacheableWhenKeyed(hash, y.route, y.request);
    LifetimeAgainstStated(x.route.cache.value, x.origin.value);
  }

  lemma CacheableWhenKeyed(hash: string -> string, route: Route, request: Request)
    ensures CacheKey(hash, route, request).Some? <==> Cacheable(route, request)
  {
  }

  /** Separation: that exchange had the same key parts, so the same route name, method and URI,
      and when the hit is on an authenticated route it was stored by the same principal,
      whatever policies the route has had in between. */
  lemma CacheSeparatesPrincipals(hash: string -> string, es: seq<Event>, j: nat)
    requires var log := Run(hash, EMPTY, es).log; j < |log| && log[j].hit.Some? && WellKeyed(hash, log)
    requires Admissible(Run(hash, EMPTY, es).log[j].route)
    ensures var log := Run(hash, EMPTY, es).log;
            var y := log[j];
            && y.hit.value < j && var x := log[y.hit.value];
            && x.route.cache.Some? && y.route.cache.Some?
            && Parts(x.route.name, x.route.cache.value, x.request) == Parts(y.route.name, y.route.cache.value, y.request)
            && SameKeyed(x.route, x.request, y.route, y.request)
            && x.reply.body == y.reply.body && x.reply.status == y.reply.status
            && (y.route.authenticated ==> x.request.principal == y.request.principal)
  {
    hide SameVary, Run, Join;
    CacheIsTransparent(hash, es, j);
    var log := Run(hash, EMPTY, es).log;
    var x, y := log[log[j].hit.value], log[j];
    KeysSeparate(hash, x.route, x.request, y.route, y.request);
  }

  /** For runs: each hit has, for every header its route varies on, the value that the request it
      repeats had; and it gets the body of the response, or none for HEAD. */
  lemma HitsAgreeOnVary(hash: string -> string, es: seq<Event>, j: nat, i: nat)
    requires var log := Run(hash, EMPTY, es).log; j < |log| && log[j].hit.Some? && WellKeyed(hash, log)
    requires Admissible(Run(hash, EMPTY, es).log[j].route) && Run(hash, EMPTY, es).log[j].route.cache.Some?
    requires i < |Run(hash, EMPTY, es).log[j].route.cache.value.varyHeaders|
    ensures var log := Run(hash, EMPTY, es).log;
            var y := log[j];
            && y.hit.value < j && var x, name := log[y.hit.value], Canonical(y.route.cache.value.varyHeaders[i]);
            && Get(y.request.header, name) == Get(x.request.header, name)
            && x.origin.Some? && y.reply.body == if y.request.verb == "HEAD" then [] else x.origin.value.body
  {
    hide Run, Canonical, Get, Join;
    CacheSeparatesPrincipals(hash, es, j);
    CacheIsTransparent(hash, es, j);
    var log := Run(hash, EMPTY, es).log;
    var x, y := log[log[j].hit.value], log[j];
    assert SameVary(x.route.cache.value, x.request, y.route.cache.value, y.request);
  }

  // ---------------------------------------------------------------------------
  // When a request hits

  /** The time after a run. */
  function TimeAfter(es: seq<Event>): nat {
    if es == [] then 0 else
    TimeAfter(es[..|es| - 1]) + if es[|es| - 1].Tick? then es[|es| - 1].ns else 0
  }

  /** The event stores its response under `key`. */
  predicate Stores(hash: string -> string, e: Event, key: string) {
    && e.Complete? && CacheKey(hash, e.route, e.request) == Some(key)
    && |e.response.body| <= Limit(e.route) && e.setOk && Storable(e.route.cache.value, e.response)
  }

  predicate Removes(e: Event, key: string) {
    e.Unlink? && key in e.keys
  }

  /** Event `i` was the last to store under `key`, and nothing unlinked that since. */
  ghost predicate HeldSince(hash: string -> string, es: seq<Event>, key: string, i: int) {
    && 0 <= i < |es| && Stores(hash, es[i], key)
    && forall j :: i < j < |es| ==> !Stores(hash, es[j], key) && !Removes(es[j], key)
  }

  /** What an entry says of the event that stored it. */
  ghost predicate EntryOf(es: seq<Event>, i: int, entry: Entry)
    requires 0 <= i < |es| && es[i].Complete? && es[i].route.cache.Some?
  {
    && entry.response == es[i].response
    && entry.expires == TimeAfter(es[..i]) + Lifetime(es[i].route.cache.value, es[i].response)
  }

  lemma {:induction false} RunTime(hash: string -> string, es: seq<Event>)
    ensures Run(hash, EMPTY, es).now == TimeAfter(es)
    decreases |es|
  {
    if es != [] {
      RunTime(hash, es[..|es| - 1]);
    }
  }

  /** One step keeps the entry of a key, stores it, or drops it. */
  lemma StepOnKey(hash: string -> string, s: State, e: Event, key: string)
    ensures var t := Step(hash, s, e);
            && (Stores(hash, e, key) ==>
                  && key in t.entries && t.entries[key].response == e.response
                  && t.entries[key].expires == s.now + Lifetime(e.route.cache.value, e.response))
            && (Removes(e, key) ==> key !in t.entries)
            && (!Stores(hash, e, key) && !Removes(e, key) ==>
                  && (key in t.entries <==> key in s.entries)
                  && (key in s.entries ==> t.entries[key] == s.entries[key]))
  {
    hide Lifetime, Storable;
  }

  /** The cache holds an entry exactly for the keys last stored and not unlinked since. */
  lemma {:induction false} EntryExactly(hash: string -> string, es: seq<Event>, key: string)
    ensures key in Run(hash, EMPTY, es).entries <==> exists i :: HeldSince(hash, es, key, i)
    ensures forall i :: HeldSince(hash, es, key, i) && key in Run(hash, EMPTY, es).entries ==>
              EntryOf(es, i, Run(hash, EMPTY, es).entries[key])
    decreases |es|
  {
    hide Stores, Step, Lifetime;
    if es != [] {
      var n := |es| - 1;
      var init, e := es[..n], es[n];
      var s := Run(hash, EMPTY, init);
      EntryExactly(hash, init, key);
      RunTime(hash, init);
      StepOnKey(hash, s, e, key);
      HeldNext(hash, es, key);
      if Stores(hash, e, key) {
        assert HeldSince(hash, es, key, n);
      } else if !Removes(e, key) && key in s.entries {
        var i :| HeldSince(hash, init, key, i);
        assert HeldSince(hash, es, key, i);
      }
      forall i | HeldSince(hash, es, key, i) && key in Run(hash, EMPTY, es).entries
        ensures es[i].Complete? && es[i].route.cache.Some? && EntryOf(es, i, Run(hash, EMPTY, es).entries[key])
      {
        StoresMeans(hash, es[i], key);
        if i < n {
          assert HeldSince(hash, init, key, i);
          assert es[..i] == init[..i];
        }
      }
    }
  }

  lemma StoresMeans(hash: string -> string, e: Event, key: string)
    requires Stores(hash, e, key)
    ensures e.Complete? && e.route.cache.Some?
  {
  }

  lemma HeldNext(hash: string -> string, es: seq<Event>, key: string)
    requires es != []
    ensures var n := |es| - 1;
            forall i :: HeldSince(hash, es, key, i) <==>
              if i == n then Stores(hash, es[n], key)
              else HeldSince(hash, es[..n], key, i) && !Stores(hash, es[n], key) && !Removes(es[n], key)
  {
    hide Stores, Removes;
  }

  /** The request is answered from the cache after the run. */
  ghost predicate Hits(hash: string -> string, es: seq<Event>, route: Route, request: Request) {
    |Run(hash, EMPTY, es + [Lookup(route, request)]).log| > |Run(hash, EMPTY, es).log|
  }

  /** The response that event `i` stored under `key` is still there and has not lapsed. */
  ghost predicate FreshSince(hash: string -> string, es: seq<Event>, key: string, i: int) {
    && HeldSince(hash, es, key, i)
    && TimeAfter(es) <= TimeAfter(es[..i]) + Lifetime(es[i].route.cache.value, es[i].response)
  }

  lemma LookupStep(hash: string -> string, es: seq<Event>, route: Route, request: Request)
    ensures var s := Run(hash, EMPTY, es); var key := CacheKey(hash, route, request);
            Hits(hash, es, route, request) <==>
            key.Some? && key.value in s.entries && s.now <= s.entries[key.value].expires
  {
    hide CacheKey;
    var e := Lookup(route, request);
    assert (es + [e])[..|es|] == es;
    assert Run(hash, EMPTY, es + [e]) == Step(hash, Run(hash, EMPTY, es), e);
  }

  /** The other half of transparency. After any run a request is answered from the cache exactly
      when the last storable response under its key was not unlinked and has not lapsed. */
  lemma LookupHitsExactly(hash: string -> string, es: seq<Event>, route: Route, request: Request)
    ensures Hits(hash, es, route, request) <==>
            var key := CacheKey(hash, route, request);
            key.Some? && exists i :: FreshSince(hash, es, key.value, i)
  {
    hide CacheKey, Lifetime, Hits, Run, Stores;
    LookupStep(hash, es, route, request);
    RunTime(hash, es);
    var key := CacheKey(hash, route, request);
    if key.Some? {
      EntryExactly(hash, es, key.value);
      var s := Run(hash, EMPTY, es);
      if key.value in s.entries {
        var i :| HeldSince(hash, es, key.value, i);
        StoresMeans(hash, es[i], key.value);
        assert EntryOf(es, i, s.entries[key.value]);
        assert s.now <= s.entries[key.value].expires <==> FreshSince(hash, es, key.value, i);
        forall k | FreshSince(hash, es, key.value, k) ensures k == i {
        }
      }
    }
  }

  // ---------------------------------------------------------------------------
  // Stated ages that are overrun

  /** Completed and asked again `gap` later. */
  function Again(es: seq<Event>, route: Route, request: Request, response: Response, gap: nat): seq<Event> {
    es + [Complete(route, request, response, true), Tick(gap)]
  }

  lemma AgainHits(hash: string -> string, es: seq<Event>, route: Route, request: Request, response: Response, gap: nat)
    requires Cacheable(route, request) && |response.body| <= Limit(route) && Storable(route.cache.value, response)
    ensures Hits(hash, Again(es, route, request, response, gap), route, request) <==>
            gap <= Lifetime(route.cache.value, response)
  {
    CacheableWhenKeyed(hash, route, request);
    var n, key := |es|, CacheKey(hash, route, request).value;
    var complete := Complete(route, request, response, true);
    var all := Again(es, route, request, response, gap);
    assert Stores(hash, complete, key);
    hide CacheKey, Lifetime, Hits, Stores, Storable, Cacheable, Limit;
    assert all[n] == complete && all[n + 1] == Tick(gap) && all[..n] == es;
    assert all[..n + 1] == es + [complete] && (es + [complete])[..n] == es;
    assert all[..|all| - 1] == all[..n + 1];
    assert TimeAfter(all) == TimeAfter(es) + gap;
    TickStoresNothing(hash, gap, key);
    assert HeldSince(hash, all, key, n);
    StoresMeans(hash, complete, key);
    LookupHitsExactly(hash, all, route, request);
    assert FreshSince(hash, all, key, n) <==> gap <= Lifetime(route.cache.value, response);
    forall i | FreshSince(hash, all, key, i) ensures i == n {
    }
  }

  lemma TickStoresNothing(hash: string -> string, gap: nat, key: string)
    ensures !Stores(hash, Tick(gap), key) && !Removes(Tick(gap), key)
  {
  }

  /** The response is repeated at an age beyond the one its max-age directive states. */
  ghost predicate Overrun(
    hash: string -> string, es: seq<Event>, route: Route, request: Request, response: Response, stated: nat)
  {
    exists gap: nat :: gap > stated && Hits(hash, Again(es, route, request, response, gap), route, request)
  }

  /** After any run, a storable response that states a max-age is repeated beyond it exactly when
      the value is not a positive number, in which case cacheMaxAge reports what it reports
      without a directive and the whole lifetime of the policy is used. */
  lemma OverrunExactly(
    hash: string -> string, es: seq<Event>, route: Route, request: Request, response: Response, value: string)
    requires Cacheable(route, request) && |response.body| <= Limit(route) && Storable(route.cache.value, response)
    requires StatedIn(response.Control()) == Some(value)
    ensures Overrun(hash, es, route, request, response, StatedAge(value)) <==>
            Written(value).None? || Written(value).value <= 0
  {
    var ttl := route.cache.value.ttl;
    LifetimeAgainstStated(route.cache.value, response);
    forall gap: nat
      ensures Hits(hash, Again(es, route, request, response, gap), route, request) <==>
              gap <= Lifetime(route.cache.value, response)
    {
      AgainHits(hash, es, route, request, response, gap);
    }
    assert StatedAge(value) == 0 <==> Written(value).None? || Written(value).value <= 0;
    hide StatedIn, Hits, Lifetime, Again, Storable, Cacheable;
    if StatedAge(value) == 0 {
      assert Hits(hash, Again(es, route, request, response, ttl), route, request);
    }
  }

  lemma {:induction false} FirstCharMissing(s: string, sub: string)
    requires sub != "" && sub[0] !in s
    ensures !Contains(s, sub)
    decreases |s|
  {
    if s != [] {
      FirstCharMissing(s[1..], sub);
    }
  }

  lemma LowerAlready(s: string)
    requires forall i :: 0 <= i < |s| ==> !('A' <= s[i] <= 'Z')
    ensures ToLower(s) == s
  {
  }

  /** A response whose only field is the given Cache-Control. */
  lemma StorableUnder(control: string, body: seq<nat>, policy: Policy)
    requires forall i :: 0 <= i < |control| ==> !('A' <= control[i] <= 'Z')
    requires 'n' !in control && 'p' !in control && |body| <= policy.maxBodyBytes
    ensures var response := Response(200, map["Cache-Control" := [control]], body);
            response.Control() == control && Storable(policy, response)
  {
    LowerAlready(control);
    FirstCharMissing(control, "no-store");
    FirstCharMissing(control, "private");
  }

  /** The failure at max-age=0: after any run, such a response is repeated at a positive age under
      every policy. */
  lemma MaxAgeZeroIsRepeated(hash: string -> string, es: seq<Event>, route: Route, request: Request, body: seq<nat>)
    requires Cacheable(route, request) && |body| <= Limit(route)
    ensures StatedIn("max-age=0") == Some("0") && StatedAge("0") == 0
    ensures Overrun(hash, es, route, request, Response(200, map["Cache-Control" := ["max-age=0"]], body), 0)
  {
    hide Contains, Refuses, StatedIn, StatedAge, Written, Storable, Overrun;
    ZeroStated();
    StorableUnder("max-age=0", body, route.cache.value);
    OverrunExactly(hash, es, route, request, Response(200, map["Cache-Control" := ["max-age=0"]], body), "0");
  }

  // ---------------------------------------------------------------------------
  // Directives that are not looked for

  /** After any run and `gap` later, the response just completed is what the cache answers with. */
  ghost predicate Repeated(
    hash: string -> string, es: seq<Event>, route: Route, request: Request, response: Response, gap: nat)
  {
    var key := CacheKey(hash, route, request);
    key.Some? && FreshSince(hash, Again(es, route, request, response, gap), key.value, |es|)
  }

  /** Whatever else its Cache-Control field says, no-cache of section 5.2.2.4 of RFC 9111 included: a
      response is repeated at a positive age exactly when the route has a cache policy, the method
      is GET or HEAD, the request asks for nothing fresh, the body fits both limits, and it is a
      200 without cookie whose field contains neither no-store nor private. */
  lemma RepeatedExactly(hash: string -> string, es: seq<Event>, route: Route, request: Request, response: Response)
    ensures (exists gap: nat :: gap > 0 && Repeated(hash, es, route, request, response, gap)) <==>
            && route.cache.Some? && request.verb in {"GET", "HEAD"}
            && !Contains(ToLower(Get(request.header, "Cache-Control")), "no-cache")
            && !Contains(ToLower(Get(request.header, "Cache-Control")), "no-store")
            && |response.body| <= route.maxBodyBytes && |response.body| <= route.cache.value.maxBodyBytes
            && response.status == 200 && Get(response.header, "Set-Cookie") == ""
            && !Contains(response.Control(), "no-store") && !Contains(response.Control(), "private")
  {
    KeyedExactly(hash, route, request);
    hide CacheKey, Contains, Lifetime, Get;
    if CacheKey(hash, route, request).Some? {
      RepeatedOfKeyed(hash, es, route, request, response);
    }
  }

  lemma RepeatedOfKeyed(hash: string -> string, es: seq<Event>, route: Route, request: Request, response: Response)
    requires CacheKey(hash, route, request).Some? && route.cache.Some?
    ensures (exists gap: nat :: gap > 0 && Repeated(hash, es, route, request, response, gap)) <==>
            && |response.body| <= route.maxBodyBytes && |response.body| <= route.cache.value.maxBodyBytes
            && response.status == 200 && Get(response.header, "Set-Cookie") == ""
            && !Contains(response.Control(), "no-store") && !Contains(response.Control(), "private")
  {
    hide CacheKey, Contains, Lifetime, Get, Repeated;
    var complete, key := Complete(route, request, response, true), CacheKey(hash, route, request).value;
    forall gap: nat
      ensures Repeated(hash, es, route, request, response, gap) <==>
              Stores(hash, complete, key) && gap <= Lifetime(route.cache.value, response)
    {
      RepeatedAt(hash, es, route, request, response, gap);
    }
    if Stores(hash, complete, key) {
      assert Repeated(hash, es, route, request, response, Lifetime(route.cache.value, response));
    }
  }

  lemma RepeatedAt(hash: string -> string, es: seq<Event>, route: Route, request: Request, response: Response, gap: nat)
    requires CacheKey(hash, route, request).Some? && route.cache.Some?
    ensures Repeated(hash, es, route, request, response, gap) <==>
            && Stores(hash, Complete(route, request, response, true), CacheKey(hash, route, request).value)
            && gap <= Lifetime(route.cache.value, response)
  {
    hide Stores, CacheKey, Lifetime;
    var n, key, complete := |es|, CacheKey(hash, route, request).value, Complete(route, request, response, true);
    var all := Again(es, route, request, response, gap);
    assert all[n] == complete && all[n + 1] == Tick(gap) && all[..n] == es;
    assert all[..n + 1] == es + [complete] && (es + [complete])[..n] == es;
    assert all[..|all| - 1] == all[..n + 1];
    assert TimeAfter(all) == TimeAfter(es) + gap;
    TickStoresNothing(hash, gap, key);
    if Stores(hash, complete, key) {
      assert HeldSince(hash, all, key, n);
    }
  }

  lemma TooShort(s: string, sub: string)
    requires |s| < |sub|
    ensures !Contains(s, sub)
  {
  }

  /** The failure at no-cache: after any run such a response is repeated at a positive age. */
  lemma NoCacheIsRepeated(hash: string -> string, es: seq<Event>, route: Route, request: Request, body: seq<nat>)
    requires Cacheable(route, request) && |body| <= Limit(route)
    ensures var response := Response(200, map["Cache-Control" := ["no-cache"]], body);
            && Contains(response.Control(), "no-cache")
            && exists gap: nat :: gap > 0 && Repeated(hash, es, route, request, response, gap)
  {
    var s := "no-cache";
    LowerAlready(s);
    assert s != "no-store" by { assert s[3] != "no-store"[3]; }
    TooShort(s[1..], "no-store");
    FirstCharMissing(s, "private");
    assert Contains(s, s);
    assert !Contains(s, "no-store");
    hide Contains, Repeated;
    RepeatedExactly(hash, es, route, request, Response(200, map["Cache-Control" := [s]], body));
  }

  /** The failure at a field of several lines, which section 5.3 of RFC 9110 would combine: only the
      first is read, so after any run a response is repeated at a positive age whatever its
      further Cache-Control lines say, no-store included. */
  lemma FurtherLinesAreIgnored(
    hash: string -> string, es: seq<Event>, route: Route, request: Request, body: seq<nat>, further: seq<string>)
    requires Cacheable(route, request) && |body| <= Limit(route)
    ensures var response := Response(200, map["Cache-Control" := ["max-age=60"] + further], body);
            exists gap: nat :: gap > 0 && Repeated(hash, es, route, request, response, gap)
  {
    hide Contains, Repeated, Get;
    var s := "max-age=60";
    FirstCharMissing(s, "no-store");
    FirstCharMissing(s, "private");
    var response := Response(200, map["Cache-Control" := [s] + further], body);
    FirstLineOnly(s, further, response.header);
    LowerAlready(s);
    RepeatedExactly(hash, es, route, request, response);
  }

  lemma FirstLineOnly(s: string, further: seq<string>, header: Header)
    requires header == map["Cache-Control" := [s] + further]
    ensures Get(header, "Cache-Control") == s && Get(header, "Set-Cookie") == ""
  {
    assert "Set-Cookie"[0] != "Cache-Control"[0];
  }
}
