/** The compilation of a validated configuration into a snapshot, which repeats no check: it relies
    on validation for every lookup, URL and digest. */
module ConfigCompilation {
  import opened Basics
  import opened Text
  import opened RoutePatterns
  import opened ConfigValidation

  /** An error that compilation ignores, or a lookup that finds nothing. */
  datatype Slip = NoAuthPolicy | NoRatePolicy | NoCachePolicy | BadDigest(index: nat)

  datatype CompiledAuth = CompiledAuth(policy: AuthPolicy, principals: map<seq<nat>, string>)

  datatype CompiledRoute = CompiledRoute(
    endpoints: seq<Endpoint>, auth: Option<CompiledAuth>, rate: Option<RatePolicy>, cache: Option<CachePolicy>)

  function Zeros(n: nat): (r: seq<nat>)
    ensures |r| == n && forall i :: 0 <= i < n ==> r[i] == 0
  {
    if n == 0 then [] else Zeros(n - 1) + [0]
  }

  /** A digest that does not decode is taken as zero. */
  function DigestOf(key: ApiKey): seq<nat> {
    if HashBytes(key.sha256).Some? then HashBytes(key.sha256).value else Zeros(32)
  }

  /** Key `i` is the last with its digest. */
  ghost predicate LastWith(keys: seq<ApiKey>, i: int) {
    0 <= i < |keys| && forall j :: i < j < |keys| ==> DigestOf(keys[j]) != DigestOf(keys[i])
  }

  /** Each digest stands for the last key that has it, and nothing else stands for anyone. */
  ghost predicate Grants(keys: seq<ApiKey>, principals: map<seq<nat>, string>) {
    && (forall i :: 0 <= i < |keys| ==> DigestOf(keys[i]) in principals)
    && (forall d :: d in principals ==>
          exists i :: LastWith(keys, i) && DigestOf(keys[i]) == d && principals[d] == keys[i].name)
  }

  lemma GrantNext(keys: seq<ApiKey>, principals: map<seq<nat>, string>, key: ApiKey)
    requires Grants(keys, principals)
    ensures Grants(keys + [key], principals[DigestOf(key) := key.name])
  {
    hide HashBytes, DigestOf;
    var more, now := keys + [key], principals[DigestOf(key) := key.name];
    forall d | d in now
      ensures exists i :: LastWith(more, i) && DigestOf(more[i]) == d && now[d] == more[i].name
    {
      if d == DigestOf(key) {
        assert LastWith(more, |keys|);
      } else {
        var i :| LastWith(keys, i) && DigestOf(keys[i]) == d && principals[d] == keys[i].name;
        assert LastWith(more, i) && more[i] == keys[i];
      }
    }
  }

  predicate Undecodable(keys: seq<ApiKey>, slip: Slip) {
    slip.BadDigest? && slip.index < |keys| && HashBytes(keys[slip.index].sha256).None?
  }

  predicate DigestsDecode(keys: seq<ApiKey>) {
    forall i :: 0 <= i < |keys| ==> HashBytes(keys[i].sha256).Some?
  }

  /** The principals of a policy's keys, and the digest errors that are ignored. */
  method CompileKeys(keys: seq<ApiKey>) returns (principals: map<seq<nat>, string>, slips: seq<Slip>)
    ensures slips == [] <==> DigestsDecode(keys)
    ensures forall s :: s in slips ==> Undecodable(keys, s)
    ensures Grants(keys, principals)
  {
    principals, slips := map[], [];
    var i := 0;
    while i < |keys|
      invariant 0 <= i <= |keys|
      invariant slips == [] <==> forall k :: 0 <= k < i ==> HashBytes(keys[k].sha256).Some?
      invariant forall s :: s in slips ==> Undecodable(keys, s)
      invariant Grants(keys[..i], principals)
    {
      GrantNext(keys[..i], principals, keys[i]);
      assert keys[..i + 1] == keys[..i] + [keys[i]];
      var digest := HashBytes(keys[i].sha256);
      if digest.None? {
        slips := slips + [BadDigest(i)];
      }
      principals := principals[if digest.Some? then digest.value else Zeros(32) := keys[i].name];
      i := i + 1;
    }
    assert keys[..i] == keys;
  }

  // ---------------------------------------------------------------------------
  // One route

  predicate UrlsParse(route: Route) {
    forall i :: 0 <= i < |route.upstreams| ==> ParseHTTPURL(route.upstreams[i]).Some?
  }

  predicate PoliciesFound(g: Gateway, route: Route) {
    && (route.authPolicy != "" ==> route.authPolicy in g.authPolicies)
    && (route.ratePolicy != "" ==> route.ratePolicy in g.ratePolicies)
    && (route.cachePolicy != "" ==> route.cachePolicy in g.cachePolicies)
  }

  /** The zero values that a lookup in vain yields. */
  const NO_AUTH := AuthPolicy("", [], "", Unparsable, [])
  const NO_RATE := RatePolicy(0, 0, 0)
  const NO_CACHE := CachePolicy(0, 0, false)

  function AuthOf(g: Gateway, route: Route): AuthPolicy {
    if route.authPolicy in g.authPolicies then g.authPolicies[route.authPolicy] else NO_AUTH
  }

  function KeysUsed(g: Gateway, route: Route): seq<ApiKey> {
    if route.authPolicy == "" then [] else AuthOf(g, route).keys
  }

  /** The upstream pool: a URL that does not parse is a nil pointer, and compilation panics. */
  method CompilePool(upstreams: seq<RawUrl>) returns (pool: Option<seq<Endpoint>>)
    ensures pool.Some? <==> forall i :: 0 <= i < |upstreams| ==> ParseHTTPURL(upstreams[i]).Some?
    ensures pool.Some? ==> |pool.value| == |upstreams|
    ensures pool.Some? ==> forall i :: 0 <= i < |upstreams| ==> ParseHTTPURL(upstreams[i]) == Some(pool.value[i])
  {
    var endpoints: seq<Endpoint> := [];
    var i := 0;
    while i < |upstreams|
      invariant 0 <= i <= |upstreams| && |endpoints| == i
      invariant forall k :: 0 <= k < i ==> ParseHTTPURL(upstreams[k]) == Some(endpoints[k])
    {
      var url := ParseHTTPURL(upstreams[i]);
      if url.None? {
        return None;
      }
      endpoints := endpoints + [url.value];
      i := i + 1;
    }
    pool := Some(endpoints);
  }

  /** The compiled route has the endpoints, policies and principals of the configured one. */
  ghost predicate CompiledFrom(g: Gateway, route: Route, compiled: CompiledRoute) {
    && |compiled.endpoints| == |route.upstreams|
    && (forall i :: 0 <= i < |route.upstreams| ==> ParseHTTPURL(route.upstreams[i]) == Some(compiled.endpoints[i]))
    && (compiled.auth.Some? <==> route.authPolicy != "")
    && (compiled.auth.Some? ==>
          compiled.auth.value.policy == AuthOf(g, route) && Grants(KeysUsed(g, route), compiled.auth.value.principals))
    && (compiled.rate.Some? <==> route.ratePolicy != "")
    && (compiled.rate.Some? && route.ratePolicy in g.ratePolicies ==> compiled.rate == Some(g.ratePolicies[route.ratePolicy]))
    && (compiled.cache.Some? <==> route.cachePolicy != "")
    && (compiled.cache.Some? && route.cachePolicy in g.cachePolicies ==>
          compiled.cache == Some(g.cachePolicies[route.cachePolicy]))
  }

  /** compileRoute, `None` when it panics. `slips` are the errors it ignores and the policies it
      looks up in vain. */
  method CompileRoute(g: Gateway, route: Route) returns (compiled: Option<CompiledRoute>, slips: seq<Slip>)
    ensures compiled.Some? <==> UrlsParse(route)
    ensures compiled.Some? ==> CompiledFrom(g, route, compiled.value)
    ensures compiled.Some? ==> (slips == [] <==> PoliciesFound(g, route) && DigestsDecode(KeysUsed(g, route)))
    ensures PoliciesFound(g, route) ==> forall s :: s in slips ==> Undecodable(KeysUsed(g, route), s)
  {
    hide HashBytes, ParseHTTPURL, Grants;
    slips := [];
    var pool := CompilePool(route.upstreams);
    if pool.None? {
      return None, slips;
    }
    var auth, rate, cache := None, None, None;
    if route.authPolicy != "" {
      var policy := AuthOf(g, route);
      var principals, bad := CompileKeys(policy.keys);
      auth, slips := Some(CompiledAuth(policy, principals)), bad;
      if route.authPolicy !in g.authPolicies {
        slips := slips + [NoAuthPolicy];
      }
    }
    if route.ratePolicy != "" {
      if route.ratePolicy in g.ratePolicies {
        rate := Some(g.ratePolicies[route.ratePolicy]);
      } else {
        rate, slips := Some(NO_RATE), slips + [NoRatePolicy];
      }
    }
    if route.cachePolicy != "" {
      if route.cachePolicy in g.cachePolicies {
        cache := Some(g.cachePolicies[route.cachePolicy]);
      } else {
        cache, slips := Some(NO_CACHE), slips + [NoCachePolicy];
      }
    }
    compiled := Some(CompiledRoute(pool.value, auth, rate, cache));
  }

  // ---------------------------------------------------------------------------
  // The whole snapshot

  /** Whether the multiplexer takes a pattern, given those it already has; it panics otherwise. */
  type Mux = (seq<string>, string) -> bool

  datatype Snapshot = Snapshot(routes: seq<CompiledRoute>, patterns: seq<string>)

  /** An error ignored while compiling a route. */
  datatype Ignored = Ignored(route: nat, slip: Slip)

  /** The multiplexer takes `patterns` one after the other. */
  ghost predicate Registers(mux: Mux, before: seq<string>, patterns: seq<string>) {
    forall k :: 0 <= k < |patterns| ==> mux(before + patterns[..k], patterns[k])
  }

  lemma RegistersAppend(mux: Mux, before: seq<string>, a: seq<string>, b: seq<string>)
    ensures Registers(mux, before, a + b) <==> Registers(mux, before, a) && Registers(mux, before + a, b)
  {
    var all := a + b;
    assert forall k :: 0 <= k < |a| ==> all[..k] == a[..k] && all[k] == a[k];
    assert forall k :: 0 <= k < |b| ==> before + all[..|a| + k] == before + a + b[..k] && all[|a| + k] == b[k];
    if Registers(mux, before, all) {
      forall k | 0 <= k < |a| ensures mux(before + a[..k], a[k]) {
        assert mux(before + all[..k], all[k]);
      }
      forall k | 0 <= k < |b| ensures mux(before + a + b[..k], b[k]) {
        assert mux(before + all[..|a| + k], all[|a| + k]);
      }
    } else {
      var k :| 0 <= k < |all| && !mux(before + all[..k], all[k]);
      if k >= |a| {
        assert !mux(before + a + b[..k - |a|], b[k - |a|]);
      }
    }
  }

  /** The inner loop of compile: register the patterns of one route, `None` on a panic. */
  method Register(mux: Mux, before: seq<string>, patterns: seq<string>) returns (after: Option<seq<string>>)
    ensures after.Some? <==> Registers(mux, before, patterns)
    ensures after.Some? ==> after.value == before + patterns
  {
    var registered := before;
    var k := 0;
    assert before + patterns[..0] == before;
    while k < |patterns|
      invariant 0 <= k <= |patterns| && registered == before + patterns[..k]
      invariant forall j :: 0 <= j < k ==> mux(before + patterns[..j], patterns[j])
    {
      if !mux(registered, patterns[k]) {
        return None;
      }
      registered := registered + [patterns[k]];
      assert patterns[..k + 1] == patterns[..k] + [patterns[k]];
      k := k + 1;
    }
    assert patterns[..k] == patterns;
    after := Some(registered);
  }

  method ParseTrustedProxies(values: seq<TrustedProxy>) returns (ok: bool)
    ensures ok <==> forall i :: 0 <= i < |values| ==> !values[i].Unreadable?
  {
    var i := 0;
    while i < |values|
      invariant 0 <= i <= |values|
      invariant forall k :: 0 <= k < i ==> !values[k].Unreadable?
    {
      if values[i].Unreadable? {
        return false;
      }
      i := i + 1;
    }
    ok := true;
  }

  function AllPatterns(routes: seq<Route>): seq<string> {
    Patterns(AllEntries(Shapes(routes)))
  }

  lemma AllPatternsNext(routes: seq<Route>, k: nat)
    requires k < |routes|
    ensures AllPatterns(routes[..k + 1]) == AllPatterns(routes[..k]) + Patterns(Entries(routes[k].shape))
  {
    hide Patterns, Entries, AllEntries;
    assert routes[..k + 1] == routes[..k] + [routes[k]];
    assert Shapes(routes[..k + 1]) == Shapes(routes[..k]) + [routes[k].shape];
    AllEntriesSnoc(Shapes(routes[..k]), routes[k].shape);
    PatternsAppend(AllEntries(Shapes(routes[..k])), Entries(routes[k].shape));
  }

  /** What a snapshot of the first routes is, and which errors were ignored for it. */
  ghost predicate Built(g: Gateway, routes: seq<Route>, snapshot: Snapshot, ignored: seq<Ignored>) {
    && snapshot.patterns == AllPatterns(routes)
    && |snapshot.routes| == |routes|
    && (forall i :: 0 <= i < |routes| ==> CompiledFrom(g, routes[i], snapshot.routes[i]))
    && (ignored == [] <==> forall i :: 0 <= i < |routes| ==> PoliciesFound(g, routes[i]) && DigestsDecode(KeysUsed(g, routes[i])))
    && (forall x :: x in ignored ==> x.route < |routes|)
    && (forall x :: x in ignored && PoliciesFound(g, routes[x.route]) ==> Undecodable(KeysUsed(g, routes[x.route]), x.slip))
  }

  function Tag(slips: seq<Slip>, route: nat): (r: seq<Ignored>)
    ensures |r| == |slips| && forall i :: 0 <= i < |r| ==> r[i] == Ignored(route, slips[i])
  {
    seq(|slips|, i requires 0 <= i < |slips| => Ignored(route, slips[i]))
  }

  lemma BuiltNext(g: Gateway, routes: seq<Route>, k: nat, snapshot: Snapshot, ignored: seq<Ignored>,
                  compiled: CompiledRoute, slips: seq<Slip>)
    requires k < |routes| && Built(g, routes[..k], snapshot, ignored) && CompiledFrom(g, routes[k], compiled)
    requires slips == [] <==> PoliciesFound(g, routes[k]) && DigestsDecode(KeysUsed(g, routes[k]))
    requires PoliciesFound(g, routes[k]) ==> forall s :: s in slips ==> Undecodable(KeysUsed(g, routes[k]), s)
    ensures Built(g, routes[..k + 1],
                  Snapshot(snapshot.routes + [compiled], snapshot.patterns + Patterns(Entries(routes[k].shape))),
                  ignored + Tag(slips, k))
  {
    hide PoliciesFound, DigestsDecode, KeysUsed, CompiledFrom, Undecodable, Patterns, AllPatterns, Entries;
    AllPatternsNext(routes, k);
    var more := routes[..k + 1];
    assert forall i :: 0 <= i < k ==> more[i] == routes[..k][i];
    var all := ignored + Tag(slips, k);
    forall x | x in all
      ensures x.route < |more| && (PoliciesFound(g, more[x.route]) ==> Undecodable(KeysUsed(g, more[x.route]), x.slip))
    {
      if x !in ignored {
        assert x in Tag(slips, k);
        var i :| 0 <= i < |slips| && Tag(slips, k)[i] == x;
        assert slips[i] in slips;
      }
    }
  }

  /** compile after its validation: parse the proxies, compile the routes, register the patterns;
      `None` is an error or a recovered panic. */
  method Build(g: Gateway, mux: Mux) returns (snapshot: Option<Snapshot>, ignored: seq<Ignored>)
    ensures snapshot.Some? <==>
              && (forall i :: 0 <= i < |g.trustedProxies| ==> !g.trustedProxies[i].Unreadable?)
              && (forall i :: 0 <= i < |g.routes| ==> UrlsParse(g.routes[i]))
              && Registers(mux, [], AllPatterns(g.routes))
    ensures snapshot.Some? ==> Built(g, g.routes, snapshot.value, ignored)
  {
    hide UrlsParse, PoliciesFound, DigestsDecode, KeysUsed, CompiledFrom, Undecodable, Patterns, Entries, Registers;
    ignored := [];
    var trusted := ParseTrustedProxies(g.trustedProxies);
    if !trusted {
      return None, ignored;
    }
    var built := Snapshot([], []);
    NothingBuilt(g, mux);
    var k := 0;
    while k < |g.routes|
      invariant 0 <= k <= |g.routes|
      invariant Built(g, g.routes[..k], built, ignored)
      invariant forall i :: 0 <= i < k ==> UrlsParse(g.routes[i])
      invariant Registers(mux, [], AllPatterns(g.routes[..k]))
    {
      var route := g.routes[k];
      var compiled, slips := CompileRoute(g, route);
      if compiled.None? {
        return None, ignored;
      }
      var patterns := RoutePatternList(route.shape);
      var registered := Register(mux, built.patterns, patterns);
      AllPatternsNext(g.routes, k);
      RegistersAppend(mux, [], AllPatterns(g.routes[..k]), patterns);
      assert [] + AllPatterns(g.routes[..k]) == AllPatterns(g.routes[..k]);
      if registered.None? {
        RegistersPrefix(mux, g.routes, k + 1);
        return None, ignored;
      }
      BuiltNext(g, g.routes, k, built, ignored, compiled.value, slips);
      built := Snapshot(built.routes + [compiled.value], registered.value);
      ignored := ignored + Tag(slips, k);
      k := k + 1;
    }
    assert g.routes[..k] == g.routes;
    snapshot := Some(built);
  }

  lemma NothingBuilt(g: Gateway, mux: Mux)
    ensures Built(g, g.routes[..0], Snapshot([], []), []) && Registers(mux, [], AllPatterns(g.routes[..0]))
  {
    assert g.routes[..0] == [] && Shapes([]) == [];
  }

  lemma {:induction false} RegistersPrefix(mux: Mux, routes: seq<Route>, k: nat)
    requires k <= |routes| && !Registers(mux, [], AllPatterns(routes[..k]))
    ensures !Registers(mux, [], AllPatterns(routes))
    decreases |routes| - k
  {
    hide Registers, AllPatterns;
    if k == |routes| {
      assert routes[..k] == routes;
    } else {
      AllPatternsNext(routes, k);
      RegistersAppend(mux, [], AllPatterns(routes[..k]), Patterns(Entries(routes[k].shape)));
      RegistersPrefix(mux, routes, k + 1);
    }
  }

  // ---------------------------------------------------------------------------
  // What validation discharges

  /** The route's policy has type `kind`. */
  predicate UnderKind(g: Gateway, route: Route, kind: string) {
    route.authPolicy != "" && route.authPolicy in g.authPolicies && g.authPolicies[route.authPolicy].kind == kind
  }

  lemma AcceptedRoute(g: Gateway, development: bool, allowNoRoutes: bool, route: Route)
    requires Accepted(g, development, allowNoRoutes) && route in g.routes
    ensures route.upstreams != [] && UrlsParse(route) && PoliciesFound(g, route)
    ensures route.cachePolicy != "" && route.authPolicy != "" ==> g.cachePolicies[route.cachePolicy].perPrincipal
    ensures UnderKind(g, route, "api_key") ==> DigestsDecode(KeysUsed(g, route))
    ensures route.authPolicy != "" ==>
              UnderKind(g, route, "none") || UnderKind(g, route, "api_key") || UnderKind(g, route, "jwt")
  {
    hide HashBytes, ParseHTTPURL, NoDup, Keys, AllEntries;
    var i :| 0 <= i < |g.routes| && g.routes[i] == route;
    assert RouteOk(g, g.routes[i]);
    if route.authPolicy != "" {
      assert AuthOk(g.authPolicies[route.authPolicy]);
      if UnderKind(g, route, "api_key") {
        assert forall k :: 0 <= k < |KeysUsed(g, route)| ==> KeyOk(KeysUsed(g, route)[k]);
      }
    }
  }

  /** What every snapshot has when its configuration was accepted: every pool is nonempty, every
      policy was found, cached authenticated routes separate principals, and the only errors
      ignored are digests under policies that do not use them. */
  ghost predicate Discharged(g: Gateway, snapshot: Snapshot, ignored: seq<Ignored>) {
    && |snapshot.routes| == |g.routes|
    && (forall i :: 0 <= i < |g.routes| ==>
          var compiled := snapshot.routes[i];
          && CompiledFrom(g, g.routes[i], compiled) && compiled.endpoints != [] && PoliciesFound(g, g.routes[i])
          && (compiled.auth.Some? && compiled.cache.Some? ==> compiled.cache.value.perPrincipal))
    && (forall x :: x in ignored ==>
          && x.route < |g.routes| && x.slip.BadDigest?
          && (UnderKind(g, g.routes[x.route], "none") || UnderKind(g, g.routes[x.route], "jwt")))
  }

  lemma ValidationDischarges(g: Gateway, development: bool, allowNoRoutes: bool, snapshot: Snapshot, ignored: seq<Ignored>)
    requires Accepted(g, development, allowNoRoutes) && Built(g, g.routes, snapshot, ignored)
    ensures Discharged(g, snapshot, ignored)
  {
    hide Accepted, HashBytes, ParseHTTPURL, Grants, AllPatterns;
    forall i | 0 <= i < |g.routes|
      ensures var compiled := snapshot.routes[i];
              && compiled.endpoints != [] && PoliciesFound(g, g.routes[i])
              && (compiled.auth.Some? && compiled.cache.Some? ==> compiled.cache.value.perPrincipal)
    {
      AcceptedRoute(g, development, allowNoRoutes, g.routes[i]);
      assert CompiledFrom(g, g.routes[i], snapshot.routes[i]);
    }
    forall x | x in ignored
      ensures x.route < |g.routes| && x.slip.BadDigest?
      ensures UnderKind(g, g.routes[x.route], "none") || UnderKind(g, g.routes[x.route], "jwt")
    {
      AcceptedRoute(g, development, allowNoRoutes, g.routes[x.route]);
      assert Undecodable(KeysUsed(g, g.routes[x.route]), x.slip);
    }
  }

  /** manager.compile. It succeeds exactly for the accepted configurations whose patterns the
      multiplexer takes. */
  method Compile(g: Gateway, development: bool, allowNoRoutes: bool, mux: Mux)
    returns (snapshot: Option<Snapshot>, ignored: seq<Ignored>)
    ensures snapshot.Some? <==> Accepted(g, development, allowNoRoutes) && Registers(mux, [], AllPatterns(g.routes))
    ensures snapshot.Some? ==> Built(g, g.routes, snapshot.value, ignored) && Discharged(g, snapshot.value, ignored)
  {
    hide Built, Discharged, Registers, AllPatterns, UrlsParse;
    var fault := Validate(g, development, allowNoRoutes);
    if fault.Some? {
      return None, [];
    }
    forall i | 0 <= i < |g.routes| ensures UrlsParse(g.routes[i]) {
      AcceptedRoute(g, development, allowNoRoutes, g.routes[i]);
    }
    snapshot, ignored := Build(g, mux);
    if snapshot.Some? {
      ValidationDischarges(g, development, allowNoRoutes, snapshot.value, ignored);
    }
  }

  /** What becomes of an activation request whose version is stored. */
  datatype Outcome = InvalidStored | NotCommitted | RejectedAfterCommit | Active(snapshot: Snapshot)

  /** The activation handler: validateGatewayConfig (which validates without allowing an empty
      route list, and compiles), the transaction, whose result is `committed`, and Activate. The
      handler would answer with an error after the commit if the last compilation failed; it
      never does. */
  method ActivateConfig(g: Gateway, development: bool, allowNoRoutes: bool, mux: Mux, committed: bool)
    returns (outcome: Outcome)
    ensures !outcome.RejectedAfterCommit?
    ensures outcome.InvalidStored? <==> !(Accepted(g, development, false) && Registers(mux, [], AllPatterns(g.routes)))
    ensures outcome.Active? ==> committed && exists ignored :: Discharged(g, outcome.snapshot, ignored)
    ensures outcome.NotCommitted? ==> !committed
  {
    hide Discharged, Built, Registers, AllPatterns, RoutesOk, PoliciesOk;
    var fault := Validate(g, development, false);
    if fault.Some? {
      return InvalidStored;
    }
    var trial, unused := Compile(g, development, allowNoRoutes, mux);
    if trial.None? {
      return InvalidStored;
    }
    if !committed {
      return NotCommitted;
    }
    var snapshot, ignored := Compile(g, development, allowNoRoutes, mux);
    outcome := if snapshot.Some? then Active(snapshot.value) else RejectedAfterCommit;
  }

  /** A multiplexer that refuses only patterns it already has takes every accepted configuration
      with proper names: repeated patterns never are the reason for a rejection. */
  lemma AcceptedRegisters(g: Gateway, development: bool, allowNoRoutes: bool, mux: Mux)
    requires Accepted(g, development, allowNoRoutes)
    requires forall i :: 0 <= i < |g.routes| ==> GoodShape(g.routes[i].shape)
    requires forall before: seq<string>, p: string :: p !in before ==> mux(before, p)
    ensures Registers(mux, [], AllPatterns(g.routes))
  {
    AcceptedPatternsDistinct(g, development, allowNoRoutes);
    var ps := AllPatterns(g.routes);
    forall k | 0 <= k < |ps| ensures mux([] + ps[..k], ps[k]) {
      assert [] + ps[..k] == ps[..k];
      assert ps[k] !in ps[..k];
    }
  }

  // ---------------------------------------------------------------------------
  // Digests and principals

  /** Validation makes sure that the digests of every policy of this type decode. */
  ghost predicate DigestsChecked(kind: string) {
    forall g: Gateway, development: bool, allowNoRoutes: bool, route: Route ::
      Accepted(g, development, allowNoRoutes) && route in g.routes && UnderKind(g, route, kind) ==>
      DigestsDecode(KeysUsed(g, route))
  }

  /** A configuration whose policy, of type none or jwt, lists a key with a malformed digest. */
  lemma MalformedDigestIsAccepted(kind: string) returns (g: Gateway, route: Route)
    requires kind == "none" || kind == "jwt"
    ensures Accepted(g, false, false) && route in g.routes && UnderKind(g, route, kind)
    ensures !DigestsDecode(KeysUsed(g, route))
  {
    var policy := AuthPolicy(kind, [ApiKey("k", "zz")], "i", Url("https", "h", "", false, false, false), ["a"]);
    route := Route("r", Shape([], [], "/"), "", [Url("http", "u", "", false, false, false)], 0, 0, 0, 0, "p", "", "", false, false, 0);
    g := Gateway(1, 1, [route], map["p" := policy], map[], map[], [], [], 0, true);
    DigestShape("zz");
    assert KeysUsed(g, route)[0].sha256 == "zz";
    assert AuthOk(policy);
    OneRouteAccepted(g, route);
  }

  lemma OneRouteAccepted(g: Gateway, route: Route)
    requires g.routes == [route] && route.name != "" && RouteOk(g, route) && route.shape == Shape([], [], "/")
    ensures RoutesOk(g, g.routes)
  {
    hide RouteOk, RoutesOk, Entries, AllEntries, Keys, NoDup;
    NoRoutes(g);
    RoutesNext(g, [], route);
    assert [] + [route] == g.routes;
    var e := Entry(None, None, TrimSuffix("/", "/"));
    OneEntry(route.shape, e);
    OneKey(e);
    assert [] + [e] == [e];
  }

  lemma NoRoutes(g: Gateway)
    ensures RoutesOk(g, []) && AllEntries(Shapes([])) == []
  {
    assert Shapes([]) == [];
  }

  lemma OneKey(e: Entry)
    ensures NoDup(Keys([e]))
  {
  }

  /** Validation checks the digests of a policy exactly when its type is neither none nor jwt. */
  lemma DigestsCheckedExactly(kind: string)
    ensures DigestsChecked(kind) <==> kind != "none" && kind != "jwt"
  {
    hide Accepted, DigestsDecode, KeysUsed;
    if kind == "none" || kind == "jwt" {
      var g, route := MalformedDigestIsAccepted(kind);
    } else {
      forall g: Gateway, development: bool, allowNoRoutes: bool, route: Route
        | Accepted(g, development, allowNoRoutes) && route in g.routes && UnderKind(g, route, kind)
        ensures DigestsDecode(KeysUsed(g, route))
      {
        AcceptedRoute(g, development, allowNoRoutes, route);
      }
    }
  }

  /** Who a request is taken for: a key of the configuration, a key kept in Redis, or the subject
      of a token. */
  datatype Grant = Refused | Anonymous | ByKey(name: string) | ByManagedKey(name: string) | ByToken(subject: string)

  /** What a request presents: the digest of its API key, the name Redis has for that key unless it
      is revoked, and the subject of its token if that verifies. */
  datatype Credentials = Credentials(digest: Option<seq<nat>>, managed: Option<string>, subject: Option<string>)

  /** authenticate. */
  method Authenticate(auth: Option<CompiledAuth>, presented: Credentials) returns (grant: Grant)
    ensures grant.Anonymous? <==> auth.None? || auth.value.policy.kind == "none"
    ensures grant.ByKey? <==>
              && auth.Some? && auth.value.policy.kind == "api_key"
              && presented.digest.Some? && presented.digest.value in auth.value.principals
    ensures grant.ByKey? ==> grant.name == auth.value.principals[presented.digest.value]
    ensures grant.ByManagedKey? <==>
              && auth.Some? && auth.value.policy.kind == "api_key" && presented.managed.Some?
              && presented.digest.Some? && presented.digest.value !in auth.value.principals
    ensures grant.ByManagedKey? ==> presented.managed == Some(grant.name)
    ensures grant.ByToken? <==>
              auth.Some? && auth.value.policy.kind != "none" && auth.value.policy.kind != "api_key" && presented.subject.Some?
    ensures grant.ByToken? ==> presented.subject == Some(grant.subject)
  {
    if auth.None? || auth.value.policy.kind == "none" {
      return Anonymous;
    }
    if auth.value.policy.kind == "api_key" {
      if presented.digest.None? {
        return Refused;
      }
      var left := auth.value.principals.Keys;
      while left != {}
        invariant left <= auth.value.principals.Keys
        invariant presented.digest.value in auth.value.principals ==> presented.digest.value in left
        decreases left
      {
        var expected :| expected in left;
        if presented.digest.value == expected {
          return ByKey(auth.value.principals[expected]);
        }
        left := left - {expected};
      }
      return if presented.managed.Some? then ByManagedKey(presented.managed.value) else Refused;
    }
    grant := if presented.subject.Some? then ByToken(presented.subject.value) else Refused;
  }

  /** No principal is granted by a digest that did not decode, though some are accepted: on every
      route of every accepted configuration, whoever is let in as a configured key presented a
      key whose digest is the one configured for that name, and the last configured one. */
  lemma KeyGrantsAreDecoded(g: Gateway, development: bool, allowNoRoutes: bool, route: Route, compiled: CompiledRoute, digest: seq<nat>)
    requires Accepted(g, development, allowNoRoutes) && route in g.routes && CompiledFrom(g, route, compiled)
    requires compiled.auth.Some? && compiled.auth.value.policy.kind == "api_key" && digest in compiled.auth.value.principals
    ensures exists i :: LastWith(KeysUsed(g, route), i) && HashBytes(KeysUsed(g, route)[i].sha256) == Some(digest)
                        && KeysUsed(g, route)[i].name == compiled.auth.value.principals[digest]
  {
    hide HashBytes, Accepted;
    AcceptedRoute(g, development, allowNoRoutes, route);
    var keys := KeysUsed(g, route);
    var i :| LastWith(keys, i) && DigestOf(keys[i]) == digest && compiled.auth.value.principals[digest] == keys[i].name;
    assert HashBytes(keys[i].sha256).Some?;
  }
}
