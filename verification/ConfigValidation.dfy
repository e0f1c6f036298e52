/** Validation of a gateway configuration. */
module ConfigValidation {
  import opened Basics
  import opened Text
  import opened RoutePatterns

  /** A URL in the configuration, as url.Parse sees it. */
  datatype RawUrl = Unparsable | Url(scheme: string, host: string, path: string, credentials: bool, query: bool, fragment: bool)

  datatype Endpoint = Endpoint(host: string, path: string)

  function ParseHTTPURL(raw: RawUrl): Option<Endpoint> {
    if raw.Unparsable? || (raw.scheme != "http" && raw.scheme != "https") || raw.host == "" then None
    else if raw.credentials || raw.query || raw.fragment then None
    else Some(Endpoint(raw.host, raw.path))
  }

  function HexDigit(c: char): Option<nat> {
    if '0' <= c <= '9' then Some((c - '0') as nat)
    else if 'a' <= c <= 'f' then Some((c - 'a') as nat + 10)
    else if 'A' <= c <= 'F' then Some((c - 'A') as nat + 10)
    else None
  }

  function HexBytes(s: string): Option<seq<nat>> {
    if s == [] then Some([])
    else if |s| == 1 || HexDigit(s[0]).None? || HexDigit(s[1]).None? || HexBytes(s[2..]).None? then None
    else Some([16 * HexDigit(s[0]).value + HexDigit(s[1]).value] + HexBytes(s[2..]).value)
  }

  /** hashBytes: a SHA-256 digest in hexadecimal. */
  function HashBytes(s: string): Option<seq<nat>> {
    if HexBytes(s).Some? && |HexBytes(s).value| == 32 then HexBytes(s) else None
  }

  lemma {:induction false} HexShape(s: string)
    ensures HexBytes(s).Some? <==> |s| % 2 == 0 && forall i :: 0 <= i < |s| ==> HexDigit(s[i]).Some?
    ensures HexBytes(s).Some? ==> 2 * |HexBytes(s).value| == |s|
    decreases |s|
  {
    if |s| >= 2 {
      HexShape(s[2..]);
      assert s == [s[0], s[1]] + s[2..];
    }
  }

  /** A digest is valid exactly when it is 64 hexadecimal digits. */
  lemma DigestShape(s: string)
    ensures HashBytes(s).Some? <==> |s| == 64 && forall i :: 0 <= i < |s| ==> HexDigit(s[i]).Some?
  {
    HexShape(s);
  }

  datatype ApiKey = ApiKey(name: string, sha256: string)
  datatype AuthPolicy = AuthPolicy(kind: string, keys: seq<ApiKey>, issuer: string, jwksUrl: RawUrl, audiences: seq<string>)
  datatype RatePolicy = RatePolicy(requests: int, burst: int, window: int)
  datatype CachePolicy = CachePolicy(ttl: int, maxBodyBytes: int, perPrincipal: bool)

  /** A route; `jsonTransforms` says whether either body transform is nonempty, `operations` is
      the number of transform operations. */
  datatype Route = Route(
    name: string, shape: Shape, pathRewrite: string, upstreams: seq<RawUrl>,
    timeout: int, maxBodyBytes: int, concurrency: int, retries: int,
    authPolicy: string, ratePolicy: string, cachePolicy: string,
    streaming: bool, jsonTransforms: bool, operations: nat)

  datatype TrustedProxy = Address | Network | Unreadable

  /** A configuration; `dynamicDnsOk` is the verdict on its Dynamic DNS settings. */
  datatype Gateway = Gateway(
    schemaVersion: int, version: int, routes: seq<Route>,
    authPolicies: map<string, AuthPolicy>, ratePolicies: map<string, RatePolicy>, cachePolicies: map<string, CachePolicy>,
    trustedProxies: seq<TrustedProxy>, corsOrigins: seq<string>, maxHeaderBytes: int, dynamicDnsOk: bool)

  datatype Fault =
    | BadHeader | BadOrigin | BadProxy | BadDynamicDns | BadAuthPolicy | BadRatePolicy | BadCachePolicy
    | DuplicateName | BadRoute | ProxiesConnect | Conflict(previous: string, name: string)

  // ---------------------------------------------------------------------------
  // What validation accepts

  predicate KeyOk(key: ApiKey) {
    key.name != "" && HashBytes(key.sha256).Some?
  }

  /** authPolicy.validate. */
  predicate AuthOk(policy: AuthPolicy) {
    match policy.kind
    case "none" => true
    case "api_key" => forall i :: 0 <= i < |policy.keys| ==> KeyOk(policy.keys[i])
    case "jwt" => policy.issuer != "" && policy.audiences != [] && ParseHTTPURL(policy.jwksUrl).Some?
    case _ => false
  }

  predicate RateOk(policy: RatePolicy) {
    policy.requests > 0 && policy.burst >= 0 && policy.window > 0
  }

  predicate CacheOk(policy: CachePolicy) {
    policy.ttl > 0 && policy.maxBodyBytes > 0
  }

  /** The checks of one route that look at no other route. */
  predicate RouteOk(g: Gateway, route: Route) {
    && HasPrefix(route.shape.prefix, "/")
    && (route.pathRewrite != "" ==> HasPrefix(route.pathRewrite, "/"))
    && route.upstreams != []
    && (forall i :: 0 <= i < |route.upstreams| ==> ParseHTTPURL(route.upstreams[i]).Some?)
    && route.timeout >= 0 && route.maxBodyBytes >= 0 && route.concurrency >= 0 && route.retries >= 0
    && (route.authPolicy != "" ==> route.authPolicy in g.authPolicies)
    && (route.ratePolicy != "" ==> route.ratePolicy in g.ratePolicies)
    && (route.cachePolicy != "" ==>
          && route.cachePolicy in g.cachePolicies
          && (route.authPolicy != "" ==> g.cachePolicies[route.cachePolicy].perPrincipal)
          && !route.streaming)
    && (route.streaming ==> route.retries == 0 && !route.jsonTransforms)
    && route.operations <= 128
  }

  predicate NoConnect(shape: Shape) {
    forall i :: 0 <= i < |shape.methods| ==> ToUpper(shape.methods[i]) != "CONNECT"
  }

  function Names(routes: seq<Route>): (r: seq<string>)
    ensures |r| == |routes| && forall i :: 0 <= i < |r| ==> r[i] == routes[i].name
  {
    seq(|routes|, i requires 0 <= i < |routes| => routes[i].name)
  }

  function Shapes(routes: seq<Route>): (r: seq<Shape>)
    ensures |r| == |routes| && forall i :: 0 <= i < |r| ==> r[i] == routes[i].shape
  {
    seq(|routes|, i requires 0 <= i < |routes| => routes[i].shape)
  }

  predicate HeaderOk(g: Gateway, allowNoRoutes: bool) {
    g.schemaVersion == 1 && g.version >= 1 && (g.routes != [] || allowNoRoutes) && g.maxHeaderBytes >= 0
  }

  predicate PoliciesOk(g: Gateway) {
    && (forall name :: name in g.authPolicies ==> AuthOk(g.authPolicies[name]))
    && (forall name :: name in g.ratePolicies ==> RateOk(g.ratePolicies[name]))
    && (forall name :: name in g.cachePolicies ==> CacheOk(g.cachePolicies[name]))
  }

  /** Everything about a prefix of the routes: each is fine, names are unique and nonempty, and
      no two entries share a conflict key. */
  ghost predicate RoutesOk(g: Gateway, routes: seq<Route>) {
    && (forall i :: 0 <= i < |routes| ==>
          routes[i].name != "" && RouteOk(g, routes[i]) && NoConnect(routes[i].shape))
    && NoDup(Names(routes))
    && NoDup(Keys(AllEntries(Shapes(routes))))
  }

  ghost predicate Accepted(g: Gateway, development: bool, allowNoRoutes: bool) {
    && HeaderOk(g, allowNoRoutes)
    && (forall i :: 0 <= i < |g.corsOrigins| ==> g.corsOrigins[i] == "*" ==> development)
    && (forall i :: 0 <= i < |g.trustedProxies| ==> !g.trustedProxies[i].Unreadable?)
    && g.dynamicDnsOk && PoliciesOk(g) && RoutesOk(g, g.routes)
  }

  // ---------------------------------------------------------------------------
  // The validation loops

  method CheckPolicies(g: Gateway) returns (fault: Option<Fault>)
    ensures fault.None? <==> PoliciesOk(g)
  {
    var auth := g.authPolicies.Keys;
    while auth != {}
      invariant auth <= g.authPolicies.Keys
      invariant forall n :: n in g.authPolicies && n !in auth ==> AuthOk(g.authPolicies[n])
      decreases auth
    {
      var name :| name in auth;
      if !AuthOk(g.authPolicies[name]) {
        return Some(BadAuthPolicy);
      }
      auth := auth - {name};
    }
    var rate := g.ratePolicies.Keys;
    while rate != {}
      invariant rate <= g.ratePolicies.Keys
      invariant forall n :: n in g.ratePolicies && n !in rate ==> RateOk(g.ratePolicies[n])
      decreases rate
    {
      var name :| name in rate;
      if !RateOk(g.ratePolicies[name]) {
        return Some(BadRatePolicy);
      }
      rate := rate - {name};
    }
    var cache := g.cachePolicies.Keys;
    while cache != {}
      invariant cache <= g.cachePolicies.Keys
      invariant forall n :: n in g.cachePolicies && n !in cache ==> CacheOk(g.cachePolicies[n])
      decreases cache
    {
      var name :| name in cache;
      if !CacheOk(g.cachePolicies[name]) {
        return Some(BadCachePolicy);
      }
      cache := cache - {name};
    }
    fault := None;
  }

  /** The keys claimed so far are those of the entries `es`, with the claiming routes. */
  ghost predicate Claimed(seen: map<string, string>, es: seq<Entry>) {
    && (forall k :: k in seen <==> k in Keys(es))
    && (forall k :: k in seen ==> seen[k] != "")
  }

  lemma ClaimNext(es: seq<Entry>, e: Entry)
    ensures Keys(es + [e]) == Keys(es) + [KeyOf(e)]
    ensures NoDup(Keys(es + [e])) <==> NoDup(Keys(es)) && KeyOf(e) !in Keys(es)
  {
    assert Keys(es + [e]) == Keys(es) + [KeyOf(e)];
    NoDupAppend(Keys(es), [KeyOf(e)]);
    assert (forall x :: x in Keys(es) ==> x !in [KeyOf(e)]) <==> KeyOf(e) !in Keys(es);
  }

  lemma ClaimSome(es: seq<Entry>, more: seq<Entry>)
    requires NoDup(Keys(es + more))
    ensures NoDup(Keys(es))
  {
    assert Keys(es + more) == Keys(es) + Keys(more);
    NoDupAppend(Keys(es), Keys(more));
  }

  /** The hosts loop: claim the keys of one method of a route. */
  method ClaimHosts(name: string, verb: Option<string>, hosts: seq<Option<string>>, base: string,
                    seen: map<string, string>, ghost es: seq<Entry>)
    returns (fault: Option<Fault>, claimed: map<string, string>)
    requires name != "" && Claimed(seen, es) && NoDup(Keys(es))
    ensures fault.None? <==> NoDup(Keys(es + HostEntries(verb, hosts, base)))
    ensures fault.None? ==> Claimed(claimed, es + HostEntries(verb, hosts, base))
    ensures fault.Some? ==> fault.value.Conflict? && fault.value.name == name && fault.value.previous in claimed.Values
  {
    claimed := seen;
    var j := 0;
    assert es + HostEntries(verb, hosts[..0], base) == es;
    while j < |hosts|
      invariant 0 <= j <= |hosts|
      invariant Claimed(claimed, es + HostEntries(verb, hosts[..j], base))
      invariant NoDup(Keys(es + HostEntries(verb, hosts[..j], base)))
    {
      var e := Entry(verb, hosts[j], base);
      ghost var done := es + HostEntries(verb, hosts[..j], base);
      HostEntriesNext(verb, hosts, base, j);
      assert es + HostEntries(verb, hosts[..j + 1], base) == done + [e];
      ClaimNext(done, e);
      var key := KeyOf(e);
      if key in claimed {
        ConflictStays(es, verb, hosts, base, j + 1);
        return Some(Conflict(claimed[key], name)), claimed;
      }
      claimed := claimed[key := name];
      j := j + 1;
    }
    assert hosts[..j] == hosts;
    fault := None;
  }

  lemma {:induction false} ConflictStays(es: seq<Entry>, verb: Option<string>, hosts: seq<Option<string>>, base: string, j: nat)
    requires j <= |hosts| && !NoDup(Keys(es + HostEntries(verb, hosts[..j], base)))
    ensures !NoDup(Keys(es + HostEntries(verb, hosts, base)))
    decreases |hosts| - j
  {
    if j == |hosts| {
      assert hosts[..j] == hosts;
    } else {
      HostEntriesNext(verb, hosts, base, j);
      var done, e := es + HostEntries(verb, hosts[..j], base), Entry(verb, hosts[j], base);
      assert es + HostEntries(verb, hosts[..j + 1], base) == done + [e];
      ClaimNext(done, e);
      ConflictStays(es, verb, hosts, base, j + 1);
    }
  }

  lemma {:induction false} ConflictStaysVerbs(es: seq<Entry>, verbs: seq<Option<string>>, hosts: seq<Option<string>>, base: string, i: nat)
    requires i <= |verbs| && !NoDup(Keys(es + Combine(verbs[..i], hosts, base)))
    ensures !NoDup(Keys(es + Combine(verbs, hosts, base)))
    decreases |verbs| - i
  {
    if i == |verbs| {
      assert verbs[..i] == verbs;
    } else {
      CombineNext(verbs, hosts, base, i);
      var done, more := es + Combine(verbs[..i], hosts, base), HostEntries(verbs[i], hosts, base);
      assert es + Combine(verbs[..i + 1], hosts, base) == done + more;
      if NoDup(Keys(done + more)) {
        ClaimSome(done, more);
      }
      ConflictStaysVerbs(es, verbs, hosts, base, i + 1);
    }
  }

  lemma ConnectInVerbs(shape: Shape)
    ensures NoConnect(shape) <==> forall k :: 0 <= k < |Verbs(shape)| ==> Verbs(shape)[k] != Some("CONNECT")
  {
    if shape.methods != [] {
      assert forall k :: 0 <= k < |shape.methods| ==> Verbs(shape)[k] == Some(ToUpper(shape.methods[k]));
    }
  }

  /** The methods loop: claim the keys of one route. */
  method ClaimRoute(route: Route, seen: map<string, string>, ghost es: seq<Entry>)
    returns (fault: Option<Fault>, claimed: map<string, string>)
    requires route.name != "" && Claimed(seen, es) && NoDup(Keys(es))
    ensures fault.None? <==> NoConnect(route.shape) && NoDup(Keys(es + Entries(route.shape)))
    ensures fault.None? ==> Claimed(claimed, es + Entries(route.shape))
  {
    ConnectInVerbs(route.shape);
    fault, claimed := ClaimVerbs(route.name, Verbs(route.shape), Hosts(route.shape),
                                 TrimSuffix(route.shape.prefix, "/"), seen, es);
  }

  method ClaimVerbs(name: string, verbs: seq<Option<string>>, hosts: seq<Option<string>>, base: string,
                    seen: map<string, string>, ghost es: seq<Entry>)
    returns (fault: Option<Fault>, claimed: map<string, string>)
    requires name != "" && Claimed(seen, es) && NoDup(Keys(es))
    ensures fault.None? <==>
              (forall k :: 0 <= k < |verbs| ==> verbs[k] != Some("CONNECT")) && NoDup(Keys(es + Combine(verbs, hosts, base)))
    ensures fault.None? ==> Claimed(claimed, es + Combine(verbs, hosts, base))
  {
    hide NoDup, Keys, Claimed;
    claimed, fault := seen, None;
    var i := 0;
    assert es + Combine(verbs[..0], hosts, base) == es;
    while i < |verbs|
      invariant 0 <= i <= |verbs|
      invariant Claimed(claimed, es + Combine(verbs[..i], hosts, base))
      invariant NoDup(Keys(es + Combine(verbs[..i], hosts, base)))
      invariant forall k :: 0 <= k < i ==> verbs[k] != Some("CONNECT")
      invariant fault.None?
    {
      if verbs[i] == Some("CONNECT") {
        return Some(ProxiesConnect), claimed;
      }
      ghost var done := es + Combine(verbs[..i], hosts, base);
      fault, claimed := ClaimHosts(name, verbs[i], hosts, base, claimed, done);
      CombineNext(verbs, hosts, base, i);
      assert es + Combine(verbs[..i + 1], hosts, base) == done + HostEntries(verbs[i], hosts, base);
      if fault.Some? {
        ConflictStaysVerbs(es, verbs, hosts, base, i + 1);
        return;
      }
      i := i + 1;
    }
    assert verbs[..i] == verbs;
  }

  lemma RoutesNext(g: Gateway, routes: seq<Route>, route: Route)
    ensures Names(routes + [route]) == Names(routes) + [route.name]
    ensures Shapes(routes + [route]) == Shapes(routes) + [route.shape]
    ensures RoutesOk(g, routes + [route]) <==>
            && RoutesOk(g, routes)
            && route.name != "" && RouteOk(g, route) && NoConnect(route.shape)
            && route.name !in Names(routes)
            && NoDup(Keys(AllEntries(Shapes(routes)) + Entries(route.shape)))
  {
    hide NoDup, Keys, AllEntries, Entries, RouteOk, NoConnect;
    NamesNext(routes, route);
    AllEntriesSnoc(Shapes(routes), route.shape);
    if NoDup(Keys(AllEntries(Shapes(routes)) + Entries(route.shape))) {
      ClaimSome(AllEntries(Shapes(routes)), Entries(route.shape));
    }
    var all := routes + [route];
    assert all[|routes|] == route;
    assert forall i :: 0 <= i < |routes| ==> all[i] == routes[i];
  }

  lemma NamesNext(routes: seq<Route>, route: Route)
    ensures Names(routes + [route]) == Names(routes) + [route.name]
    ensures Shapes(routes + [route]) == Shapes(routes) + [route.shape]
    ensures NoDup(Names(routes + [route])) <==> NoDup(Names(routes)) && route.name !in Names(routes)
  {
    assert Names(routes + [route]) == Names(routes) + [route.name];
    assert Shapes(routes + [route]) == Shapes(routes) + [route.shape];
    NoDupAppend(Names(routes), [route.name]);
    assert (forall x :: x in Names(routes) ==> x !in [route.name]) <==> route.name !in Names(routes);
  }

  lemma {:induction false} RoutesPrefix(g: Gateway, routes: seq<Route>, i: nat)
    requires i <= |routes| && RoutesOk(g, routes)
    ensures RoutesOk(g, routes[..i])
    decreases |routes|
  {
    hide RoutesOk, RouteOk, NoConnect, NoDup, Keys, AllEntries, Entries, Names, Shapes;
    if i < |routes| {
      var init, last := routes[..|routes| - 1], routes[|routes| - 1];
      assert routes == init + [last];
      RoutesNext(g, init, last);
      RoutesPrefix(g, init, i);
      assert init[..i] == routes[..i];
    } else {
      assert routes[..i] == routes;
    }
  }

  /** The routes loop. */
  method CheckRoutes(g: Gateway) returns (fault: Option<Fault>)
    ensures fault.None? <==> RoutesOk(g, g.routes)
  {
    var seenNames: set<string> := {};
    var seenRoutes: map<string, string> := map[];
    var i := 0;
    while i < |g.routes|
      invariant 0 <= i <= |g.routes|
      invariant forall n :: n in seenNames <==> n in Names(g.routes[..i])
      invariant Claimed(seenRoutes, AllEntries(Shapes(g.routes[..i])))
      invariant RoutesOk(g, g.routes[..i])
    {
      var route := g.routes[i];
      ghost var done := g.routes[..i];
      assert g.routes[..i + 1] == done + [route];
      RoutesNext(g, done, route);
      if RoutesOk(g, g.routes) {
        RoutesPrefix(g, g.routes, i + 1);
      }
      if route.name == "" || route.name in seenNames {
        return Some(DuplicateName);
      }
      seenNames := seenNames + {route.name};
      if !RouteOk(g, route) {
        return Some(BadRoute);
      }
      AllEntriesSnoc(Shapes(done), route.shape);
      fault, seenRoutes := ClaimRoute(route, seenRoutes, AllEntries(Shapes(done)));
      if fault.Some? {
        return;
      }
      i := i + 1;
    }
    assert g.routes[..i] == g.routes;
    fault := None;
  }

  /** GatewayConfig.Validate: no fault is reported exactly for the configurations accepted. */
  method Validate(g: Gateway, development: bool, allowNoRoutes: bool) returns (fault: Option<Fault>)
    ensures fault.None? <==> Accepted(g, development, allowNoRoutes)
  {
    if !HeaderOk(g, allowNoRoutes) {
      return Some(BadHeader);
    }
    var i := 0;
    while i < |g.corsOrigins|
      invariant 0 <= i <= |g.corsOrigins|
      invariant forall k :: 0 <= k < i ==> g.corsOrigins[k] == "*" ==> development
    {
      if g.corsOrigins[i] == "*" && !development {
        return Some(BadOrigin);
      }
      i := i + 1;
    }
    i := 0;
    while i < |g.trustedProxies|
      invariant 0 <= i <= |g.trustedProxies|
      invariant forall k :: 0 <= k < i ==> !g.trustedProxies[k].Unreadable?
    {
      if g.trustedProxies[i].Unreadable? {
        return Some(BadProxy);
      }
      i := i + 1;
    }
    if !g.dynamicDnsOk {
      return Some(BadDynamicDns);
    }
    fault := CheckPolicies(g);
    if fault.None? {
      fault := CheckRoutes(g);
    }
  }

  /** On routes with proper names, acceptance means that no pattern is registered twice. */
  lemma AcceptedPatternsDistinct(g: Gateway, development: bool, allowNoRoutes: bool)
    requires Accepted(g, development, allowNoRoutes)
    requires forall i :: 0 <= i < |g.routes| ==> GoodShape(g.routes[i].shape)
    ensures NoDup(Patterns(AllEntries(Shapes(g.routes))))
  {
    ConflictKeysExact(Shapes(g.routes));
  }

  // ---------------------------------------------------------------------------
  // The rules one by one

  /** The demands on a single route, in the order of the source. */
  datatype Rule =
    | PrefixSlash | RewriteSlash | SomeUpstream | UpstreamUrls | NoNegativeLimit | KnownAuth | KnownRate | KnownCache
    | CacheByPrincipal | NoStreamedCache | NoStreamedRetry | NoStreamedTransform | FewOperations

  /** The route breaks the rule. */
  ghost predicate Breaks(g: Gateway, route: Route, rule: Rule) {
    match rule
    case PrefixSlash => route.shape.prefix == "" || route.shape.prefix[0] != '/'
    case RewriteSlash => route.pathRewrite != "" && route.pathRewrite[0] != '/'
    case SomeUpstream => |route.upstreams| == 0
    case UpstreamUrls => exists i :: 0 <= i < |route.upstreams| && BadUrl(route.upstreams[i])
    case NoNegativeLimit => route.timeout < 0 || route.maxBodyBytes < 0 || route.concurrency < 0 || route.retries < 0
    case KnownAuth => route.authPolicy != "" && route.authPolicy !in g.authPolicies
    case KnownRate => route.ratePolicy != "" && route.ratePolicy !in g.ratePolicies
    case KnownCache => route.cachePolicy != "" && route.cachePolicy !in g.cachePolicies
    case CacheByPrincipal =>
      && route.cachePolicy != "" && route.authPolicy != ""
      && route.cachePolicy in g.cachePolicies && !g.cachePolicies[route.cachePolicy].perPrincipal
    case NoStreamedCache => route.cachePolicy != "" && route.streaming
    case NoStreamedRetry => route.streaming && route.retries > 0
    case NoStreamedTransform => route.streaming && route.jsonTransforms
    case FewOperations => route.operations > 128
  }

  /** A URL that is not absolute, not HTTP or HTTPS, or has credentials, a query or a fragment. */
  predicate BadUrl(raw: RawUrl) {
    || raw.Unparsable? || raw.host == "" || raw.scheme !in {"http", "https"}
    || raw.credentials || raw.query || raw.fragment
  }

  /** A policy that validation turns down. */
  ghost predicate BadAuth(policy: AuthPolicy) {
    || policy.kind !in {"none", "api_key", "jwt"}
    || (policy.kind == "api_key" && exists i :: 0 <= i < |policy.keys| && BadKey(policy.keys[i]))
    || (policy.kind == "jwt" && (policy.issuer == "" || |policy.audiences| == 0 || BadUrl(policy.jwksUrl)))
  }

  ghost predicate BadKey(key: ApiKey) {
    || key.name == "" || |key.sha256| != 64
    || exists i :: 0 <= i < |key.sha256| && HexDigit(key.sha256[i]).None?
  }

  lemma UrlExactly(raw: RawUrl)
    ensures ParseHTTPURL(raw).None? <==> BadUrl(raw)
    ensures ParseHTTPURL(raw).Some? ==> ParseHTTPURL(raw).value == Endpoint(raw.host, raw.path)
  {
  }

  lemma UrlsExactly(g: Gateway, route: Route)
    ensures (forall i :: 0 <= i < |route.upstreams| ==> ParseHTTPURL(route.upstreams[i]).Some?) <==> !Breaks(g, route, UpstreamUrls)
  {
    hide ParseHTTPURL, BadUrl;
    forall i | 0 <= i < |route.upstreams| ensures ParseHTTPURL(route.upstreams[i]).None? <==> BadUrl(route.upstreams[i]) {
      UrlExactly(route.upstreams[i]);
    }
  }

  lemma LeadingSlash(s: string)
    ensures HasPrefix(s, "/") <==> s != "" && s[0] == '/'
  {
  }

  lemma RuleHolds(g: Gateway, route: Route, rule: Rule)
    requires RouteOk(g, route)
    ensures !Breaks(g, route, rule)
  {
    hide ParseHTTPURL, BadUrl;
    UrlsExactly(g, route);
  }

  lemma RulesSuffice(g: Gateway, route: Route)
    requires forall rule: Rule :: !Breaks(g, route, rule)
    ensures RouteOk(g, route)
  {
    assert !Breaks(g, route, PrefixSlash) && !Breaks(g, route, RewriteSlash) && !Breaks(g, route, SomeUpstream);
    assert !Breaks(g, route, UpstreamUrls) && !Breaks(g, route, NoNegativeLimit) && !Breaks(g, route, KnownAuth);
    assert !Breaks(g, route, KnownRate) && !Breaks(g, route, KnownCache) && !Breaks(g, route, CacheByPrincipal);
    assert !Breaks(g, route, NoStreamedCache) && !Breaks(g, route, NoStreamedRetry);
    assert !Breaks(g, route, NoStreamedTransform) && !Breaks(g, route, FewOperations);
    UrlsExactly(g, route);
    LeadingSlash(route.shape.prefix);
    LeadingSlash(route.pathRewrite);
    hide ParseHTTPURL, BadUrl, HasPrefix;
  }

  lemma RouteExactly(g: Gateway, route: Route)
    ensures RouteOk(g, route) <==> forall rule: Rule :: !Breaks(g, route, rule)
  {
    hide RouteOk, Breaks;
    if RouteOk(g, route) {
      forall rule: Rule ensures !Breaks(g, route, rule) {
        RuleHolds(g, route, rule);
      }
    }
    if forall rule: Rule :: !Breaks(g, route, rule) {
      RulesSuffice(g, route);
    }
  }

  lemma AuthExactly(policy: AuthPolicy)
    ensures AuthOk(policy) <==> !BadAuth(policy)
  {
    hide HashBytes, HexDigit;
    UrlExactly(policy.jwksUrl);
    forall i | 0 <= i < |policy.keys| ensures KeyOk(policy.keys[i]) <==> !BadKey(policy.keys[i]) {
      DigestShape(policy.keys[i].sha256);
    }
  }

  /** What a configuration must not have, rule by rule: validation accepts exactly those that break
      none. */
  lemma AcceptedExactly(g: Gateway, development: bool, allowNoRoutes: bool)
    ensures Accepted(g, development, allowNoRoutes) <==>
            && g.schemaVersion == 1 && g.version >= 1 && g.maxHeaderBytes >= 0 && (|g.routes| > 0 || allowNoRoutes)
            && ("*" in g.corsOrigins ==> development) && Unreadable !in g.trustedProxies && g.dynamicDnsOk
            && (forall name :: name in g.authPolicies ==> !BadAuth(g.authPolicies[name]))
            && (forall name :: name in g.ratePolicies ==>
                  var p := g.ratePolicies[name]; p.requests >= 1 && p.burst >= 0 && p.window >= 1)
            && (forall name :: name in g.cachePolicies ==> var p := g.cachePolicies[name]; p.ttl >= 1 && p.maxBodyBytes >= 1)
            && (forall i, rule: Rule :: 0 <= i < |g.routes| ==> !Breaks(g, g.routes[i], rule))
            && (forall i :: 0 <= i < |g.routes| ==> g.routes[i].name != "" && NoConnect(g.routes[i].shape))
            && NoDup(Names(g.routes)) && NoDup(Keys(AllEntries(Shapes(g.routes))))
  {
    hide RouteOk, AuthOk, BadAuth, Breaks, NoConnect, NoDup, Keys, AllEntries, Shapes, Names;
    forall name | name in g.authPolicies ensures AuthOk(g.authPolicies[name]) <==> !BadAuth(g.authPolicies[name]) {
      AuthExactly(g.authPolicies[name]);
    }
    forall i | 0 <= i < |g.routes| ensures RouteOk(g, g.routes[i]) <==> forall rule: Rule :: !Breaks(g, g.routes[i], rule) {
      RouteExactly(g, g.routes[i]);
    }
    assert "*" in g.corsOrigins <==> exists i :: 0 <= i < |g.corsOrigins| && g.corsOrigins[i] == "*";
    assert Unreadable in g.trustedProxies <==> exists i :: 0 <= i < |g.trustedProxies| && g.trustedProxies[i].Unreadable?;
  }
}
