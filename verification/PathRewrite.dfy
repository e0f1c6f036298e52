/** How request paths are mapped to the upstream, and how redirects are mapped back. Paths are
    decoded and redirect locations already resolved against the upstream request. */
module PathRewrite {
  import opened Basics
  import opened Text

  /** joinURLPath: one slash between the two. */
  function JoinURLPath(left: string, right: string): string {
    TrimSuffix(if left == "" then "/" else left, "/") + "/" + TrimPrefix(right, "/")
  }

  function RewritePath(path: string, prefix: string, replacement: string): string {
    JoinURLPath(replacement, TrimPrefix(path, TrimSuffix(prefix, "/")))
  }

  /** The path rules of a route, after normalizeRoute has put the prefix for an empty rewrite. */
  datatype Rules = Rules(prefix: string, rewrite: string) {
    /** What configuration validation enforces. */
    predicate Valid() {
      HasPrefix(prefix, "/") && HasPrefix(rewrite, "/")
    }

    /** The prefix without its final slash, as in the route's patterns. */
    function Base(): string {
      TrimSuffix(prefix, "/")
    }
  }

  /** The path of the upstream request, for an upstream whose URL has path `target`. */
  function UpstreamPath(rules: Rules, target: string, path: string): string {
    JoinURLPath(target, RewritePath(path, rules.prefix, rules.rewrite))
  }

  /** The path that is joined to the prefix: the redirect's path less the rewrite. */
  function Stripped(rules: Rules, path: string): string {
    var rewrite := TrimSuffix(rules.rewrite, "/");
    if rewrite != "" && rewrite != "/" && (path == rewrite || HasPrefix(path, rewrite + "/"))
    then TrimPrefix(path, rewrite) else path
  }

  /** The path a same-host redirect to `path` is given. */
  function RedirectPath(rules: Rules, path: string): string {
    JoinURLPath(rules.prefix, Stripped(rules, path))
  }

  /** A resolved Location. */
  datatype Location = Location(scheme: string, host: string, user: string, path: string, query: string, fragment: string)

  /** The upstream's response: its Location, if it has one that parses, and the host of the
      request it answers. */
  class UpstreamResponse {
    var location: Option<Location>
    const requestHost: string

    constructor (location: Option<Location>, requestHost: string)
      ensures this.location == location && this.requestHost == requestHost
    {
      this.location, this.requestHost := location, requestHost;
    }

    /** rewriteRedirectLocation: a redirect that stays on the upstream host becomes relative,
        under the route's prefix, with query and fragment kept; others are left alone. */
    method RewriteRedirectLocation(rules: Rules)
      modifies this`location
      ensures old(location).None? || ToLower(old(location).value.host) != ToLower(requestHost) ==> location == old(location)
      ensures old(location).Some? && ToLower(old(location).value.host) == ToLower(requestHost) ==>
        location == Some(old(location).value.(scheme := "", host := "", user := "",
                                               path := RedirectPath(rules, old(location).value.path)))
    {
      if location.None? || ToLower(location.value.host) != ToLower(requestHost) {
        return;
      }
      var path := location.value.path;
      var rewrite := TrimSuffix(rules.rewrite, "/");
      if rewrite != "" && rewrite != "/" && (path == rewrite || HasPrefix(path, rewrite + "/")) {
        path := TrimPrefix(path, rewrite);
      }
      location := Some(location.value.(scheme := "", host := "", user := "", path := JoinURLPath(rules.prefix, path)));
    }
  }

  // ---------------------------------------------------------------------------

  lemma TrimPrefixSelf(p: string, s: string)
    ensures TrimPrefix(p + s, p) == s
  {
    assert (p + s)[..|p|] == p && (p + s)[|p|..] == s;
  }

  /** What the upstream receives for a path under the route. */
  lemma UpstreamPathShape(rules: Rules, target: string, s: string)
    requires rules.Valid()
    ensures UpstreamPath(rules, target, rules.Base() + "/" + s) ==
            JoinURLPath(target, TrimSuffix(rules.rewrite, "/") + "/" + s)
  {
    var base := rules.Base();
    assert base + "/" + s == base + ("/" + s);
    TrimPrefixSelf(base, "/" + s);
    TrimPrefixSelf("/", s);
  }

  /** A rewrite that starts with a slash either is the bare slash or keeps it. */
  lemma TrimmedRewrite(rewrite: string)
    requires HasPrefix(rewrite, "/")
    ensures var w := TrimSuffix(rewrite, "/");
            && (w == "" <==> rewrite == "/") && (w == "/" <==> rewrite == "//") && (w != "" ==> HasPrefix(w, "/"))
  {
  }

  /** The redirect to what the upstream received: the rewrite is stripped again. */
  lemma RedirectStrips(rules: Rules, s: string)
    requires rules.Valid() && rules.rewrite != "//"
    ensures RedirectPath(rules, TrimSuffix(rules.rewrite, "/") + "/" + s) == rules.Base() + "/" + s
  {
    var w := TrimSuffix(rules.rewrite, "/");
    TrimmedRewrite(rules.rewrite);
    var path := w + "/" + s;
    TrimPrefixSelf("/", s);
    if w == "" {
      assert path == "/" + s;
    } else {
      assert path == w + ("/" + s) && (w + "/") <= path;
      TrimPrefixSelf(w, "/" + s);
    }
  }

  lemma JoinRoot(target: string, w: string, s: string)
    requires TrimSuffix(target, "/") == "" && (w == "" || HasPrefix(w, "/"))
    ensures JoinURLPath(target, w + "/" + s) == w + "/" + s
  {
    var path := w + "/" + s;
    assert path[..1] == "/";
    assert "/" + TrimPrefix(path, "/") == path;
    assert "" + "/" + TrimPrefix(path, "/") == path;
  }

  /** Joining loses at most one slash and adds one. */
  lemma JoinLength(left: string, right: string)
    requires right == "" || HasPrefix(right, "/")
    ensures |JoinURLPath(left, right)| >= |TrimSuffix(left, "/")| + |right|
    ensures |JoinURLPath(left, right)| >= |TrimSuffix(left, "/")| + 1
  {
  }

  /** Stripping the rewrite loses no more than the rewrite. */
  lemma RedirectLoses(rules: Rules, path: string)
    requires rules.Valid() && HasPrefix(path, "/")
    ensures |RedirectPath(rules, path)| + |TrimSuffix(rules.rewrite, "/")| >= |rules.Base()| + |path|
  {
    hide JoinURLPath, TrimSuffix;
    var w := TrimSuffix(rules.rewrite, "/");
    JoinLength(rules.prefix, path);
    var rest := TrimPrefix(path, w);
    if path == w || HasPrefix(path, w + "/") {
      assert path == w + rest;
      assert HasPrefix(path, w + "/") ==> path[|w|] == (w + "/")[|w|];
      JoinLength(rules.prefix, rest);
    }
  }

  /** A redirect keeps the base path of the upstream's URL, and is longer by it. */
  lemma RedirectLength(rules: Rules, target: string, s: string)
    requires rules.Valid() && HasPrefix(target, "/")
    ensures var up := UpstreamPath(rules, target, rules.Base() + "/" + s);
            |RedirectPath(rules, up)| >= |rules.Base()| + 1 + |s| + |TrimSuffix(target, "/")|
  {
    var w, t := TrimSuffix(rules.rewrite, "/"), TrimSuffix(target, "/");
    TrimmedRewrite(rules.rewrite);
    TrimmedRewrite(target);
    hide TrimSuffix, RedirectPath, UpstreamPath;
    UpstreamPathShape(rules, target, s);
    var inner := w + "/" + s;
    assert inner[..1] == "/";
    JoinLength(target, inner);
    assert HasPrefix(JoinURLPath(target, inner), "/");
    RedirectLoses(rules, JoinURLPath(target, inner));
  }

  lemma RoundTripHolds(rules: Rules, target: string, s: string)
    requires rules.Valid() && (target == "" || target == "/") && rules.rewrite != "//"
    ensures RedirectPath(rules, UpstreamPath(rules, target, rules.Base() + "/" + s)) == rules.Base() + "/" + s
  {
    UpstreamPathShape(rules, target, s);
    TrimmedRewrite(rules.rewrite);
    JoinRoot(target, TrimSuffix(rules.rewrite, "/"), s);
    RedirectStrips(rules, s);
  }

  /** The redirect path for a path that starts with a slash and is not stripped. */
  lemma JoinUnder(prefix: string, s: string)
    requires HasPrefix(prefix, "/")
    ensures JoinURLPath(prefix, "/" + s) == TrimSuffix(prefix, "/") + "/" + s
  {
    hide TrimSuffix;
    TrimPrefixSelf("/", s);
  }

  lemma DoubleSlashIsNotStripped(rules: Rules, target: string, s: string)
    requires rules.Valid() && (target == "" || target == "/") && rules.rewrite == "//"
    ensures |RedirectPath(rules, UpstreamPath(rules, target, rules.Base() + "/" + s))| == |rules.Base()| + 2 + |s|
  {
    assert TrimSuffix("//", "/") == "/" && TrimSuffix(target, "/") == "";
    hide JoinURLPath, UpstreamPath, TrimSuffix;
    UpstreamPathShape(rules, target, s);
    JoinRoot(target, "/", s);
    assert "/" + "/" + s == "/" + ("/" + s);
    JoinUnder(rules.prefix, "/" + s);
  }

  /** The round trip: mapping a path under the route to the upstream and then rewriting a
      same-host redirect to that upstream path gives the original path exactly when the
      upstream URL has no base path and the rewrite is not a double slash. */
  lemma RoundTripExactly(rules: Rules, target: string, s: string)
    requires rules.Valid() && (target == "" || HasPrefix(target, "/"))
    ensures RedirectPath(rules, UpstreamPath(rules, target, rules.Base() + "/" + s)) == rules.Base() + "/" + s
            <==> (target == "" || target == "/") && rules.rewrite != "//"
  {
    if target != "" && target != "/" {
      TrimmedRewrite(target);
      RedirectLength(rules, target, s);
    } else if rules.rewrite == "//" {
      DoubleSlashIsNotStripped(rules, target, s);
    } else {
      RoundTripHolds(rules, target, s);
    }
  }

  /** A rewritten path begins with the prefix of the route's subtree. For the prefix "/" that is a
      slash and no more; see LooksLikeHostExactly. */
  lemma RedirectStaysUnderRoute(rules: Rules, path: string)
    requires rules.Valid()
    ensures HasPrefix(RedirectPath(rules, path), rules.Base() + "/")
  {
  }

  /** A relative reference that begins with two slashes names a host (section 4.2 of RFC 3986), so
      without scheme and host such a Location is not read as a path. */
  predicate LooksLikeHost(path: string) {
    HasPrefix(path, "//")
  }

  lemma TwoSlashes(s: string)
    ensures LooksLikeHost(s) <==> |s| >= 2 && s[0] == '/' && s[1] == '/'
  {
    if |s| >= 2 && s[0] == '/' && s[1] == '/' {
      assert s[..2] == "//";
    }
  }

  lemma JoinLooksLikeHost(base: string, rest: string)
    ensures LooksLikeHost(base + "/" + rest) <==>
            if base == "" then HasPrefix(rest, "/") else base == "/" || LooksLikeHost(base)
  {
    var s := base + "/" + rest;
    TwoSlashes(s);
    TwoSlashes(base);
    assert s[|base|] == '/';
    if base == "" {
      assert HasPrefix(rest, "/") <==> |rest| >= 1 && rest[0] == '/';
      assert |rest| >= 1 ==> s[1] == rest[0];
    } else {
      assert s[0] == base[0];
      assert |base| >= 2 ==> s[1] == base[1];
      assert |base| == 1 ==> base == [base[0]] && s[1] == '/';
    }
  }

  /** Exactly when the rewritten Location of a same-host redirect no longer is one: the route's
      prefix is "/" and the path to join begins with two slashes, or the prefix itself begins
      with two. */
  lemma LooksLikeHostExactly(rules: Rules, path: string)
    requires rules.Valid()
    ensures LooksLikeHost(RedirectPath(rules, path)) <==>
            if rules.Base() == "" then LooksLikeHost(Stripped(rules, path))
            else rules.Base() == "/" || LooksLikeHost(rules.Base())
  {
    var joined := Stripped(rules, path);
    var rest := TrimPrefix(joined, "/");
    assert RedirectPath(rules, path) == rules.Base() + "/" + rest;
    JoinLooksLikeHost(rules.Base(), rest);
    TwoSlashes(joined);
    hide TrimSuffix, RedirectPath, Stripped;
    assert HasPrefix(joined, "/") <==> |joined| >= 1 && joined[0] == '/';
    assert HasPrefix(rest, "/") <==> |rest| >= 1 && rest[0] == '/';
  }

  /** Such a redirect: on the route for "/" an upstream path with two slashes is passed on. */
  lemma DoubleSlashRedirectPassesOn()
    ensures RedirectPath(Rules("/", "/"), "//h/x") == "//h/x"
    ensures LooksLikeHost(RedirectPath(Rules("/", "/"), "//h/x"))
  {
    var path := "//h/x";
    assert TrimSuffix("/", "/") == "";
    assert TrimPrefix(path, "/") == "/h/x";
    assert RedirectPath(Rules("/", "/"), path) == "" + "/" + "/h/x" == path;
    TwoSlashes(path);
  }

  /** A request for the bare prefix reaches the upstream with a final slash, and its redirect
      comes back with one: the two paths of a route are not told apart. */
  lemma BarePrefixGainsSlash(rules: Rules, target: string)
    requires rules.Valid()
    ensures UpstreamPath(rules, target, rules.Base()) == UpstreamPath(rules, target, rules.Base() + "/")
  {
    var base := rules.Base();
    assert base + "" == base;
    TrimPrefixSelf(base, "");
    TrimPrefixSelf(base, "/");
  }

  /** The rewrite is stripped as a whole segment only: a path that merely begins with the same letters
      keeps them, while the rewrite itself, with or without a slash, becomes the route's root. */
  lemma StripsWholeSegments(rules: Rules, s: string)
    requires rules.Valid() && rules.rewrite != "/" && rules.rewrite != "//"
    ensures var w := TrimSuffix(rules.rewrite, "/");
            && RedirectPath(rules, w) == rules.Base() + "/" && RedirectPath(rules, w + "/") == rules.Base() + "/"
            && (s != "" && s[0] != '/' ==> RedirectPath(rules, w + s) == rules.Base() + w + s)
  {
    var w := TrimSuffix(rules.rewrite, "/");
    TrimmedRewrite(rules.rewrite);
    RedirectStrips(rules, "");
    assert w + "/" + "" == w + "/" && rules.Base() + "/" + "" == rules.Base() + "/";
    WholeSegment(rules, w);
    if s != "" && s[0] != '/' {
      OtherSegment(rules, w, s);
    }
  }

  lemma WholeSegment(rules: Rules, w: string)
    requires rules.Valid() && w == TrimSuffix(rules.rewrite, "/") && w != "" && w != "/"
    ensures RedirectPath(rules, w) == rules.Base() + "/"
  {
    assert w + "" == w;
    TrimPrefixSelf(w, "");
    assert rules.Base() + "/" + "" == rules.Base() + "/";
  }

  lemma OtherSegment(rules: Rules, w: string, s: string)
    requires rules.Valid() && w == TrimSuffix(rules.rewrite, "/") && HasPrefix(w, "/") && s != "" && s[0] != '/'
    ensures RedirectPath(rules, w + s) == rules.Base() + w + s
  {
    var path := w + s;
    assert path != w && !HasPrefix(path, w + "/") by {
      assert path[|w|] == s[0] && (w + "/")[|w|] == '/';
    }
    assert Stripped(rules, path) == path;
    var rest := path[1..];
    assert path == "/" + rest;
    hide TrimSuffix, Stripped;
    TrimPrefixSelf("/", rest);
    assert rules.Base() + "/" + rest == rules.Base() + ("/" + rest) == rules.Base() + w + s;
  }
}
