/** Route lists that conflict detection gets wrong, and exactly what has to be demanded of routes so
    that it misses nothing. */
module ConflictHazards {
  import opened Basics
  import opened Text
  import opened RoutePatterns

  /** Two routes with different keys and a pattern in common. */
  ghost predicate Escapes(a: Shape, b: Shape) {
    NoDup(Keys(AllEntries([a, b]))) && !NoDup(Patterns(AllEntries([a, b])))
  }

  /** The case of two routes with one entry each that share a pattern. */
  lemma EntriesEscape(a: Shape, b: Shape, x: Entry, y: Entry, i: nat, j: nat)
    requires Entries(a) == [x] && Entries(b) == [y] && KeyOf(x) != KeyOf(y)
    requires i < |PatternsOf(x)| && j < |PatternsOf(y)| && PatternsOf(x)[i] == PatternsOf(y)[j]
    ensures Escapes(a, b)
  {
    hide Entries, AllEntries, Patterns, Keys, PatternsOf, KeyOf;
    TwoRoutes(a, b, x, y);
    Repeated(PatternsOf(x), PatternsOf(y), i, j);
  }

  /** A host listed as the empty string has its own key but the pattern of a route without hosts. */
  lemma EmptyHostEscapes(prefix: string)
    ensures Escapes(Shape([], [""], prefix), Shape([], [], prefix))
  {
    var a, b, base := Shape([], [""], prefix), Shape([], [], prefix), TrimSuffix(prefix, "/");
    var x, y := Entry(None, Some(""), base), Entry(None, None, base);
    assert ToLower("") == "";
    OneEntry(a, x);
    OneEntry(b, y);
    assert |KeyOf(x)| != |KeyOf(y)|;
    assert Authority(x) == Authority(y);
    hide Entries, KeyOf, TrimSuffix;
    EntriesEscape(a, b, x, y, 0, 0);
  }

  /** So has a method listed as the empty string. */
  lemma EmptyMethodEscapes(prefix: string)
    ensures Escapes(Shape([""], [], prefix), Shape([], [], prefix))
  {
    var a, b, base := Shape([""], [], prefix), Shape([], [], prefix), TrimSuffix(prefix, "/");
    var x, y := Entry(Some(""), None, base), Entry(None, None, base);
    assert ToUpper("") == "";
    OneEntry(a, x);
    OneEntry(b, y);
    assert |KeyOf(x)| != |KeyOf(y)|;
    assert Authority(x) == Authority(y);
    hide Entries, KeyOf, TrimSuffix;
    EntriesEscape(a, b, x, y, 0, 0);
  }

  /** So has a prefix that ends in two slashes, beside the same prefix with one. */
  lemma DoubleSlashEscapes(base: string)
    requires GoodBase(base)
    ensures Escapes(Shape([], [], base + "//"), Shape([], [], base + "/"))
  {
    assert base != "/";
    var a, b := Shape([], [], base + "//"), Shape([], [], base + "/");
    var x, y := Entry(None, None, base + "/"), Entry(None, None, base);
    assert TrimSuffix(base + "//", "/") == base + "/";
    assert TrimSuffix(base + "/", "/") == base;
    OneEntry(a, x);
    OneEntry(b, y);
    DoubleSlashPatterns(base, x, y);
    hide TrimSuffix, GoodBase, Entries, PatternsOf, KeyOf;
    EntriesEscape(a, b, x, y, 0, if base == "" then 0 else 1);
  }

  lemma DoubleSlashPatterns(base: string, x: Entry, y: Entry)
    requires x == Entry(None, None, base + "/") && y == Entry(None, None, base) && base != "/"
    ensures KeyOf(x) != KeyOf(y)
    ensures |PatternsOf(x)| > 0 && |PatternsOf(y)| > (if base == "" then 0 else 1)
    ensures PatternsOf(x)[0] == PatternsOf(y)[if base == "" then 0 else 1]
  {
    assert |KeyOf(x)| != |KeyOf(y)|;
    assert Authority(x) == Authority(y) == "";
    if base != "" {
      assert base + "/" != "/";
      assert "" + (base + "/") == "" + base + "/";
    }
  }

  /** A slash in a host can be taken for the one that ends it: the host a/b with the prefix /c has
      the patterns of the host a with the prefix /b/c. */
  lemma SlashInHostEscapes()
    ensures Escapes(Shape([], ["a/b"], "/c"), Shape([], ["a"], "/b/c"))
  {
    var a, b := Shape([], ["a/b"], "/c"), Shape([], ["a"], "/b/c");
    var x, y := Entry(None, Some("a/b"), "/c"), Entry(None, Some("a"), "/b/c");
    assert ToLower("a/b") == "a/b" && ToLower("a") == "a";
    assert TrimSuffix("/c", "/") == "/c" && TrimSuffix("/b/c", "/") == "/b/c";
    OneEntry(a, x);
    OneEntry(b, y);
    hide TrimSuffix, Entries, KeyOf, PatternsOf;
    SlashInHostPatterns(x, y);
    EntriesEscape(a, b, x, y, 0, 0);
  }

  lemma SlashInHostPatterns(x: Entry, y: Entry)
    requires x == Entry(None, Some("a/b"), "/c") && y == Entry(None, Some("a"), "/b/c")
    ensures KeyOf(x) != KeyOf(y) && PatternsOf(x) != [] && PatternsOf(y) != [] && PatternsOf(x)[0] == PatternsOf(y)[0]
  {
    assert KeyOf(x)[3] == '/' && KeyOf(y)[3] == NUL;
    assert Authority(x) == "a/b" && Authority(y) == "a";
    assert "a/b" + "/c" == "a" + "/b/c";
  }

  /** A space in a host can be taken for the one that ends a method: the host "1 a" has the pattern
      of the method 1 and the host a. */
  lemma SpaceInHostEscapes()
    ensures Escapes(Shape([], ["1 a"], "/"), Shape(["1"], ["a"], "/"))
  {
    var a, b := Shape([], ["1 a"], "/"), Shape(["1"], ["a"], "/");
    var x, y := Entry(None, Some("1 a"), ""), Entry(Some("1"), Some("a"), "");
    assert ToLower("1 a") == "1 a" && ToLower("a") == "a" && ToUpper("1") == "1";
    assert TrimSuffix("/", "/") == "";
    OneEntry(a, x);
    OneEntry(b, y);
    hide TrimSuffix, Entries, KeyOf, PatternsOf;
    SpaceInHostPatterns(x, y);
    EntriesEscape(a, b, x, y, 0, 0);
  }

  lemma SpaceInHostPatterns(x: Entry, y: Entry)
    requires x == Entry(None, Some("1 a"), "") && y == Entry(Some("1"), Some("a"), "")
    ensures KeyOf(x) != KeyOf(y) && PatternsOf(x) != [] && PatternsOf(y) != [] && PatternsOf(x)[0] == PatternsOf(y)[0]
  {
    assert KeyOf(x)[0] == '*' && KeyOf(y)[0] == '1';
    assert Authority(x) == "1 a" && Authority(y) == "1 a";
  }

  /** A slash in a method can be taken for the one that begins the path: the method 1/2 with the
      prefix /c has the patterns of the host 1 with the prefix "/2 /c". */
  lemma SlashInMethodEscapes()
    ensures Escapes(Shape(["1/2"], [], "/c"), Shape([], ["1"], "/2 /c"))
  {
    var a, b := Shape(["1/2"], [], "/c"), Shape([], ["1"], "/2 /c");
    var x, y := Entry(Some("1/2"), None, "/c"), Entry(None, Some("1"), "/2 /c");
    assert ToUpper("1/2") == "1/2" && ToLower("1") == "1";
    assert TrimSuffix("/c", "/") == "/c" && TrimSuffix("/2 /c", "/") == "/2 /c";
    OneEntry(a, x);
    OneEntry(b, y);
    hide TrimSuffix, Entries, KeyOf, PatternsOf;
    SlashInMethodPatterns(x, y);
    EntriesEscape(a, b, x, y, 0, 0);
  }

  lemma SlashInMethodPatterns(x: Entry, y: Entry)
    requires x == Entry(Some("1/2"), None, "/c") && y == Entry(None, Some("1"), "/2 /c")
    ensures KeyOf(x) != KeyOf(y) && PatternsOf(x) != [] && PatternsOf(y) != [] && PatternsOf(x)[0] == PatternsOf(y)[0]
  {
    assert KeyOf(x)[0] == '1' && KeyOf(y)[0] == '*';
    assert Authority(x) == "1/2 " && Authority(y) == "1";
    assert "1/2 " + "/c" == "1" + "/2 /c";
  }

  /** Conversely a host listed as "*" has the key, but not the pattern, of a route without hosts:
      such routes are refused though they do not conflict. */
  lemma StarIsRefused()
    ensures var a, b := Shape([], ["*"], "/"), Shape([], [], "/");
            !NoDup(Keys(AllEntries([a, b]))) && NoDup(Patterns(AllEntries([a, b])))
  {
    var a, b := Shape([], ["*"], "/"), Shape([], [], "/");
    var x, y := Entry(None, Some("*"), ""), Entry(None, None, "");
    assert TrimSuffix("/", "/") == "";
    assert ToLower("*") == "*";
    hide TrimSuffix, Entries, AllEntries, Keys, Patterns, PatternsOf;
    OneEntry(a, x);
    OneEntry(b, y);
    TwoRoutes(a, b, x, y);
    StarPatterns(x, y);
  }

  lemma StarPatterns(x: Entry, y: Entry)
    requires x == Entry(None, Some("*"), "") && y == Entry(None, None, "")
    ensures NoDup(PatternsOf(x) + PatternsOf(y)) && KeyOf(x) == KeyOf(y)
  {
    assert PatternsOf(x)[0][0] == '*' && PatternsOf(y)[0][0] == '/';
  }

  // ---------------------------------------------------------------------------
  // What has to be demanded

  /** Demands on the routes of a configuration, each made or not. */
  datatype Demands = Demands(
    namedMethods: bool, namedHosts: bool, methodsWithoutSlash: bool, hostsWithoutSlash: bool,
    hostsWithoutSpace: bool, singleSlash: bool)

  const ALL := Demands(true, true, true, true, true, true)

  predicate MethodMeets(d: Demands, verb: string) {
    (d.namedMethods ==> verb != "") && (d.methodsWithoutSlash ==> Free(verb, '/'))
  }

  predicate HostMeets(d: Demands, host: string) {
    (d.namedHosts ==> host != "") && (d.hostsWithoutSlash ==> Free(host, '/')) && (d.hostsWithoutSpace ==> Free(host, ' '))
  }

  /** The route meets the demands made; validation itself demands the leading slash. */
  predicate Meets(d: Demands, shape: Shape) {
    && (forall i :: 0 <= i < |shape.methods| ==> MethodMeets(d, shape.methods[i]))
    && (forall i :: 0 <= i < |shape.hosts| ==> HostMeets(d, shape.hosts[i]))
    && HasPrefix(shape.prefix, "/") && (d.singleSlash ==> !HasSuffix(shape.prefix, "//"))
  }

  ghost predicate AllMeet(d: Demands, shapes: seq<Shape>) {
    forall i :: 0 <= i < |shapes| ==> Meets(d, shapes[i])
  }

  /** On every list of routes that meet the demands, distinct keys mean distinct patterns. */
  ghost predicate Detects(d: Demands) {
    forall shapes: seq<Shape> :: AllMeet(d, shapes) ==>
      (NoDup(Keys(AllEntries(shapes))) ==> NoDup(Patterns(AllEntries(shapes))))
  }

  lemma EscapeRefutes(d: Demands, a: Shape, b: Shape)
    requires Escapes(a, b) && Meets(d, a) && Meets(d, b)
    ensures !Detects(d)
  {
    hide Meets, NoDup, Keys, Patterns, AllEntries;
    assert AllMeet(d, [a, b]);
  }

  lemma AllDetects()
    ensures Detects(ALL)
  {
    forall shapes: seq<Shape> | AllMeet(ALL, shapes)
      ensures NoDup(Keys(AllEntries(shapes))) ==> NoDup(Patterns(AllEntries(shapes)))
    {
      forall i | 0 <= i < |shapes| ensures GoodShape(shapes[i]) {
        assert Meets(ALL, shapes[i]);
        assert forall k :: 0 <= k < |shapes[i].methods| ==> MethodMeets(ALL, shapes[i].methods[k]);
        assert forall k :: 0 <= k < |shapes[i].hosts| ==> HostMeets(ALL, shapes[i].hosts[k]);
      }
      ConflictKeysExact(shapes);
    }
  }

  lemma NamesAreNeeded(d: Demands)
    requires !d.namedMethods || !d.namedHosts
    ensures !Detects(d)
  {
    hide Detects, Escapes;
    if !d.namedMethods {
      EmptyMethodEscapes("/");
      EscapeRefutes(d, Shape([""], [], "/"), Shape([], [], "/"));
    } else {
      EmptyHostEscapes("/");
      EscapeRefutes(d, Shape([], [""], "/"), Shape([], [], "/"));
    }
  }

  lemma SlashFreeMethodsAreNeeded(d: Demands)
    requires !d.methodsWithoutSlash
    ensures !Detects(d)
  {
    hide Detects, Escapes;
    SlashInMethodEscapes();
    EscapeRefutes(d, Shape(["1/2"], [], "/c"), Shape([], ["1"], "/2 /c"));
  }

  lemma SlashFreeHostsAreNeeded(d: Demands)
    requires !d.hostsWithoutSlash
    ensures !Detects(d)
  {
    hide Detects, Escapes;
    SlashInHostEscapes();
    EscapeRefutes(d, Shape([], ["a/b"], "/c"), Shape([], ["a"], "/b/c"));
  }

  lemma SpaceFreeHostsAreNeeded(d: Demands)
    requires !d.hostsWithoutSpace
    ensures !Detects(d)
  {
    hide Detects, Escapes;
    SpaceInHostEscapes();
    EscapeRefutes(d, Shape([], ["1 a"], "/"), Shape(["1"], ["a"], "/"));
  }

  lemma SingleSlashIsNeeded(d: Demands)
    requires !d.singleSlash
    ensures !Detects(d)
  {
    hide Detects, Escapes;
    DoubleSlashEscapes("");
    assert "" + "//" == "//" && "" + "/" == "/";
    EscapeRefutes(d, Shape([], [], "//"), Shape([], [], "/"));
  }

  /** Conflict detection misses nothing exactly when all six demands are made: without any one of
      them some two routes that meet the other five share a pattern unnoticed. */
  lemma DetectsExactly(d: Demands)
    ensures Detects(d) <==> d == ALL
  {
    hide Detects;
    if d == ALL {
      AllDetects();
    } else if !d.namedMethods || !d.namedHosts {
      NamesAreNeeded(d);
    } else if !d.methodsWithoutSlash {
      SlashFreeMethodsAreNeeded(d);
    } else if !d.hostsWithoutSlash {
      SlashFreeHostsAreNeeded(d);
    } else if !d.hostsWithoutSpace {
      SpaceFreeHostsAreNeeded(d);
    } else {
      SingleSlashIsNeeded(d);
    }
  }
}
