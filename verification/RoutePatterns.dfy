/** The patterns a route registers with the request multiplexer, and the keys by which
    validation detects that two routes would register the same one. */
module RoutePatterns {
  import opened Basics
  import opened Text

  /** One method and host of a route, in upper and lower case, with the path prefix less its
      final slash. `None` stands for a route that lists no methods, or no hosts. */
  datatype Entry = Entry(verb: Option<string>, host: Option<string>, base: string)

  /** The methods, hosts and prefix of a route as configured. */
  datatype Shape = Shape(methods: seq<string>, hosts: seq<string>, prefix: string)

  function Verbs(shape: Shape): seq<Option<string>> {
    if shape.methods == [] then [None]
    else seq(|shape.methods|, i requires 0 <= i < |shape.methods| => Some(ToUpper(shape.methods[i])))
  }

  function Hosts(shape: Shape): seq<Option<string>> {
    if shape.hosts == [] then [None]
    else seq(|shape.hosts|, i requires 0 <= i < |shape.hosts| => Some(ToLower(shape.hosts[i])))
  }

  /** The first `n` hosts combined with one method. */
  function HostEntries(verb: Option<string>, hosts: seq<Option<string>>, base: string): (r: seq<Entry>)
    ensures |r| == |hosts|
  {
    if hosts == [] then [] else
    HostEntries(verb, hosts[..|hosts| - 1], base) + [Entry(verb, hosts[|hosts| - 1], base)]
  }

  function Combine(verbs: seq<Option<string>>, hosts: seq<Option<string>>, base: string): seq<Entry> {
    if verbs == [] then [] else
    Combine(verbs[..|verbs| - 1], hosts, base) + HostEntries(verbs[|verbs| - 1], hosts, base)
  }

  function Entries(shape: Shape): seq<Entry> {
    Combine(Verbs(shape), Hosts(shape), TrimSuffix(shape.prefix, "/"))
  }

  function AllEntries(shapes: seq<Shape>): seq<Entry> {
    if shapes == [] then [] else AllEntries(shapes[..|shapes| - 1]) + Entries(shapes[|shapes| - 1])
  }

  /** The conflict key of validation. */
  function KeyOf(e: Entry): string {
    (if e.verb.Some? then e.verb.value else "*") + [NUL]
    + ((if e.host.Some? then e.host.value else "*") + [NUL] + e.base)
  }

  /** The part of a pattern before the path. */
  function Authority(e: Entry): string {
    (if e.verb.Some? && e.verb.value != "" then e.verb.value + " " else "")
    + (if e.host.Some? then e.host.value else "")
  }

  /** The patterns registered for an entry: the subtree, and the bare path unless it is the root.
      The prefix "//" counts as the root here, though its key is not that of "/". */
  function PatternsOf(e: Entry): seq<string> {
    if e.base == "" || e.base == "/" then [Authority(e) + "/"]
    else [Authority(e) + e.base, Authority(e) + e.base + "/"]
  }

  function Keys(es: seq<Entry>): (r: seq<string>)
    ensures |r| == |es|
    ensures forall i :: 0 <= i < |es| ==> r[i] == KeyOf(es[i])
  {
    seq(|es|, i requires 0 <= i < |es| => KeyOf(es[i]))
  }

  function Patterns(es: seq<Entry>): seq<string> {
    if es == [] then [] else Patterns(es[..|es| - 1]) + PatternsOf(es[|es| - 1])
  }

  lemma {:induction false} PatternsAppend(a: seq<Entry>, b: seq<Entry>)
    ensures Patterns(a + b) == Patterns(a) + Patterns(b)
    decreases |b|
  {
    hide PatternsOf;
    if b == [] {
      assert a + b == a;
    } else {
      var init, last := b[..|b| - 1], b[|b| - 1];
      PatternsAppend(a, init);
      assert (a + b)[..|a + b| - 1] == a + init;
      assert (a + b)[|a + b| - 1] == last;
    }
  }

  lemma PatternsSnoc(es: seq<Entry>, e: Entry)
    ensures Patterns(es + [e]) == Patterns(es) + PatternsOf(e)
  {
    assert (es + [e])[..|es|] == es;
  }

  lemma HostEntriesNext(verb: Option<string>, hosts: seq<Option<string>>, base: string, j: nat)
    requires j < |hosts|
    ensures HostEntries(verb, hosts[..j + 1], base) == HostEntries(verb, hosts[..j], base) + [Entry(verb, hosts[j], base)]
  {
    assert hosts[..j + 1][..j] == hosts[..j];
  }

  lemma CombineNext(verbs: seq<Option<string>>, hosts: seq<Option<string>>, base: string, i: nat)
    requires i < |verbs|
    ensures Combine(verbs[..i + 1], hosts, base) == Combine(verbs[..i], hosts, base) + HostEntries(verbs[i], hosts, base)
  {
    assert verbs[..i + 1][..i] == verbs[..i];
  }

  /** The inner loop of routePatterns. */
  method HostPatterns(verb: Option<string>, hosts: seq<Option<string>>, base: string) returns (patterns: seq<string>)
    ensures patterns == Patterns(HostEntries(verb, hosts, base))
  {
    patterns := [];
    var j := 0;
    while j < |hosts|
      invariant 0 <= j <= |hosts|
      invariant patterns == Patterns(HostEntries(verb, hosts[..j], base))
    {
      var e := Entry(verb, hosts[j], base);
      HostEntriesNext(verb, hosts, base, j);
      PatternsSnoc(HostEntries(verb, hosts[..j], base), e);
      if base == "" || base == "/" {
        patterns := patterns + [Authority(e) + "/"];
      } else {
        patterns := patterns + [Authority(e) + base, Authority(e) + base + "/"];
      }
      j := j + 1;
    }
    assert hosts[..j] == hosts;
  }

  /** routePatterns. */
  method RoutePatternList(shape: Shape) returns (patterns: seq<string>)
    ensures patterns == Patterns(Entries(shape))
  {
    var verbs, hosts := Verbs(shape), Hosts(shape);
    var base := TrimSuffix(shape.prefix, "/");
    patterns := [];
    var i := 0;
    while i < |verbs|
      invariant 0 <= i <= |verbs|
      invariant patterns == Patterns(Combine(verbs[..i], hosts, base))
    {
      var more := HostPatterns(verbs[i], hosts, base);
      CombineNext(verbs, hosts, base, i);
      PatternsAppend(Combine(verbs[..i], hosts, base), HostEntries(verbs[i], hosts, base));
      patterns := patterns + more;
      i := i + 1;
    }
    assert verbs[..i] == verbs;
  }

  // ---------------------------------------------------------------------------
  // Reading a key or a pattern back

  /** Any token of section 5.6.2 of RFC 9110 qualifies, and more. */
  predicate GoodVerb(s: string) {
    s != "" && Free(s, '/')
  }

  predicate GoodHost(s: string) {
    s != "" && Free(s, '/') && Free(s, ' ')
  }

  /** A name that cannot be mistaken for other parts of a key. */
  predicate PlainName(s: string) {
    s != "*" && Free(s, NUL)
  }

  /** The path prefix starts with a slash and does not end in two. */
  predicate GoodBase(base: string) {
    base == "" || (HasPrefix(base, "/") && base[|base| - 1] != '/')
  }

  predicate Good(e: Entry) {
    && (e.verb.Some? ==> GoodVerb(e.verb.value))
    && (e.host.Some? ==> GoodHost(e.host.value))
    && GoodBase(e.base)
  }

  predicate Plain(e: Entry) {
    (e.verb.Some? ==> PlainName(e.verb.value)) && (e.host.Some? ==> PlainName(e.host.value))
  }

  lemma KeyInjective(a: Entry, b: Entry)
    requires Plain(a) && Plain(b) && KeyOf(a) == KeyOf(b)
    ensures a == b
  {
    var va, vb := if a.verb.Some? then a.verb.value else "*", if b.verb.Some? then b.verb.value else "*";
    var ha, hb := if a.host.Some? then a.host.value else "*", if b.host.Some? then b.host.value else "*";
    SplitUnique(va, vb, NUL, ha + [NUL] + a.base, hb + [NUL] + b.base);
    SplitUnique(ha, hb, NUL, a.base, b.base);
  }

  /** A pattern has a space exactly when it names a method. */
  lemma SpaceMeansVerb(e: Entry)
    requires Good(e)
    ensures Free(Authority(e), ' ') <==> e.verb.None?
  {
    if e.verb.Some? {
      assert Authority(e)[|e.verb.value|] == ' ';
    }
  }

  lemma AuthorityInjective(a: Entry, b: Entry)
    requires Good(a) && Good(b) && Authority(a) == Authority(b)
    ensures a.verb == b.verb && a.host == b.host
  {
    var ha, hb := if a.host.Some? then a.host.value else "", if b.host.Some? then b.host.value else "";
    SpaceMeansVerb(a);
    SpaceMeansVerb(b);
    if a.verb.Some? {
      assert Authority(a) == a.verb.value + [' '] + ha && Authority(b) == b.verb.value + [' '] + hb;
      SplitLastUnique(a.verb.value, b.verb.value, ' ', ha, hb);
    } else {
      assert Authority(a) == ha && Authority(b) == hb;
    }
  }

  /** The path of pattern `k` of an entry. */
  function PathOf(e: Entry, k: nat): string {
    if e.base == "" then "/" else if k == 0 then e.base else e.base + "/"
  }

  lemma PatternShape(e: Entry, k: nat)
    requires Good(e) && k < |PatternsOf(e)|
    ensures PatternsOf(e)[k] == Authority(e) + PathOf(e, k)
    ensures HasPrefix(PathOf(e, k), "/") && Free(Authority(e), '/')
  {
    if e.base != "" {
      assert Authority(e) + e.base + "/" == Authority(e) + (e.base + "/");
    }
  }

  lemma PathInjective(a: Entry, j: nat, b: Entry, k: nat)
    requires Good(a) && Good(b) && j < |PatternsOf(a)| && k < |PatternsOf(b)| && PathOf(a, j) == PathOf(b, k)
    ensures a.base == b.base && j == k
  {
    var p, q := PathOf(a, j), PathOf(b, k);
    assert p[|p| - 1] == q[|q| - 1];
    if j == 1 {
      assert p == a.base + "/" && p[..|p| - 1] == a.base;
    }
    if k == 1 {
      assert q == b.base + "/" && q[..|q| - 1] == b.base;
    }
  }

  /** A pattern determines its entry and its position. */
  lemma PatternInjective(a: Entry, j: nat, b: Entry, k: nat)
    requires Good(a) && Good(b) && j < |PatternsOf(a)| && k < |PatternsOf(b)| && PatternsOf(a)[j] == PatternsOf(b)[k]
    ensures a == b && j == k
  {
    hide Good, PathOf, Authority, PatternsOf;
    PatternShape(a, j);
    PatternShape(b, k);
    var p, q := PathOf(a, j), PathOf(b, k);
    assert p == ['/'] + p[1..] && q == ['/'] + q[1..];
    assert Authority(a) + p == Authority(a) + ['/'] + p[1..];
    assert Authority(b) + q == Authority(b) + ['/'] + q[1..];
    SplitUnique(Authority(a), Authority(b), '/', p[1..], q[1..]);
    AuthorityInjective(a, b);
    PathInjective(a, j, b, k);
  }

  // ---------------------------------------------------------------------------
  // Duplicates

  predicate NoDup<T(==)>(s: seq<T>) {
    forall i, j :: 0 <= i < j < |s| ==> s[i] != s[j]
  }

  lemma NoDupAppend<T>(a: seq<T>, b: seq<T>)
    ensures NoDup(a + b) <==> NoDup(a) && NoDup(b) && forall x :: x in a ==> x !in b
  {
    if NoDup(a + b) {
      forall i, j | 0 <= i < j < |a| ensures a[i] != a[j] {
        assert a[i] == (a + b)[i] && a[j] == (a + b)[j];
      }
      forall i, j | 0 <= i < j < |b| ensures b[i] != b[j] {
        assert b[i] == (a + b)[|a| + i] && b[j] == (a + b)[|a| + j];
      }
      forall x | x in a ensures x !in b {
        var i :| 0 <= i < |a| && a[i] == x;
        forall j | 0 <= j < |b| ensures b[j] != x {
          assert (a + b)[i] == x && (a + b)[|a| + j] == b[j];
        }
      }
    } else {
      var i, j :| 0 <= i < j < |a + b| && (a + b)[i] == (a + b)[j];
      if j < |a| {
        assert a[i] == a[j];
      } else if i >= |a| {
        assert b[i - |a|] == b[j - |a|];
      } else {
        assert a[i] in a && a[i] == b[j - |a|];
      }
    }
  }

  lemma KeysDistinct(es: seq<Entry>)
    ensures NoDup(Keys(es)) ==> NoDup(es)
    ensures (forall e :: e in es ==> Plain(e)) ==> (NoDup(Keys(es)) <==> NoDup(es))
  {
    forall i, j | 0 <= i < j < |es|
      ensures es[i] == es[j] ==> Keys(es)[i] == Keys(es)[j]
      ensures (forall e :: e in es ==> Plain(e)) && Keys(es)[i] == Keys(es)[j] ==> es[i] == es[j]
    {
      if (forall e :: e in es ==> Plain(e)) && Keys(es)[i] == Keys(es)[j] {
        KeyInjective(es[i], es[j]);
      }
    }
  }

  lemma {:induction false} PatternMember(es: seq<Entry>, p: string)
    ensures p in Patterns(es) <==> exists e :: e in es && p in PatternsOf(e)
    decreases |es|
  {
    if es != [] {
      var init, last := es[..|es| - 1], es[|es| - 1];
      PatternMember(init, p);
      assert es == init + [last];
    }
  }

  /** A new entry brings new patterns. */
  lemma PatternsDisjoint(es: seq<Entry>, last: Entry)
    requires (forall e :: e in es ==> Good(e)) && Good(last)
    ensures (forall p :: p in Patterns(es) ==> p !in PatternsOf(last)) <==> last !in es
  {
    if last in es {
      var p := PatternsOf(last)[0];
      PatternMember(es, p);
      assert p in Patterns(es) && p in PatternsOf(last);
    } else {
      forall p | p in Patterns(es) ensures p !in PatternsOf(last) {
        PatternMember(es, p);
        var e :| e in es && p in PatternsOf(e);
        if p in PatternsOf(last) {
          SharedPattern(e, last, p);
        }
      }
    }
  }

  lemma {:induction false} PatternsDistinct(es: seq<Entry>)
    requires forall e :: e in es ==> Good(e)
    ensures NoDup(Patterns(es)) <==> NoDup(es)
    decreases |es|
  {
    if es != [] {
      var init, last := es[..|es| - 1], es[|es| - 1];
      assert es == init + [last];
      PatternsDistinct(init);
      OwnPatternsDistinct(last);
      PatternsDisjoint(init, last);
      NoDupAppend(Patterns(init), PatternsOf(last));
      NoDupAppend(init, [last]);
      assert (forall x :: x in init ==> x !in [last]) <==> last !in init;
    }
  }

  lemma OwnPatternsDistinct(e: Entry)
    requires Good(e)
    ensures NoDup(PatternsOf(e))
  {
    if e.base != "" {
      assert |PatternsOf(e)[0]| < |PatternsOf(e)[1]|;
    }
  }

  lemma SharedPattern(a: Entry, b: Entry, p: string)
    requires Good(a) && Good(b) && p in PatternsOf(a) && p in PatternsOf(b)
    ensures a == b
  {
    var j :| 0 <= j < |PatternsOf(a)| && PatternsOf(a)[j] == p;
    var k :| 0 <= k < |PatternsOf(b)| && PatternsOf(b)[k] == p;
    PatternInjective(a, j, b, k);
  }

  /** A route whose methods and hosts are proper names and whose prefix starts with a slash and
      does not end in two. */
  predicate GoodShape(shape: Shape) {
    && (forall i :: 0 <= i < |shape.methods| ==> GoodVerb(shape.methods[i]))
    && (forall i :: 0 <= i < |shape.hosts| ==> GoodHost(shape.hosts[i]))
    && HasPrefix(shape.prefix, "/") && !HasSuffix(shape.prefix, "//")
  }

  predicate PlainShape(shape: Shape) {
    && (forall i :: 0 <= i < |shape.methods| ==> PlainName(shape.methods[i]))
    && (forall i :: 0 <= i < |shape.hosts| ==> PlainName(shape.hosts[i]))
  }

  lemma CaseKeepsName(s: string)
    ensures (GoodVerb(s) ==> GoodVerb(ToUpper(s))) && (GoodHost(s) ==> GoodHost(ToLower(s)))
    ensures PlainName(s) ==> PlainName(ToUpper(s)) && PlainName(ToLower(s))
  {
    if |s| == 1 && s != "*" {
      assert s[0] != '*' by { assert s == [s[0]]; }
      assert ToUpper(s)[0] != '*' && ToLower(s)[0] != '*';
    }
  }

  lemma {:induction false} HostEntriesGood(verb: Option<string>, hosts: seq<Option<string>>, base: string, e: Entry)
    requires e in HostEntries(verb, hosts, base)
    ensures e.verb == verb && e.host in hosts && e.base == base
    decreases |hosts|
  {
    if e != Entry(verb, hosts[|hosts| - 1], base) {
      HostEntriesGood(verb, hosts[..|hosts| - 1], base, e);
    }
  }

  lemma {:induction false} CombineGood(verbs: seq<Option<string>>, hosts: seq<Option<string>>, base: string, e: Entry)
    requires e in Combine(verbs, hosts, base)
    ensures e.verb in verbs && e.host in hosts && e.base == base
    decreases |verbs|
  {
    var init, last := verbs[..|verbs| - 1], verbs[|verbs| - 1];
    if e in HostEntries(last, hosts, base) {
      HostEntriesGood(last, hosts, base, e);
    } else {
      CombineGood(init, hosts, base, e);
    }
  }

  lemma EntriesGood(shape: Shape, e: Entry)
    requires e in Entries(shape)
    ensures GoodShape(shape) ==> Good(e)
    ensures PlainShape(shape) ==> Plain(e)
  {
    CombineGood(Verbs(shape), Hosts(shape), TrimSuffix(shape.prefix, "/"), e);
    if e.verb.Some? {
      var i :| 0 <= i < |shape.methods| && e.verb == Some(ToUpper(shape.methods[i]));
      CaseKeepsName(shape.methods[i]);
    }
    if e.host.Some? {
      var i :| 0 <= i < |shape.hosts| && e.host == Some(ToLower(shape.hosts[i]));
      CaseKeepsName(shape.hosts[i]);
    }
    if GoodShape(shape) {
      TrimmedGood(shape.prefix);
    }
  }

  lemma TrimmedGood(prefix: string)
    requires HasPrefix(prefix, "/") && !HasSuffix(prefix, "//")
    ensures GoodBase(TrimSuffix(prefix, "/"))
  {
    if |prefix| >= 2 {
      assert prefix[|prefix| - 2..] == [prefix[|prefix| - 2], prefix[|prefix| - 1]];
    }
  }

  lemma {:induction false} AllEntriesGood(shapes: seq<Shape>, e: Entry) returns (i: nat)
    requires e in AllEntries(shapes)
    ensures i < |shapes| && (GoodShape(shapes[i]) ==> Good(e)) && (PlainShape(shapes[i]) ==> Plain(e))
    decreases |shapes|
  {
    i := |shapes| - 1;
    if e in Entries(shapes[i]) {
      EntriesGood(shapes[i], e);
    } else {
      i := AllEntriesGood(shapes[..i], e);
    }
  }

  /** Conflict detection is sound: when the conflict keys of all routes are distinct, no pattern
      is registered twice, within a route or across routes, after case folding and trimming.
      It is exact, rejecting nothing else, when no method or host is the literal "*" or has a
      NUL in it. */
  lemma ConflictKeysExact(shapes: seq<Shape>)
    requires forall i :: 0 <= i < |shapes| ==> GoodShape(shapes[i])
    ensures NoDup(Keys(AllEntries(shapes))) ==> NoDup(Patterns(AllEntries(shapes)))
    ensures (forall i :: 0 <= i < |shapes| ==> PlainShape(shapes[i])) ==>
              (NoDup(Keys(AllEntries(shapes))) <==> NoDup(Patterns(AllEntries(shapes))))
  {
    var es := AllEntries(shapes);
    forall e | e in es
      ensures Good(e) && ((forall i :: 0 <= i < |shapes| ==> PlainShape(shapes[i])) ==> Plain(e))
    {
      var i := AllEntriesGood(shapes, e);
    }
    KeysDistinct(es);
    PatternsDistinct(es);
  }

  /** A route with at most one method and one host has one entry. */
  lemma OneEntry(shape: Shape, e: Entry)
    requires |shape.methods| <= 1 && |shape.hosts| <= 1
    requires e == Entry(if shape.methods == [] then None else Some(ToUpper(shape.methods[0])),
                        if shape.hosts == [] then None else Some(ToLower(shape.hosts[0])), TrimSuffix(shape.prefix, "/"))
    ensures Entries(shape) == [e]
  {
    var verbs, hosts := Verbs(shape), Hosts(shape);
    assert verbs == [e.verb] && hosts == [e.host];
    assert HostEntries(e.verb, hosts, e.base) == [] + [e];
    assert Combine(verbs, hosts, e.base) == [] + [e];
  }

  lemma TwoRoutes(a: Shape, b: Shape, x: Entry, y: Entry)
    requires Entries(a) == [x] && Entries(b) == [y]
    ensures AllEntries([a, b]) == [x, y]
    ensures NoDup(Keys([x, y])) <==> KeyOf(x) != KeyOf(y)
    ensures Patterns([x, y]) == PatternsOf(x) + PatternsOf(y)
  {
    hide Entries, KeyOf, PatternsOf;
    AllEntriesSnoc([], a);
    AllEntriesSnoc([a], b);
    assert [] + [a] == [a] && [a] + [b] == [a, b] && [] + [x] == [x] && [x] + [y] == [x, y];
    PatternsSnoc([], x);
    PatternsSnoc([x], y);
    assert [] + PatternsOf(x) == PatternsOf(x);
    assert Keys([x, y])[0] == KeyOf(x) && Keys([x, y])[1] == KeyOf(y);
  }

  lemma AllEntriesSnoc(shapes: seq<Shape>, shape: Shape)
    ensures AllEntries(shapes + [shape]) == AllEntries(shapes) + Entries(shape)
  {
    assert (shapes + [shape])[..|shapes|] == shapes;
  }

  lemma Repeated(a: seq<string>, b: seq<string>, i: nat, j: nat)
    requires i < |a| && j < |b| && a[i] == b[j]
    ensures !NoDup(a + b)
  {
    assert (a + b)[i] == (a + b)[|a| + j];
  }

  // ---------------------------------------------------------------------------
  // Nothing listed is left out

  lemma {:induction false} HostEntriesExactly(verb: Option<string>, hosts: seq<Option<string>>, base: string, e: Entry)
    ensures e in HostEntries(verb, hosts, base) <==> e.verb == verb && e.host in hosts && e.base == base
    decreases |hosts|
  {
    if hosts != [] {
      HostEntriesExactly(verb, hosts[..|hosts| - 1], base, e);
      assert hosts == hosts[..|hosts| - 1] + [hosts[|hosts| - 1]];
    }
  }

  lemma {:induction false} CombineExactly(verbs: seq<Option<string>>, hosts: seq<Option<string>>, base: string, e: Entry)
    ensures e in Combine(verbs, hosts, base) <==> e.verb in verbs && e.host in hosts && e.base == base
    decreases |verbs|
  {
    if verbs != [] {
      CombineExactly(verbs[..|verbs| - 1], hosts, base, e);
      HostEntriesExactly(verbs[|verbs| - 1], hosts, base, e);
      assert verbs == verbs[..|verbs| - 1] + [verbs[|verbs| - 1]];
    }
  }

  /** The method is listed by the route, in any case, or the route lists none and it is absent. */
  ghost predicate ListsMethod(shape: Shape, verb: Option<string>) {
    if shape.methods == [] then verb.None?
    else exists i :: 0 <= i < |shape.methods| && verb == Some(ToUpper(shape.methods[i]))
  }

  ghost predicate ListsHost(shape: Shape, host: Option<string>) {
    if shape.hosts == [] then host.None?
    else exists i :: 0 <= i < |shape.hosts| && host == Some(ToLower(shape.hosts[i]))
  }

  /** A route has an entry for every combination of a listed method and a listed host, and no other. */
  lemma EntriesExactly(shape: Shape, e: Entry)
    ensures e in Entries(shape) <==>
            ListsMethod(shape, e.verb) && ListsHost(shape, e.host) && e.base == TrimSuffix(shape.prefix, "/")
  {
    var verbs, hosts := Verbs(shape), Hosts(shape);
    CombineExactly(verbs, hosts, TrimSuffix(shape.prefix, "/"), e);
    assert e.verb in verbs <==> ListsMethod(shape, e.verb) by {
      assert shape.methods != [] ==> forall i :: 0 <= i < |verbs| ==> verbs[i] == Some(ToUpper(shape.methods[i]));
    }
    assert e.host in hosts <==> ListsHost(shape, e.host) by {
      assert shape.hosts != [] ==> forall i :: 0 <= i < |hosts| ==> hosts[i] == Some(ToLower(shape.hosts[i]));
    }
  }

  /** What is registered for a listed method and host: the subtree of the prefix, and the prefix itself
      unless it is the root. */
  lemma ListedIsRegistered(shape: Shape, i: nat, j: nat)
    requires i < |shape.methods| && j < |shape.hosts| && shape.methods[i] != ""
    ensures var base := TrimSuffix(shape.prefix, "/");
            var authority := ToUpper(shape.methods[i]) + " " + ToLower(shape.hosts[j]);
            && (base == "" || base == "/" ==> authority + "/" in Patterns(Entries(shape)))
            && (base != "" && base != "/" ==>
                  authority + base in Patterns(Entries(shape)) && authority + base + "/" in Patterns(Entries(shape)))
  {
    hide Entries, TrimSuffix, Patterns;
    var base := TrimSuffix(shape.prefix, "/");
    var e := Entry(Some(ToUpper(shape.methods[i])), Some(ToLower(shape.hosts[j])), base);
    EntriesExactly(shape, e);
    assert Authority(e) == ToUpper(shape.methods[i]) + " " + ToLower(shape.hosts[j]);
    RegistersAll(Entries(shape), e);
  }

  /** The same for a route that lists neither methods nor hosts. */
  lemma UnlistedIsRegistered(shape: Shape)
    requires shape.methods == [] && shape.hosts == []
    ensures var base := TrimSuffix(shape.prefix, "/");
            && (base == "" || base == "/" ==> "/" in Patterns(Entries(shape)))
            && (base != "" && base != "/" ==> base in Patterns(Entries(shape)) && base + "/" in Patterns(Entries(shape)))
  {
    hide Entries, TrimSuffix, Patterns;
    var base := TrimSuffix(shape.prefix, "/");
    var e := Entry(None, None, base);
    EntriesExactly(shape, e);
    assert Authority(e) == "";
    assert "" + base == base && "" + "/" == "/";
    RegistersAll(Entries(shape), e);
  }

  lemma RegistersAll(es: seq<Entry>, e: Entry)
    requires e in es
    ensures e.base == "" || e.base == "/" ==> Authority(e) + "/" in Patterns(es)
    ensures e.base != "" && e.base != "/" ==> Authority(e) + e.base in Patterns(es) && Authority(e) + e.base + "/" in Patterns(es)
  {
    hide Patterns, Authority;
    var ps := PatternsOf(e);
    PatternMember(es, ps[0]);
    assert ps[0] in ps;
    if e.base != "" && e.base != "/" {
      PatternMember(es, ps[1]);
      assert ps[1] in ps;
    }
  }
}
