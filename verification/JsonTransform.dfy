/** The JSON body transform: removals, then renames in the random order of Go's map iteration,
    then additions, on the top-level members of an object. */
module JsonTransform {
  import opened Basics

  /** A member's value, of which only identity matters. */
  type Value = string
  type Object = map<string, Value>

  datatype Transform = Transform(add: Object, remove: seq<string>, rename: map<string, string>)

  function Removed(doc: Object, keys: seq<string>): Object {
    doc - (set k | k in keys)
  }

  /** One iteration of the rename loop. */
  function RenameOne(doc: Object, from: string, to: string): Object {
    if from in doc then doc[to := doc[from]] - {from} else doc
  }

  /** The rename loop with a given iteration order. */
  function Renamed(doc: Object, rename: map<string, string>, order: seq<string>): Object
    requires forall k :: k in order ==> k in rename
  {
    if order == [] then doc else
    var last := order[|order| - 1];
    RenameOne(Renamed(doc, rename, order[..|order| - 1]), last, rename[last])
  }

  /** An order in which a loop may visit the keys of a map: each once. */
  ghost predicate IsOrder(rename: map<string, string>, order: seq<string>) {
    && (forall k :: k in order <==> k in rename)
    && (forall i, j :: 0 <= i < j < |order| ==> order[i] != order[j])
  }

  function Transformed(doc: Object, t: Transform, order: seq<string>): Object
    requires forall k :: k in order ==> k in t.rename
  {
    Renamed(Removed(doc, t.remove), t.rename, order) + t.add
  }

  method RemoveKeys(doc: Object, keys: seq<string>) returns (result: Object)
    ensures result == Removed(doc, keys)
  {
    result := doc;
    var i := 0;
    while i < |keys|
      invariant 0 <= i <= |keys|
      invariant result == Removed(doc, keys[..i])
    {
      result := result - {keys[i]};
      i := i + 1;
    }
    assert keys[..i] == keys;
  }

  /** The rename loop visits the map in an arbitrary order, which it reports. */
  method RenameKeys(doc: Object, rename: map<string, string>) returns (result: Object, ghost order: seq<string>)
    ensures IsOrder(rename, order) && result == Renamed(doc, rename, order)
  {
    result, order := doc, [];
    var sources := rename.Keys;
    while sources != {}
      invariant sources <= rename.Keys
      invariant forall k :: k in order <==> k in rename && k !in sources
      invariant forall i, j :: 0 <= i < j < |order| ==> order[i] != order[j]
      invariant result == Renamed(doc, rename, order)
      decreases sources
    {
      var from :| from in sources;
      if from in result {
        var value := result[from];
        result := result[rename[from] := value];
        result := result - {from};
      }
      sources := sources - {from};
      assert (order + [from])[..|order|] == order;
      order := order + [from];
    }
  }

  method AddKeys(doc: Object, add: Object) returns (result: Object)
    ensures result == doc + add
  {
    result := doc;
    var keys := add.Keys;
    while keys != {}
      invariant keys <= add.Keys
      invariant result.Keys == doc.Keys + (add.Keys - keys)
      invariant forall k :: k in result ==> result[k] == if k in add && k !in keys then add[k] else doc[k]
      decreases keys
    {
      var key :| key in keys;
      result := result[key := add[key]];
      keys := keys - {key};
    }
  }

  /** transformJSON on a decoded body, `None` when the body is not a JSON object. */
  method TransformJSON(body: Option<Object>, t: Transform) returns (result: Option<Object>, ghost order: seq<string>)
    ensures result.None? <==> body.None?
    ensures body.Some? ==> IsOrder(t.rename, order) && result == Some(Transformed(body.value, t, order))
  {
    if body.None? {
      return None, [];
    }
    var doc := RemoveKeys(body.value, t.remove);
    doc, order := RenameKeys(doc, t.rename);
    doc := AddKeys(doc, t.add);
    result := Some(doc);
  }

  // ---------------------------------------------------------------------------
  // Order-independence

  /** Two renames whose order matters and whose difference no addition covers: two sources for
      one target, or a target that another rename moves on. */
  ghost predicate Conflict(t: Transform, a: string, b: string) {
    && a in t.rename && b in t.rename && a != b
    && (|| (t.rename[a] == t.rename[b] && t.rename[a] !in t.add)
        || (t.rename[a] == b && !(b in t.add && t.rename[b] in t.add)))
  }

  ghost predicate ConflictFree(t: Transform) {
    forall a, b :: !Conflict(t, a, b)
  }

  /** No other rename writes to `key`. */
  ghost predicate Untouched(t: Transform, key: string) {
    forall f :: f in t.rename && f != key ==> t.rename[f] != key
  }

  /** The closed form: additions win; a renamed member is gone; a present source's value is at
      its target; everything else is as after the removals. */
  ghost predicate ClosedForm(t: Transform, base: Object, result: Object) {
    && (forall k :: k in t.add ==> k in result && result[k] == t.add[k])
    && (forall k :: k in t.rename && k !in t.add ==> k !in result)
    && (forall f :: f in t.rename && f in base && t.rename[f] !in t.add && t.rename[f] !in t.rename ==>
          t.rename[f] in result && result[t.rename[f]] == base[f])
    && (forall k :: k !in t.add && k !in t.rename && !Targeted(t, base, k) ==>
          (k in result <==> k in base) && (k in base ==> result[k] == base[k]))
  }

  /** Some present member is renamed to `k`. */
  ghost predicate Targeted(t: Transform, base: Object, k: string) {
    exists f :: f in t.rename && f in base && t.rename[f] == k
  }

  lemma ClosedFormUnique(t: Transform, base: Object, a: Object, b: Object)
    requires ClosedForm(t, base, a) && ClosedForm(t, base, b)
    ensures a == b
  {
    forall k ensures (k in a <==> k in b) && (k in a && k in b ==> a[k] == b[k]) {
      if k !in t.add && k !in t.rename && Targeted(t, base, k) {
        var f :| f in t.rename && f in base && t.rename[f] == k;
      }
    }
  }

  /** Some present member in `done` is renamed to `k`. */
  ghost predicate Reached(t: Transform, base: Object, done: set<string>, k: string) {
    exists f :: f in done && f in t.rename && f in base && t.rename[f] == k
  }

  /** What holds while the renames in `done` have been made: an untouched source is still there
      or gone, a moved value is at its target, and other members that no addition covers are as
      at the start. */
  ghost predicate SourcesUnderway(t: Transform, base: Object, done: set<string>, doc: Object) {
    forall f :: f in t.rename && Untouched(t, f) ==>
      (f in doc <==> f in base && f !in done) && (f in doc ==> doc[f] == base[f])
  }

  ghost predicate TargetsUnderway(t: Transform, base: Object, done: set<string>, doc: Object) {
    forall f :: f in done && f in t.rename && f in base && t.rename[f] !in t.add && t.rename[f] !in t.rename ==>
      t.rename[f] in doc && doc[t.rename[f]] == base[f]
  }

  ghost predicate OthersUnderway(t: Transform, base: Object, done: set<string>, doc: Object) {
    forall k :: k !in t.add && k !in t.rename && !Reached(t, base, done, k) ==>
      (k in doc <==> k in base) && (k in base ==> doc[k] == base[k])
  }

  ghost predicate Underway(t: Transform, base: Object, done: set<string>, doc: Object) {
    SourcesUnderway(t, base, done, doc) && TargetsUnderway(t, base, done, doc) && OthersUnderway(t, base, done, doc)
  }

  /** A rename whose target stays has a source that no other rename writes to. */
  lemma SourceUntouched(t: Transform, from: string)
    requires ConflictFree(t) && from in t.rename && t.rename[from] !in t.add && t.rename[from] !in t.rename
    ensures Untouched(t, from)
  {
    forall g | g in t.rename && g != from ensures t.rename[g] != from {
      assert !Conflict(t, g, from);
    }
  }

  lemma RenameSources(t: Transform, base: Object, done: set<string>, doc: Object, from: string)
    requires SourcesUnderway(t, base, done, doc) && from in t.rename
    ensures SourcesUnderway(t, base, done + {from}, RenameOne(doc, from, t.rename[from]))
  {
  }

  lemma RenameTargets(t: Transform, base: Object, done: set<string>, doc: Object, from: string)
    requires ConflictFree(t) && Underway(t, base, done, doc) && from in t.rename && from !in done
    ensures TargetsUnderway(t, base, done + {from}, RenameOne(doc, from, t.rename[from]))
  {
    hide OthersUnderway, Reached, ConflictFree;
    var next := RenameOne(doc, from, t.rename[from]);
    forall f | f in done + {from} && f in t.rename && f in base && t.rename[f] !in t.add && t.rename[f] !in t.rename
      ensures t.rename[f] in next && next[t.rename[f]] == base[f]
    {
      if f == from {
        SourceUntouched(t, from);
      } else {
        NoConflict(t, f, from);
      }
    }
  }

  lemma NoConflict(t: Transform, a: string, b: string)
    requires ConflictFree(t)
    ensures !Conflict(t, a, b)
  {
  }

  lemma RenameOthers(t: Transform, base: Object, done: set<string>, doc: Object, from: string)
    requires ConflictFree(t) && Underway(t, base, done, doc) && from in t.rename && from !in done
    ensures OthersUnderway(t, base, done + {from}, RenameOne(doc, from, t.rename[from]))
  {
    hide TargetsUnderway, ConflictFree;
    var next := RenameOne(doc, from, t.rename[from]);
    forall k | k !in t.add && k !in t.rename && !Reached(t, base, done + {from}, k)
      ensures (k in next <==> k in base) && (k in base ==> next[k] == base[k])
    {
      assert !Reached(t, base, done, k);
      if t.rename[from] == k {
        SourceUntouched(t, from);
        assert from !in base;
      }
    }
  }

  lemma RenameUnderway(t: Transform, base: Object, done: set<string>, doc: Object, from: string)
    requires ConflictFree(t) && Underway(t, base, done, doc) && from in t.rename && from !in done
    ensures Underway(t, base, done + {from}, RenameOne(doc, from, t.rename[from]))
  {
    hide SourcesUnderway, TargetsUnderway, OthersUnderway, ConflictFree;
    RenameSources(t, base, done, doc, from);
    RenameTargets(t, base, done, doc, from);
    RenameOthers(t, base, done, doc, from);
  }

  lemma {:induction false} RenamesUnderway(t: Transform, base: Object, order: seq<string>)
    requires ConflictFree(t)
    requires forall k :: k in order ==> k in t.rename
    requires forall i, j :: 0 <= i < j < |order| ==> order[i] != order[j]
    ensures Underway(t, base, (set k | k in order), Renamed(base, t.rename, order))
    decreases |order|
  {
    if order != [] {
      var init, last := order[..|order| - 1], order[|order| - 1];
      RenamesUnderway(t, base, init);
      assert order == init + [last];
      assert last !in init;
      RenameUnderway(t, base, (set k | k in init), Renamed(base, t.rename, init), last);
      assert (set k | k in order) == (set k | k in init) + {last};
    }
  }

  /** Without conflicts every iteration order gives the closed form. */
  lemma EveryOrderGivesTheClosedForm(doc: Object, t: Transform, order: seq<string>)
    requires ConflictFree(t) && IsOrder(t.rename, order)
    ensures ClosedForm(t, Removed(doc, t.remove), Transformed(doc, t, order))
  {
    var base := Removed(doc, t.remove);
    RenamesUnderway(t, base, order);
    var done := set k | k in order;
    assert done == t.rename.Keys;
    var moved := Renamed(base, t.rename, order);
    forall k | k in t.rename && k !in t.add ensures k !in moved {
      forall g | g in t.rename && g != k ensures t.rename[g] != k {
        assert !Conflict(t, g, k);
      }
      assert Untouched(t, k);
    }
  }

  // ---------------------------------------------------------------------------
  // Exactly when the order shows

  /** Renames that lead from a member that is not removed to `path`'s last, each target being
      the next source. */
  ghost predicate Chain(t: Transform, path: seq<string>) {
    && path != [] && path[0] !in t.remove
    && (forall i :: 0 <= i < |path| ==> path[i] in t.rename)
    && (forall i :: 0 < i < |path| ==> t.rename[path[i - 1]] == path[i])
  }

  /** The rename of `k` can find its source present. */
  ghost predicate Live(t: Transform, k: string) {
    exists path :: Chain(t, path) && path[|path| - 1] == k
  }

  ghost predicate SameTarget(t: Transform, a: string, b: string) {
    Conflict(t, a, b) && t.rename[a] == t.rename[b] && t.rename[a] !in t.add
  }

  ghost predicate Handover(t: Transform, a: string, b: string) {
    Conflict(t, a, b) && t.rename[a] == b && !(b in t.add && t.rename[b] in t.add)
  }

  /** Two conflicting renames whose conflict some object brings about, given the removals. */
  ghost predicate Clashes(t: Transform) {
    || (exists a, b :: SameTarget(t, a, b) && a !in t.remove && b !in t.remove)
    || (exists a, b :: Handover(t, a, b) && Live(t, a))
  }

  /** The transform without the renames that never find their source. */
  ghost function Effective(t: Transform): Transform {
    t.(rename := map k | k in t.rename && Live(t, k) :: t.rename[k])
  }

  lemma PresentIsLive(t: Transform, k: string)
    requires k in t.rename && k !in t.remove
    ensures Live(t, k)
  {
    assert Chain(t, [k]);
  }

  lemma TargetIsLive(t: Transform, k: string)
    requires k in t.rename && Live(t, k) && t.rename[k] in t.rename
    ensures Live(t, t.rename[k])
  {
    var path :| Chain(t, path) && path[|path| - 1] == k;
    var longer := path + [t.rename[k]];
    assert Chain(t, longer) && longer[|longer| - 1] == t.rename[k];
  }

  /** A removed member comes back only by another rename. */
  lemma {:induction false} LiveAgain(t: Transform, path: seq<string>, k: string) returns (x: string)
    requires Chain(t, path) && path[|path| - 1] == k && k in t.remove
    ensures x in t.rename && x != k && t.rename[x] == k && Live(t, x)
    decreases |path|
  {
    var init := path[..|path| - 1];
    assert Chain(t, init);
    x := init[|init| - 1];
    if x == k {
      x := LiveAgain(t, init, k);
    }
  }

  lemma EffectiveConflictClashes(t: Transform, a: string, b: string)
    requires Conflict(Effective(t), a, b)
    ensures Clashes(t)
  {
    assert Conflict(t, a, b) && Live(t, a) && Live(t, b);
    if t.rename[a] == t.rename[b] && t.rename[a] !in t.add {
      assert SameTarget(t, a, b);
      if a in t.remove {
        ComesBack(t, a);
      } else if b in t.remove {
        ComesBack(t, b);
      }
    } else {
      assert Handover(t, a, b);
    }
  }

  lemma EffectiveConflictFree(t: Transform)
    requires !Clashes(t)
    ensures ConflictFree(Effective(t))
  {
    if !ConflictFree(Effective(t)) {
      var a, b :| Conflict(Effective(t), a, b);
      EffectiveConflictClashes(t, a, b);
    }
  }

  /** A rename of a removed member to a place that no addition covers is a handover. */
  lemma ComesBack(t: Transform, k: string)
    requires k in t.rename && k in t.remove && t.rename[k] !in t.add && Live(t, k)
    ensures Clashes(t)
  {
    var path :| Chain(t, path) && path[|path| - 1] == k;
    var x := LiveAgain(t, path, k);
    assert Handover(t, x, k);
  }

  ghost function Kept(t: Transform, order: seq<string>): seq<string> {
    if order == [] then [] else
    Kept(t, order[..|order| - 1]) + if Live(t, order[|order| - 1]) then [order[|order| - 1]] else []
  }

  lemma {:induction false} KeptMembers(t: Transform, order: seq<string>)
    ensures forall k :: k in Kept(t, order) <==> k in order && Live(t, k)
    ensures (forall i, j :: 0 <= i < j < |order| ==> order[i] != order[j]) ==>
              forall i, j :: 0 <= i < j < |Kept(t, order)| ==> Kept(t, order)[i] != Kept(t, order)[j]
    decreases |order|
  {
    if order != [] {
      var init, last := order[..|order| - 1], order[|order| - 1];
      KeptMembers(t, init);
      assert order == init + [last];
    }
  }

  lemma KeptOrder(t: Transform, order: seq<string>)
    requires IsOrder(t.rename, order)
    ensures IsOrder(Effective(t).rename, Kept(t, order))
  {
    KeptMembers(t, order);
  }

  /** A rename of a document whose renamable members are live leaves one like it, and is idle
      when it is not live itself. */
  lemma LiveStep(t: Transform, doc: Object, from: string)
    requires from in t.rename && forall k :: k in doc && k in t.rename ==> Live(t, k)
    ensures var next := RenameOne(doc, from, t.rename[from]);
            && (forall k :: k in next && k in t.rename ==> Live(t, k))
            && (!Live(t, from) ==> next == doc)
  {
    hide Live;
    if from in doc && t.rename[from] in t.rename {
      TargetIsLive(t, from);
    }
  }

  lemma {:induction false} LiveThroughout(t: Transform, base: Object, order: seq<string>)
    requires forall k :: k in order ==> k in t.rename
    requires forall k :: k in base ==> k !in t.remove
    ensures forall k :: k in Renamed(base, t.rename, order) && k in t.rename ==> Live(t, k)
    decreases |order|
  {
    hide Live, RenameOne;
    if order == [] {
      forall k | k in base && k in t.rename ensures Live(t, k) {
        PresentIsLive(t, k);
      }
    } else {
      var init, last := order[..|order| - 1], order[|order| - 1];
      LiveThroughout(t, base, init);
      LiveStep(t, Renamed(base, t.rename, init), last);
    }
  }

  lemma RenamedSnoc(doc: Object, rename: map<string, string>, order: seq<string>, k: string)
    requires k in rename && forall x :: x in order ==> x in rename
    ensures Renamed(doc, rename, order + [k]) == RenameOne(Renamed(doc, rename, order), k, rename[k])
  {
    assert (order + [k])[..|order|] == order;
  }

  /** Leaving out the renames that never find their source changes nothing. */
  lemma {:induction false} KeptRenames(t: Transform, base: Object, order: seq<string>)
    requires forall k :: k in order ==> k in t.rename
    requires forall k :: k in base ==> k !in t.remove
    ensures forall k :: k in Kept(t, order) ==> k in Effective(t).rename
    ensures Renamed(base, t.rename, order) == Renamed(base, Effective(t).rename, Kept(t, order))
    decreases |order|
  {
    hide Live, RenameOne;
    if order != [] {
      var init, last := order[..|order| - 1], order[|order| - 1];
      KeptRenames(t, base, init);
      LiveThroughout(t, base, init);
      LiveStep(t, Renamed(base, t.rename, init), last);
      if Live(t, last) {
        RenamedSnoc(base, Effective(t).rename, Kept(t, init), last);
      } else {
        assert Kept(t, order) == Kept(t, init);
      }
    }
  }

  /** Without clashes every iteration order gives the closed form of the effective transform. */
  lemma EveryOrderGivesTheEffectiveForm(doc: Object, t: Transform, order: seq<string>)
    requires !Clashes(t) && IsOrder(t.rename, order)
    ensures ClosedForm(Effective(t), Removed(doc, t.remove), Transformed(doc, t, order))
  {
    hide Clashes, ClosedForm, ConflictFree, Live;
    EffectiveConflictFree(t);
    KeptOrder(t, order);
    KeptRenames(t, Removed(doc, t.remove), order);
    EveryOrderGivesTheClosedForm(doc, Effective(t), Kept(t, order));
  }

  ghost predicate OrderIndependent(t: Transform) {
    forall doc: Object, o1: seq<string>, o2: seq<string> :: IsOrder(t.rename, o1) && IsOrder(t.rename, o2) ==>
      Transformed(doc, t, o1) == Transformed(doc, t, o2)
  }

  // ---------------------------------------------------------------------------
  // Objects on which a clash shows

  lemma {:induction false} SomeOrder(keys: set<string>) returns (order: seq<string>)
    ensures forall k :: k in order <==> k in keys
    ensures forall i, j :: 0 <= i < j < |order| ==> order[i] != order[j]
    decreases keys
  {
    order := [];
    if keys != {} {
      var k :| k in keys;
      var rest := SomeOrder(keys - {k});
      order := rest + [k];
    }
  }

  predicate Distinct(s: seq<string>) {
    forall i, j :: 0 <= i < j < |s| ==> s[i] != s[j]
  }

  /** Any list of renames can come last, in any order. */
  lemma OrderEndingIn(t: Transform, tail: seq<string>) returns (rest: seq<string>)
    requires Distinct(tail) && forall k :: k in tail ==> k in t.rename
    ensures IsOrder(t.rename, rest + tail)
    ensures forall k :: k in rest <==> k in t.rename && k !in tail
  {
    rest := SomeOrder(t.rename.Keys - set k | k in tail);
    var all := rest + tail;
    forall i, j | 0 <= i < j < |all| ensures all[i] != all[j] {
      if i < |rest| && j >= |rest| {
        assert all[i] in rest && all[j] in tail;
      }
    }
  }

  /** Renames whose sources are absent do nothing. */
  lemma {:induction false} IdleRenames(doc: Object, rename: map<string, string>, order: seq<string>)
    requires forall k :: k in order ==> k in rename && k !in doc
    ensures Renamed(doc, rename, order) == doc
    decreases |order|
  {
    if order != [] {
      IdleRenames(doc, rename, order[..|order| - 1]);
    }
  }

  lemma {:induction false} RenamedAppend(doc: Object, rename: map<string, string>, a: seq<string>, b: seq<string>)
    requires (forall k :: k in a ==> k in rename) && (forall k :: k in b ==> k in rename)
    ensures Renamed(doc, rename, a + b) == Renamed(Renamed(doc, rename, a), rename, b)
    decreases |b|
  {
    if b == [] {
      assert a + b == a;
    } else {
      var init := b[..|b| - 1];
      assert (a + b)[..|a + b| - 1] == a + init;
      RenamedAppend(doc, rename, a, init);
    }
  }

  lemma RenamedOnce(doc: Object, rename: map<string, string>, k: string)
    requires k in rename
    ensures Renamed(doc, rename, [k]) == RenameOne(doc, k, rename[k])
  {
    assert [k][..0] == [];
  }

  /** A single member walks along a chain of renames made in order. */
  lemma {:induction false} Walk(t: Transform, path: seq<string>, v: Value)
    requires Chain(t, path) && Distinct(path) && t.rename[path[|path| - 1]] != path[|path| - 1]
    ensures Renamed(map[path[0] := v], t.rename, path) == map[t.rename[path[|path| - 1]] := v]
    decreases |path|
  {
    var init, last := path[..|path| - 1], path[|path| - 1];
    var doc := map[path[0] := v];
    assert Renamed(doc, t.rename, []) == doc;
    if init != [] {
      assert t.rename[init[|init| - 1]] == last && init[|init| - 1] != last;
      Walk(t, init, v);
    }
  }

  /** Two ends of an order that disagree on an object that is not affected by the rest. */
  lemma EndsDiffer(t: Transform, doc: Object, tail1: seq<string>, tail2: seq<string>)
    requires Distinct(tail1) && Distinct(tail2) && (forall k :: k in tail1 <==> k in tail2)
    requires forall k :: k in tail1 ==> k in t.rename
    requires forall k :: k in doc ==> k !in t.remove && k in tail1
    requires Renamed(doc, t.rename, tail1) + t.add != Renamed(doc, t.rename, tail2) + t.add
    ensures !OrderIndependent(t)
  {
    hide Renamed;
    var rest1 := OrderEndingIn(t, tail1);
    var rest2 := OrderEndingIn(t, tail2);
    IdleRenames(doc, t.rename, rest1);
    IdleRenames(doc, t.rename, rest2);
    RenamedAppend(doc, t.rename, rest1, tail1);
    RenamedAppend(doc, t.rename, rest2, tail2);
    assert Removed(doc, t.remove) == doc;
    assert Transformed(doc, t, rest1 + tail1) != Transformed(doc, t, rest2 + tail2);
  }

  lemma SameTargetShows(t: Transform, a: string, b: string)
    requires SameTarget(t, a, b) && a !in t.remove && b !in t.remove
    ensures !OrderIndependent(t)
  {
    var doc, to := map[a := "1", b := "2"], t.rename[a];
    var x, y := RenameOne(RenameOne(doc, a, to), b, to), RenameOne(RenameOne(doc, b, to), a, to);
    RenamedPair(doc, t.rename, a, b);
    RenamedPair(doc, t.rename, b, a);
    assert (to in x && to in y ==> x[to] != y[to]) && (to in x || to in y);
    assert (to in x + t.add <==> to in x) && (to in y + t.add <==> to in y);
    assert to in x ==> (x + t.add)[to] == x[to];
    assert to in y ==> (y + t.add)[to] == y[to];
    EndsDiffer(t, doc, [a, b], [b, a]);
  }

  lemma RenamedPair(doc: Object, rename: map<string, string>, a: string, b: string)
    requires a in rename && b in rename
    ensures Renamed(doc, rename, [a, b]) == RenameOne(RenameOne(doc, a, rename[a]), b, rename[b])
  {
    assert [a] + [b] == [a, b];
    RenamedAppend(doc, rename, [a], [b]);
    RenamedOnce(doc, rename, a);
    RenamedOnce(Renamed(doc, rename, [a]), rename, b);
  }

  /** The member that walked to `b` either stays there or is handed on. */
  lemma HandedOn(t: Transform, b: string, v: Value)
    requires b in t.rename && !(b in t.add && t.rename[b] in t.add)
    ensures RenameOne(map[b := v], b, t.rename[b]) + t.add != map[b := v] + t.add
  {
    var c := t.rename[b];
    var x, y := RenameOne(map[b := v], b, c), map[b := v];
    assert b !in x && b in y && (c != b ==> c in x && c !in y);
    if b !in t.add {
      assert b in y + t.add && b !in x + t.add;
    } else {
      assert c in x + t.add && c !in y + t.add;
    }
  }

  /** The case of a chain without repetition that ends before `b`. */
  lemma StraightShows(t: Transform, path: seq<string>, b: string)
    requires Chain(t, path) && Distinct(path) && b !in path && Handover(t, path[|path| - 1], b)
    ensures !OrderIndependent(t)
  {
    hide Renamed;
    var doc := map[path[0] := "1"];
    Walk(t, path, "1");
    RenamedAppend(doc, t.rename, path, [b]);
    RenamedOnce(map[b := "1"], t.rename, b);
    RenamedAppend(doc, t.rename, [b], path);
    IdleRenames(doc, t.rename, [b]);
    HandedOn(t, b, "1");
    EndsDiffer(t, doc, path + [b], [b] + path);
  }

  /** The case of a chain that comes back to where it began. */
  lemma CircleShows(t: Transform, path: seq<string>)
    requires Chain(t, path) && Distinct(path) && |path| > 1 && Handover(t, path[|path| - 1], path[0])
    ensures !OrderIndependent(t)
  {
    hide Renamed;
    var b, doc := path[0], map[path[0] := "1"];
    Walk(t, path, "1");
    var others := path[1..];
    IdleRenames(doc, t.rename, others);
    RenamedAppend(doc, t.rename, others, [b]);
    RenamedOnce(doc, t.rename, b);
    HandedOn(t, b, "1");
    assert path == [b] + others;
    EndsDiffer(t, doc, path, others + [b]);
  }

  lemma {:induction false} HandoverShows(t: Transform, path: seq<string>, b: string)
    requires Chain(t, path) && Handover(t, path[|path| - 1], b)
    ensures !OrderIndependent(t)
    decreases |path|
  {
    if !Distinct(path) {
      var i, j :| 0 <= i < j < |path| && path[i] == path[j];
      var shorter := path[..i] + path[j..];
      assert Chain(t, shorter) && shorter[|shorter| - 1] == path[|path| - 1];
      HandoverShows(t, shorter, b);
    } else if b !in path {
      StraightShows(t, path, b);
    } else {
      var j :| 0 <= j < |path| && path[j] == b;
      if j == 0 {
        CircleShows(t, path);
      } else {
        assert Handover(t, path[j - 1], b);
        HandoverShows(t, path[..j], b);
      }
    }
  }

  /** The result is the same for every object and every iteration order exactly when no two
      renames clash. */
  lemma OrderIndependentExactly(t: Transform)
    ensures OrderIndependent(t) <==> !Clashes(t)
  {
    if !Clashes(t) {
      forall doc: Object, o1: seq<string>, o2: seq<string> | IsOrder(t.rename, o1) && IsOrder(t.rename, o2)
        ensures Transformed(doc, t, o1) == Transformed(doc, t, o2)
      {
        EveryOrderGivesTheEffectiveForm(doc, t, o1);
        EveryOrderGivesTheEffectiveForm(doc, t, o2);
        ClosedFormUnique(Effective(t), Removed(doc, t.remove), Transformed(doc, t, o1), Transformed(doc, t, o2));
      }
    } else if a, b :| SameTarget(t, a, b) && a !in t.remove && b !in t.remove {
      SameTargetShows(t, a, b);
    } else {
      var a, b :| Handover(t, a, b) && Live(t, a);
      var path :| Chain(t, path) && path[|path| - 1] == a;
      HandoverShows(t, path, b);
    }
  }

  /** Distinct targets that are no sources are the usual case. */
  lemma DistinctTargetsDoNotConflict(t: Transform)
    requires forall a, b :: a in t.rename && b in t.rename && a != b ==> t.rename[a] != t.rename[b]
    requires forall a :: a in t.rename ==> t.rename[a] !in t.rename
    ensures ConflictFree(t) && !Clashes(t)
  {
  }
}
