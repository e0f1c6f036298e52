/** cacheMaxAge: what the gateway reads out of a Cache-Control field in lower case. Durations are
    int64 nanoseconds. */
module CacheControl {
  import opened Basics
  import opened Text

  const TWO_TO_63: int := 0x8000_0000_0000_0000
  const SECOND: int := 1_000_000_000

  // ---------------------------------------------------------------------------
  // Directives

  /** strings.Split at one character. */
  function Split(s: string, sep: char): (r: seq<string>)
    ensures |r| >= 1
    ensures forall i :: 0 <= i < |r| ==> sep !in r[i]
  {
    if s == [] then [[]] else
    var rest := Split(s[1..], sep);
    if s[0] == sep then [[]] + rest else [[s[0]] + rest[0]] + rest[1..]
  }

  lemma JoinSeparated(parts: seq<string>, sep: char)
    requires parts != []
    ensures Join([[]] + parts, sep) == [sep] + Join(parts, sep)
  {
    assert ([[]] + parts)[1..] == parts;
  }

  lemma JoinLonger(c: char, parts: seq<string>, sep: char)
    requires parts != []
    ensures Join([[c] + parts[0]] + parts[1..], sep) == [c] + Join(parts, sep)
  {
    var longer := [[c] + parts[0]] + parts[1..];
    assert longer[1..] == parts[1..];
    var tail := Join(parts[1..], sep);
    assert [c] + parts[0] + [sep] + tail == [c] + (parts[0] + [sep] + tail);
  }

  /** Splitting loses nothing. */
  lemma {:induction false} SplitJoins(s: string, sep: char)
    ensures Join(Split(s, sep), sep) == s
    decreases |s|
  {
    hide Join;
    if s == [] {
      JoinOne([], sep);
    } else {
      SplitJoins(s[1..], sep);
      var rest := Split(s[1..], sep);
      assert s == [s[0]] + s[1..];
      JoinSeparated(rest, sep);
      JoinLonger(s[0], rest, sep);
    }
  }

  lemma JoinOne(part: string, sep: char)
    ensures Join([part], sep) == part
  {
  }

  predicate IsSpace(c: char) {
    c == ' ' || '\t' <= c <= '\r'
  }

  function TrimLeft(s: string): (r: string)
    ensures r == [] || !IsSpace(r[0])
    ensures |r| <= |s| && r == s[|s| - |r|..]
  {
    if s != [] && IsSpace(s[0]) then TrimLeft(s[1..]) else s
  }

  function TrimRight(s: string): (r: string)
    ensures r == [] || !IsSpace(r[|r| - 1])
    ensures r <= s
  {
    if s != [] && IsSpace(s[|s| - 1]) then TrimRight(s[..|s| - 1]) else s
  }

  function TrimSpace(s: string): (r: string)
    ensures r == [] || (!IsSpace(r[0]) && !IsSpace(r[|r| - 1]))
  {
    TrimRight(TrimLeft(s))
  }

  datatype Pair = Pair(name: string, value: string)

  /** strings.Cut at the first occurrence of a character. */
  function Cut(s: string, c: char): (r: Option<Pair>)
    ensures r.None? <==> c !in s
    ensures r.Some? ==> s == r.value.name + [c] + r.value.value && c !in r.value.name
  {
    if s == [] then None
    else if s[0] == c then Some(Pair([], s[1..]))
    else
      var rest := Cut(s[1..], c);
      if rest.None? then None else Some(Pair([s[0]] + rest.value.name, rest.value.value))
  }

  // ---------------------------------------------------------------------------
  // Numbers

  predicate IsDigit(c: char) {
    '0' <= c <= '9'
  }

  /** The number the digits of `s` continue `n` to; `None` when one is no digit. */
  function Number(s: string, n: nat): Option<nat> {
    if s == [] then Some(n)
    else if !IsDigit(s[0]) then None
    else Number(s[1..], 10 * n + (s[0] - '0') as nat)
  }

  /** strconv.ParseUint: the same, but the scan stops at the digit that overflows. */
  function ParseUint(s: string, n: nat): Option<nat> {
    if s == [] then Some(n)
    else if !IsDigit(s[0]) then None
    else
      var m := 10 * n + (s[0] - '0') as nat;
      if m >= TWO_TO_64 then Some(TWO_TO_64 - 1) else ParseUint(s[1..], m)
  }

  function Unsigned(s: string): string {
    if s != [] && (s[0] == '+' || s[0] == '-') then s[1..] else s
  }

  predicate Negative(s: string) {
    s != [] && s[0] == '-'
  }

  /** The number written in `s`, of any size. */
  function Written(s: string): Option<int> {
    var n := if Unsigned(s) == [] then None else Number(Unsigned(s), 0);
    if n.None? then None else
    var size: int := n.value;
    Some(if Negative(s) then -size else size)
  }

  /** strconv.Atoi without its error: 0 for what is no number, and the nearest int64 for what is
      out of range. */
  function Atoi(s: string): (n: int)
    ensures -TWO_TO_63 <= n < TWO_TO_63
  {
    var u := if Unsigned(s) == [] then None else ParseUint(Unsigned(s), 0);
    if u.None? then 0
    else if Negative(s) then (if u.value > TWO_TO_63 then -TWO_TO_63 else 0 - u.value)
    else if u.value >= TWO_TO_63 then TWO_TO_63 - 1 else u.value
  }

  lemma {:induction false} NumberGrows(s: string, n: nat)
    ensures Number(s, n).Some? ==> Number(s, n).value >= n
    decreases |s|
  {
    if s != [] && IsDigit(s[0]) {
      NumberGrows(s[1..], 10 * n + (s[0] - '0') as nat);
    }
  }

  /** The capped scan agrees with the number up to the cap. An overflow hides what follows it. */
  lemma {:induction false} ParseUintCaps(s: string, n: nat)
    requires n < TWO_TO_64
    ensures Number(s, n).Some? && Number(s, n).value < TWO_TO_64 ==> ParseUint(s, n) == Number(s, n)
    ensures Number(s, n).Some? && Number(s, n).value >= TWO_TO_64 ==> ParseUint(s, n) == Some(TWO_TO_64 - 1)
    ensures Number(s, n).None? ==> ParseUint(s, n).None? || ParseUint(s, n) == Some(TWO_TO_64 - 1)
    decreases |s|
  {
    if s != [] && IsDigit(s[0]) {
      var m := 10 * n + (s[0] - '0') as nat;
      if m < TWO_TO_64 {
        ParseUintCaps(s[1..], m);
      } else {
        NumberGrows(s[1..], m);
      }
    }
  }

  /** What Atoi makes of a number, and of anything else. */
  lemma AtoiReads(s: string)
    ensures Written(s).Some? && -TWO_TO_63 <= Written(s).value < TWO_TO_63 ==> Atoi(s) == Written(s).value
    ensures Written(s).Some? && Written(s).value >= TWO_TO_63 ==> Atoi(s) == TWO_TO_63 - 1
    ensures Written(s).Some? && Written(s).value < -TWO_TO_63 ==> Atoi(s) == -TWO_TO_63
    ensures Written(s).None? ==> Atoi(s) == 0 || Atoi(s) == TWO_TO_63 - 1 || Atoi(s) == -TWO_TO_63
  {
    ParseUintCaps(Unsigned(s), 0);
  }

  // ---------------------------------------------------------------------------
  // max-age

  /** A directive with a name and a value, if it is max-age. */
  function MaxAgeValue(directive: string): Option<string> {
    var cut := Cut(TrimSpace(directive), '=');
    if cut.Some? && cut.value.name == "max-age" then Some(cut.value.value) else None
  }

  /** The value of the first max-age directive. */
  function FirstMaxAge(directives: seq<string>): Option<string> {
    if directives == [] then None
    else if MaxAgeValue(directives[0]).Some? then MaxAgeValue(directives[0])
    else FirstMaxAge(directives[1..])
  }

  /** Directive `i` is the first that is max-age. */
  ghost predicate IsFirst(directives: seq<string>, i: nat) {
    && i < |directives| && MaxAgeValue(directives[i]).Some?
    && forall j :: 0 <= j < i ==> MaxAgeValue(directives[j]).None?
  }

  lemma {:induction false} FirstMaxAgeMeaning(directives: seq<string>, i: nat)
    requires i < |directives|
    ensures FirstMaxAge(directives).None? ==> MaxAgeValue(directives[i]).None?
    ensures IsFirst(directives, i) ==> FirstMaxAge(directives) == MaxAgeValue(directives[i])
    decreases |directives|
  {
    hide MaxAgeValue;
    if i > 0 {
      FirstMaxAgeMeaning(directives[1..], i - 1);
      assert forall j :: 0 < j < |directives| ==> directives[j] == directives[1..][j - 1];
    }
  }

  function StatedIn(control: string): Option<string> {
    FirstMaxAge(Split(control, ','))
  }

  /** A product of int64 values, wrapped around. */
  function Wrap(x: int): (r: int)
    ensures -TWO_TO_63 <= r < TWO_TO_63
  {
    (x + TWO_TO_63) % TWO_TO_64 - TWO_TO_63
  }

  function NanosOf(value: string): int {
    Wrap((if Atoi(value) > 0 then Atoi(value) else 0) * SECOND)
  }

  function MaxAgeOf(control: string): int {
    var value := StatedIn(control);
    if value.None? then 0 else NanosOf(value.value)
  }

  method CacheMaxAge(control: string) returns (maxAge: int)
    ensures maxAge == MaxAgeOf(control)
  {
    hide Cut, TrimSpace, Split, Atoi, Wrap;
    var directives := Split(control, ',');
    var k := 0;
    while k < |directives|
      invariant 0 <= k <= |directives|
      invariant FirstMaxAge(directives) == FirstMaxAge(directives[k..])
    {
      var cut := Cut(TrimSpace(directives[k]), '=');
      assert directives[k..][0] == directives[k] && directives[k..][1..] == directives[k + 1..];
      if cut.Some? && cut.value.name == "max-age" {
        var seconds := Atoi(cut.value.value);
        return Wrap((if seconds > 0 then seconds else 0) * SECOND);
      }
      k := k + 1;
    }
    maxAge := 0;
  }

  /** The age in nanoseconds that a max-age value allows: what is negative or no number allows
      none (section 4.2.1 of RFC 9111). */
  function StatedAge(value: string): nat {
    if Written(value).Some? && Written(value).value > 0 then Written(value).value * SECOND else 0
  }

  /** The age the gateway works with is the stated one, or no positive one, or the stated one is
      longer than any duration. */
  lemma NanosAgainstStated(value: string)
    ensures StatedAge(value) == 0 ==> NanosOf(value) <= 0
    ensures 0 < StatedAge(value) < TWO_TO_63 ==> NanosOf(value) == StatedAge(value)
  {
    AtoiReads(value);
  }

  // ---------------------------------------------------------------------------
  // Fields with a single directive

  lemma {:induction false} SplitAlone(s: string, sep: char)
    requires sep !in s
    ensures Split(s, sep) == [s]
  {
    if s != [] {
      SplitAlone(s[1..], sep);
      assert s == [s[0]] + s[1..];
    }
  }

  lemma CutAfter(name: string, c: char, value: string)
    requires c !in name
    ensures Cut(name + [c] + value, c) == Some(Pair(name, value))
  {
    hide Cut;
    var s := name + [c] + value;
    assert s[|name|] == c;
    var cut := Cut(s, c).value;
    SplitUnique(name, cut.name, c, value, cut.value);
  }

  /** A field with nothing but max-age states that value. */
  lemma StatedAlone(value: string)
    requires ',' !in value && value != "" && !IsSpace(value[|value| - 1])
    ensures StatedIn("max-age" + ['='] + value) == Some(value)
  {
    var s := "max-age" + ['='] + value;
    CutAfter("max-age", '=', value);
    SplitAlone(s, ',');
    assert !IsSpace(s[0]) && !IsSpace(s[|s| - 1]);
    assert TrimLeft(s) == s && TrimRight(s) == s;
    hide Cut, Split;
    assert MaxAgeValue(s) == Some(value);
    assert [s][0] == s;
  }

  lemma ZeroStated()
    ensures StatedIn("max-age=0") == Some("0")
    ensures Written("0") == Some(0) && StatedAge("0") == 0
  {
    StatedAlone("0");
    assert "max-age" + ['='] + "0" == "max-age=0";
    hide StatedIn;
    var s := "0";
    assert s[1..] == [];
    assert Number(s, 0) == Number(s[1..], 0) == Some(0);
  }

  // ---------------------------------------------------------------------------
  // Round trips

  predicate Blank(s: string) {
    forall i :: 0 <= i < |s| ==> IsSpace(s[i])
  }

  lemma {:induction false} TrimLeftOf(left: string, s: string)
    requires Blank(left) && (s == [] || !IsSpace(s[0]))
    ensures TrimLeft(left + s) == s
    decreases |left|
  {
    if left == [] {
      assert left + s == s;
    } else {
      assert (left + s)[1..] == left[1..] + s;
      TrimLeftOf(left[1..], s);
    }
  }

  lemma {:induction false} TrimRightOf(s: string, right: string)
    requires Blank(right) && (s == [] || !IsSpace(s[|s| - 1]))
    ensures TrimRight(s + right) == s
    decreases |right|
  {
    if right == [] {
      assert s + right == s;
    } else {
      var all := s + right;
      assert all[..|all| - 1] == s + right[..|right| - 1];
      TrimRightOf(s, right[..|right| - 1]);
    }
  }

  /** Trimming removes the surrounding white space and nothing else. */
  lemma TrimSpaceOf(left: string, s: string, right: string)
    requires Blank(left) && Blank(right) && s != [] && !IsSpace(s[0]) && !IsSpace(s[|s| - 1])
    ensures TrimSpace(left + s + right) == s
  {
    assert left + s + right == left + (s + right);
    TrimLeftOf(left, s + right);
    TrimRightOf(s, right);
  }

  lemma {:induction false} NumberAppend(s: string, d: char, n: nat)
    requires IsDigit(d) && Number(s, n).Some?
    ensures Number(s + [d], n) == Some(10 * Number(s, n).value + (d - '0') as nat)
    decreases |s|
  {
    if s == [] {
      assert s + [d] == [d] && [d][1..] == [];
    } else {
      assert (s + [d])[1..] == s[1..] + [d];
      NumberAppend(s[1..], d, 10 * n + (s[0] - '0') as nat);
    }
  }

  lemma {:induction false} NumberOfFormat(n: nat)
    ensures Number(FormatInt(n), 0) == Some(n)
  {
    if n < 10 {
      var s := [Digit(n)];
      assert s[1..] == [];
    } else {
      NumberOfFormat(n / 10);
      NumberAppend(FormatInt(n / 10), Digit(n % 10), 0);
    }
  }

  /** A printed number is read back, whatever its size. */
  lemma WrittenOfFormat(n: nat)
    ensures Written(FormatInt(n)) == Some(n)
  {
    NumberOfFormat(n);
  }
}
