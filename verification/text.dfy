/** Strings as the extractors see them: character classes of Python's
    regular expressions (`\s`, `\w`), case mapping, `strip`, `split`,
    `join`, `splitlines`, and the scanning primitives the hand-written
    matchers of the other modules are built from.  Case mapping and `\w`
    cover ASCII; whitespace covers every character Python treats as such. */
module Text {
  import opened Basics

  /** Python's whitespace (`str.isspace`, the `\s` class, what `strip()` removes). */
  predicate IsSpace(c: char) {
    (9 <= c as int <= 13) || (28 <= c as int <= 32) || c as int == 0x85 || c as int == 0xA0 ||
    c as int == 0x1680 || (0x2000 <= c as int <= 0x200A) || c as int == 0x2028 ||
    c as int == 0x2029 || c as int == 0x202F || c as int == 0x205F || c as int == 0x3000
  }

  predicate IsUpperLetter(c: char) { 'A' <= c <= 'Z' }
  predicate IsLowerLetter(c: char) { 'a' <= c <= 'z' }
  predicate IsLetter(c: char) { IsUpperLetter(c) || IsLowerLetter(c) }
  predicate IsDigit(c: char) { '0' <= c <= '9' }

  /** The `\w` class: letters, digits and the underscore. */
  predicate IsWordChar(c: char) { IsLetter(c) || IsDigit(c) || c == '_' }

  /** A `\b` before position `p`, which holds a character. */
  predicate StartsWord(s: string, p: nat) {
    p < |s| && (p == 0 || !IsWordChar(s[p - 1]))
  }

  function UpperChar(c: char): char {
    if IsLowerLetter(c) then (c as int - 32) as char else c
  }

  function LowerChar(c: char): char {
    if IsUpperLetter(c) then (c as int + 32) as char else c
  }

  function Upper(s: string): (r: string)
    ensures |r| == |s| && forall i :: 0 <= i < |s| ==> r[i] == UpperChar(s[i])
  {
    seq(|s|, i requires 0 <= i < |s| => UpperChar(s[i]))
  }

  function Lower(s: string): (r: string)
    ensures |r| == |s| && forall i :: 0 <= i < |s| ==> r[i] == LowerChar(s[i])
  {
    seq(|s|, i requires 0 <= i < |s| => LowerChar(s[i]))
  }

  lemma UpperAppend(a: string, b: string)
    ensures Upper(a + b) == Upper(a) + Upper(b)
  {
  }

  /** Lower-casing forgets an earlier upper-casing. */
  lemma LowerUpper(s: string)
    ensures Lower(Upper(s)) == Lower(s)
  {
    assert forall i :: 0 <= i < |s| ==> LowerChar(UpperChar(s[i])) == LowerChar(s[i]);
  }

  lemma UpperIdempotent(s: string)
    ensures Upper(Upper(s)) == Upper(s)
  {
  }

  /** Two strings that are equal up to letter case. */
  predicate EqualsIgnoreCase(a: string, b: string) {
    Upper(a) == Upper(b)
  }

  predicate StartsWith(s: string, prefix: string) {
    prefix <= s
  }

  predicate EndsWith(s: string, suffix: string) {
    |suffix| <= |s| && s[|s| - |suffix|..] == suffix
  }

  /** `sub` occurs in `s` starting at position `p`. */
  predicate LiteralAt(s: string, p: nat, sub: string) {
    p + |sub| <= |s| && s[p..p + |sub|] == sub
  }

  /** `kw` occurs at position `p`, ignoring letter case. */
  predicate KeywordAt(s: string, p: nat, kw: string) {
    p + |kw| <= |s| && Upper(s[p..p + |kw|]) == Upper(kw)
  }

  /** The `in` test of Python strings. */
  predicate Contains(s: string, sub: string) {
    exists p :: 0 <= p <= |s| - |sub| && LiteralAt(s, p, sub)
  }

  /** The end of the longest run of characters in the class, starting at `p`. */
  function RunEnd(s: string, p: nat, inClass: char -> bool): (e: nat)
    requires p <= |s|
    ensures p <= e <= |s|
    ensures forall k :: p <= k < e ==> inClass(s[k])
    ensures e == |s| || !inClass(s[e])
    decreases |s| - p
  {
    if p == |s| || !inClass(s[p]) then p else RunEnd(s, p + 1, inClass)
  }

  /** A run is pinned down by where it stops. */
  lemma RunEndAt(s: string, p: nat, e: nat, inClass: char -> bool)
    requires p <= e <= |s|
    requires forall k :: p <= k < e ==> inClass(s[k])
    requires e == |s| || !inClass(s[e])
    ensures RunEnd(s, p, inClass) == e
  {
  }

  /** The first position at or after `p` whose character is in the class, or `|s|`. */
  function FindFrom(s: string, p: nat, inClass: char -> bool): (k: nat)
    requires p <= |s|
    ensures p <= k <= |s|
    ensures forall j :: p <= j < k ==> !inClass(s[j])
    ensures k < |s| ==> inClass(s[k])
    decreases |s| - p
  {
    if p == |s| || inClass(s[p]) then p else FindFrom(s, p + 1, inClass)
  }

  function SpaceEnd(s: string, p: nat): (e: nat)
    requires p <= |s|
    ensures p <= e <= |s|
  {
    RunEnd(s, p, IsSpace)
  }

  function WordEnd(s: string, p: nat): (e: nat)
    requires p <= |s|
    ensures p <= e <= |s|
  {
    RunEnd(s, p, IsWordChar)
  }

  /** The `\b` assertion of regular expressions between `s[i-1]` and `s[i]`. */
  predicate WordBoundary(s: string, i: nat)
    requires i <= |s|
  {
    (0 < i && IsWordChar(s[i - 1])) != (i < |s| && IsWordChar(s[i]))
  }

  /** Removes the leading characters in the class. */
  function TrimStartBy(s: string, inClass: char -> bool): (r: string)
    ensures |r| <= |s| && r == s[|s| - |r|..]
    ensures forall k :: 0 <= k < |s| - |r| ==> inClass(s[k])
    ensures r == [] || !inClass(r[0])
  {
    if s != [] && inClass(s[0]) then TrimStartBy(s[1..], inClass) else s
  }

  /** Removes the trailing characters in the class. */
  function TrimEndBy(s: string, inClass: char -> bool): (r: string)
    ensures |r| <= |s| && r == s[..|r|]
    ensures forall k :: |r| <= k < |s| ==> inClass(s[k])
    ensures r == [] || !inClass(r[|r| - 1])
  {
    if s != [] && inClass(s[|s| - 1]) then TrimEndBy(s[..|s| - 1], inClass) else s
  }

  /** Python's `str.strip(chars)`. */
  function TrimBy(s: string, inClass: char -> bool): (r: string)
    ensures r == [] || (!inClass(r[0]) && !inClass(r[|r| - 1]))
    ensures |r| <= |s|
  {
    TrimEndBy(TrimStartBy(s, inClass), inClass)
  }

  /** Stripping a class off a string enclosed by one character of the
      class at each end leaves the enclosed part when its own ends are
      outside the class. */
  lemma TrimByEnclosed(inner: string, open: char, close: char, inClass: char -> bool)
    requires inClass(open) && inClass(close)
    requires inner != [] && !inClass(inner[0]) && !inClass(inner[|inner| - 1])
    ensures TrimBy([open] + inner + [close], inClass) == inner
  {
    var s := [open] + inner + [close];
    assert s[1..] == inner + [close];
    assert (inner + [close])[0] == inner[0];
    assert TrimStartBy(s, inClass) == inner + [close];
    assert (inner + [close])[..|inner|] == inner;
  }

  /** Trimming only removes characters: one absent from the text stays
      absent. */
  lemma TrimByKeepsOut(s: string, c: char, inClass: char -> bool)
    requires c !in s
    ensures c !in TrimBy(s, inClass)
  {
    var a := TrimStartBy(s, inClass);
    assert forall k :: 0 <= k < |a| ==> a[k] == s[|s| - |a| + k];
    var b := TrimEndBy(a, inClass);
    assert forall k :: 0 <= k < |b| ==> b[k] == a[k];
  }

  /** Text whose ends lie outside the class trims to itself. */
  lemma TrimByUnclassed(s: string, inClass: char -> bool)
    requires s == [] || (!inClass(s[0]) && !inClass(s[|s| - 1]))
    ensures TrimBy(s, inClass) == s
  {
  }

  /** Python's `str.strip()`. */
  function Strip(s: string): (r: string)
    ensures r == [] || (!IsSpace(r[0]) && !IsSpace(r[|r| - 1]))
    ensures |r| <= |s|
  {
    TrimBy(s, IsSpace)
  }

  predicate IsQuote(c: char) { c == '"' || c == '\'' }

  /** Python's `str.strip("'\"")`. */
  function StripQuotes(s: string): (r: string)
    ensures r == [] || (!IsQuote(r[0]) && !IsQuote(r[|r| - 1]))
    ensures |r| <= |s|
  {
    TrimBy(s, IsQuote)
  }

  /** `s[i..j]` is what lies between whitespace-only ends of `s`. */
  predicate SpaceBounded(s: string, i: int, j: int) {
    0 <= i <= j <= |s| &&
    (forall k :: 0 <= k < i ==> IsSpace(s[k])) && (forall k :: j <= k < |s| ==> IsSpace(s[k]))
  }

  /** `Strip` keeps exactly the text between the outer whitespace. */
  lemma StripSpec(s: string)
    ensures exists i, j :: SpaceBounded(s, i, j) && Strip(s) == s[i..j]
  {
    var i, j := StripBounds(s);
  }

  lemma StripBounds(s: string) returns (i: int, j: int)
    ensures SpaceBounded(s, i, j) && Strip(s) == s[i..j]
  {
    var t := TrimStartBy(s, IsSpace);
    var r := TrimEndBy(t, IsSpace);
    assert Strip(s) == r;
    i := |s| - |t|;
    j := i + |r|;
    assert t == s[i..];
    assert r == t[..|r|];
    assert r == s[i..j];
    forall k | j <= k < |s| ensures IsSpace(s[k]) {
      assert s[k] == t[k - i];
    }
  }

  lemma StripIdempotent(s: string)
    ensures Strip(Strip(s)) == Strip(s)
  {
    var r := Strip(s);
    assert TrimStartBy(r, IsSpace) == r;
    assert TrimEndBy(r, IsSpace) == r;
  }

  /** Stripping keeps a non-blank head: what `a` strips to begins what
      `a + b` strips to. */
  lemma StripPrefix(a: string, b: string)
    requires Strip(a) != []
    ensures Strip(a) <= Strip(a + b)
  {
    assert (a + b)[..|a|] == a;
    StripPrefixOf(a, a + b);
  }

  lemma StripPrefixOf(a: string, s: string)
    requires a <= s && Strip(a) != []
    ensures Strip(a) <= Strip(s)
  {
    var i, j := StripEnds(a);
    var i2, j2 := StripEnds(s);
    BoundsOfPrefix(a, s, i, j, i2, j2);
  }

  /** The non-blank middle of `a` starts the middle of any text `a`
      begins. */
  lemma BoundsOfPrefix(a: string, s: string, i: int, j: int, i2: int, j2: int)
    requires a <= s && SpaceBounded(a, i, j) && i < j && !IsSpace(a[i]) && !IsSpace(a[j - 1])
    requires SpaceBounded(s, i2, j2) && (i2 < j2 ==> !IsSpace(s[i2]) && !IsSpace(s[j2 - 1]))
    ensures i2 == i && j <= j2 && a[i..j] <= s[i2..j2]
  {
    assert s[i] == a[i] && !IsSpace(s[i]);
    assert i2 <= i < j2;
    assert s[j - 1] == a[j - 1] && !IsSpace(s[j - 1]);
    assert !IsSpace(s[i2]);
    assert s[i2] == a[i2];
    assert s[i..j2][..j - i] == s[i..j] == a[i..j];
  }

  /** The stripped text lies between whitespace-only ends and, when it is
      not empty, begins and ends with non-whitespace. */
  lemma StripEnds(s: string) returns (i: int, j: int)
    ensures SpaceBounded(s, i, j) && Strip(s) == s[i..j]
    ensures i < j ==> !IsSpace(s[i]) && !IsSpace(s[j - 1])
  {
    i, j := StripBounds(s);
    if i < j {
      assert Strip(s)[0] == s[i] && Strip(s)[j - i - 1] == s[j - 1];
    }
  }

  /** Text whose ends are not whitespace strips to itself. */
  lemma StripUnspaced(s: string)
    requires s != [] && !IsSpace(s[0]) && !IsSpace(s[|s| - 1])
    ensures Strip(s) == s
  {
    var i, j := StripEnds(s);
  }

  /** Leading characters of the class make no difference to what a text
      trims to from the start. */
  lemma {:induction false} TrimStartAfter(sp: string, v: string, inClass: char -> bool)
    requires forall k :: 0 <= k < |sp| ==> inClass(sp[k])
    ensures TrimStartBy(sp + v, inClass) == TrimStartBy(v, inClass)
    decreases |sp|
  {
    if sp != [] {
      assert (sp + v)[0] == sp[0];
      assert (sp + v)[1..] == sp[1..] + v;
      TrimStartAfter(sp[1..], v, inClass);
    } else {
      assert sp + v == v;
    }
  }

  /** Leading whitespace makes no difference to what a text strips to. */
  lemma StripAfterSpaces(sp: string, v: string)
    requires forall k :: 0 <= k < |sp| ==> IsSpace(sp[k])
    ensures Strip(sp + v) == Strip(v)
  {
    TrimStartAfter(sp, v, IsSpace);
  }

  /** A string with no whitespace (and no other text) is blank. */
  predicate IsBlank(s: string) {
    Strip(s) == []
  }

  lemma {:induction false} TrimStartAll(s: string, inClass: char -> bool)
    requires forall k :: 0 <= k < |s| ==> inClass(s[k])
    ensures TrimStartBy(s, inClass) == []
    decreases |s|
  {
    if s != [] {
      TrimStartAll(s[1..], inClass);
    }
  }

  /** Blank means every character is whitespace. */
  lemma BlankIffAllSpace(s: string)
    ensures IsBlank(s) <==> forall k :: 0 <= k < |s| ==> IsSpace(s[k])
  {
    if forall k :: 0 <= k < |s| ==> IsSpace(s[k]) {
      TrimStartAll(s, IsSpace);
    } else {
      StripSpec(s);
    }
  }

  /** Python truthiness of an optional string: present and non-empty. */
  predicate Truthy(o: Option<string>) {
    o.Some? && o.value != ""
  }

  /** `a or b` on optional strings. */
  function OrElse(a: Option<string>, b: Option<string>): Option<string> {
    if Truthy(a) then a else b
  }

  /** The truthy parts, in order. */
  function Present(parts: seq<Option<string>>): (r: seq<string>)
    ensures forall i :: 0 <= i < |r| ==> r[i] != ""
    ensures forall x :: x in r <==> x != "" && Some(x) in parts
  {
    if parts == [] then []
    else
      assert forall o :: o in parts <==> o == parts[0] || o in parts[1..];
      (if Truthy(parts[0]) then [parts[0].value] else []) + Present(parts[1..])
  }

  /** The present values of three options, in order. */
  lemma Present3(a: Option<string>, b: Option<string>, c: Option<string>)
    ensures Present([a, b, c]) ==
      (if Truthy(a) then [a.value] else []) + (if Truthy(b) then [b.value] else []) +
      (if Truthy(c) then [c.value] else [])
  {
    assert [a, b, c][1..] == [b, c];
    assert [b, c][1..] == [c];
    assert [c][1..] == [];
    assert Present([c]) == (if Truthy(c) then [c.value] else []) + Present([]);
    assert Present([b, c]) == (if Truthy(b) then [b.value] else []) + Present([c]);
  }

  /** Pieces separated by `sep`, as Python's `str.split(sep)` with a
      one-character separator. */
  function Split(s: string, sep: char): (r: seq<string>)
    ensures |r| >= 1
    ensures forall k :: 0 <= k < |r| ==> sep !in r[k]
    decreases |s|
  {
    var k := FindFrom(s, 0, c => c == sep);
    if k == |s| then [s] else [s[..k]] + Split(s[k + 1..], sep)
  }

  /** Python's `sep.join(parts)`. */
  function Join(parts: seq<string>, sep: string): string {
    if parts == [] then []
    else if |parts| == 1 then parts[0]
    else parts[0] + sep + Join(parts[1..], sep)
  }

  /** Joining the pieces of a split puts the separators back. */
  lemma {:induction false} JoinSplit(s: string, sep: char)
    ensures Join(Split(s, sep), [sep]) == s
    decreases |s|
  {
    var k := FindFrom(s, 0, c => c == sep);
    if k < |s| {
      JoinSplit(s[k + 1..], sep);
      assert s == s[..k] + [sep] + s[k + 1..];
    }
  }

  /** Splitting a join recovers the parts when no part holds the separator. */
  lemma {:induction false} SplitJoin(parts: seq<string>, sep: char)
    requires |parts| >= 1
    requires forall k :: 0 <= k < |parts| ==> sep !in parts[k]
    ensures Split(Join(parts, [sep]), sep) == parts
    decreases |parts|
  {
    var s := Join(parts, [sep]);
    var k := FindFrom(s, 0, c => c == sep);
    if |parts| == 1 {
      assert k == |s|;
    } else {
      var rest := Join(parts[1..], [sep]);
      assert s == parts[0] + [sep] + rest;
      assert s[|parts[0]|] == sep;
      assert k == |parts[0]|;
      assert s[..k] == parts[0];
      assert s[k + 1..] == rest;
      SplitJoin(parts[1..], sep);
    }
  }

  /** A join holds only characters of its parts and of the separator. */
  lemma {:induction false} JoinKeepsOut(parts: seq<string>, sep: string, c: char)
    requires c !in sep && forall k :: 0 <= k < |parts| ==> c !in parts[k]
    ensures c !in Join(parts, sep)
    decreases |parts|
  {
    if |parts| > 1 {
      JoinKeepsOut(parts[1..], sep, c);
    }
  }

  /** A search is pinned down by where it stops. */
  lemma FindFromAt(s: string, p: nat, k: nat, inClass: char -> bool)
    requires p <= k <= |s|
    requires forall j :: p <= j < k ==> !inClass(s[j])
    requires k == |s| || inClass(s[k])
    ensures FindFrom(s, p, inClass) == k
    decreases k - p
  {
    if p < k {
      FindFromAt(s, p + 1, k, inClass);
    }
  }

  /** Appending a separator and more text does not move the first separator
      of `a`, and puts one right after `a` when `a` has none. */
  lemma FindSepAppend(a: string, b: string, sep: char)
    ensures FindFrom(a + [sep] + b, 0, c => c == sep) == FindFrom(a, 0, c => c == sep)
  {
    var s := a + [sep] + b;
    var k := FindFrom(a, 0, c => c == sep);
    assert forall j :: 0 <= j < |a| ==> s[j] == a[j];
    assert s[k] == sep by {
      if k == |a| {
        assert s[|a|] == sep;
      }
    }
    FindFromAt(s, 0, k, c => c == sep);
  }

  /** Splitting text free of the separator gives the text itself. */
  lemma SplitNoSep(b: string, sep: char)
    requires sep !in b
    ensures Split(b, sep) == [b]
  {
    FindFromAt(b, 0, |b|, c => c == sep);
  }

  /** A separator-free last piece after a separator becomes the last part. */
  lemma {:induction false} SplitAppendPiece(a: string, b: string, sep: char)
    requires sep !in b
    ensures Split(a + [sep] + b, sep) == Split(a, sep) + [b]
    decreases |a|
  {
    var s := a + [sep] + b;
    var k := FindFrom(a, 0, c => c == sep);
    FindSepAppend(a, b, sep);
    if k < |a| {
      assert s[..k] == a[..k];
      assert s[k + 1..] == a[k + 1..] + [sep] + b;
      SplitAppendPiece(a[k + 1..], b, sep);
    } else {
      assert s[..k] == a;
      assert s[k + 1..] == b;
      SplitNoSep(b, sep);
    }
  }

  /** Python's `s.count(c)` for a single character. */
  function CountChar(s: string, c: char): nat {
    if s == [] then 0 else CountChar(s[..|s| - 1], c) + (if s[|s| - 1] == c then 1 else 0)
  }

  lemma {:induction false} CountCharAppend(a: string, b: string, c: char)
    ensures CountChar(a + b, c) == CountChar(a, c) + CountChar(b, c)
    decreases |b|
  {
    if b == [] {
      assert a + b == a;
    } else {
      assert (a + b)[..|a + b| - 1] == a + b[..|b| - 1];
      CountCharAppend(a, b[..|b| - 1], c);
    }
  }

  /** The count is zero exactly when the character is absent. */
  lemma {:induction false} CountCharZero(s: string, c: char)
    ensures CountChar(s, c) == 0 <==> c !in s
    decreases |s|
  {
    if s != [] {
      CountCharZero(s[..|s| - 1], c);
      assert s == s[..|s| - 1] + [s[|s| - 1]];
    }
  }

  /** The two halves around the first `sep`, as `s.split(sep, 1)` when `sep in s`. */
  function SplitFirst(s: string, sep: char): (r: Option<(string, string)>)
    ensures r.None? <==> sep !in s
    ensures r.Some? ==> s == r.value.0 + [sep] + r.value.1 && sep !in r.value.0
  {
    var k := FindFrom(s, 0, c => c == sep);
    if k == |s| then None
    else
      assert s == s[..k] + [sep] + s[k + 1..];
      Some((s[..k], s[k + 1..]))
  }

  /** Splitting at the first separator recovers a head free of separators. */
  lemma SplitFirstOf(a: string, b: string, sep: char)
    requires sep !in a
    ensures SplitFirst(a + [sep] + b, sep) == Some((a, b))
  {
    var s := a + [sep] + b;
    var r := SplitFirst(s, sep);
    assert s[|a|] == sep;
    var x := r.value.0;
    assert x == s[..|x|] && a == s[..|a|];
    assert r.value.1 == s[|x| + 1..] && b == s[|a| + 1..];
  }

  /** The two halves around the last `sep`, as `s.rsplit(sep, 1)` when `sep in s`. */
  function SplitLast(s: string, sep: char): (r: Option<(string, string)>)
    ensures r.None? <==> sep !in s
    ensures r.Some? ==> s == r.value.0 + [sep] + r.value.1 && sep !in r.value.1
    decreases |s|
  {
    if s == [] then None
    else if s[|s| - 1] == sep then
      assert s == s[..|s| - 1] + [sep] + [];
      Some((s[..|s| - 1], []))
    else
      match SplitLast(s[..|s| - 1], sep)
      case None =>
        assert s == s[..|s| - 1] + [s[|s| - 1]];
        None
      case Some(halves) =>
        assert s == s[..|s| - 1] + [s[|s| - 1]];
        Some((halves.0, halves.1 + [s[|s| - 1]]))
  }

  /** Splitting at the last separator recovers a tail free of separators. */
  lemma {:induction false} SplitLastOf(a: string, b: string, sep: char)
    requires sep !in b
    ensures SplitLast(a + [sep] + b, sep) == Some((a, b))
    decreases |b|
  {
    var s := a + [sep] + b;
    if b == [] {
      assert s[..|s| - 1] == a;
    } else {
      var b' := b[..|b| - 1];
      assert s[..|s| - 1] == a + [sep] + b';
      assert b == b' + [b[|b| - 1]];
      SplitLastOf(a, b', sep);
    }
  }

  /** Characters `str.splitlines` breaks at (`\r\n` counts as one break). */
  predicate IsLineBreak(c: char) {
    c == '\n' || c == '\r' || c as int == 0x0B || c as int == 0x0C || c as int == 0x1C ||
    c as int == 0x1D || c as int == 0x1E || c as int == 0x85 || c as int == 0x2028 ||
    c as int == 0x2029
  }

  /** Python's `str.splitlines()`: no trailing empty line for a final break. */
  function SplitLines(s: string): (r: seq<string>)
    ensures forall k, j :: 0 <= k < |r| && 0 <= j < |r[k]| ==> !IsLineBreak(r[k][j])
    ensures s == [] <==> r == []
    decreases |s|
  {
    if s == [] then []
    else
      var k := FindFrom(s, 0, IsLineBreak);
      if k == |s| then [s]
      else
        var next := if s[k] == '\r' && k + 1 < |s| && s[k + 1] == '\n' then k + 2 else k + 1;
        [s[..k]] + SplitLines(s[next..])
  }

  function DigitChar(d: nat): char
    requires d < 10
  {
    ('0' as int + d) as char
  }

  /** Decimal digits of `n`, as Python's `str(n)`. */
  function NatToString(n: nat): (r: string)
    ensures |r| >= 1 && forall k :: 0 <= k < |r| ==> IsDigit(r[k])
    decreases n
  {
    if n < 10 then [DigitChar(n)] else NatToString(n / 10) + [DigitChar(n % 10)]
  }

  /** Different numbers print differently. */
  lemma {:induction false} NatToStringInjective(a: nat, b: nat)
    requires NatToString(a) == NatToString(b)
    ensures a == b
    decreases a
  {
    if a >= 10 && b >= 10 {
      var sa := NatToString(a / 10);
      var sb := NatToString(b / 10);
      assert NatToString(a) == sa + [DigitChar(a % 10)];
      assert NatToString(b) == sb + [DigitChar(b % 10)];
      assert |sa| == |sb|;
      assert sa == NatToString(a)[..|sa|] && sb == NatToString(b)[..|sb|];
      assert DigitChar(a % 10) == DigitChar(b % 10);
      NatToStringInjective(a / 10, b / 10);
    }
  }

  /** Python's `str(i)` for any integer. */
  function IntToString(i: int): string {
    if i < 0 then "-" + NatToString(-i) else NatToString(i)
  }

  /** Python's ordering of strings: by code point, a proper prefix first. */
  predicate StrLess(a: string, b: string)
    decreases |a|
  {
    if a == [] then b != []
    else if b == [] then false
    else if a[0] != b[0] then a[0] < b[0]
    else StrLess(a[1..], b[1..])
  }

  lemma {:induction false} StrLessIrreflexive(a: string)
    ensures !StrLess(a, a)
    decreases |a|
  {
    if a != [] {
      StrLessIrreflexive(a[1..]);
    }
  }

  lemma {:induction false} StrLessTotal(a: string, b: string)
    requires a != b
    ensures StrLess(a, b) || StrLess(b, a)
    decreases |a|
  {
    if a != [] && b != [] && a[0] == b[0] {
      assert a == [a[0]] + a[1..] && b == [b[0]] + b[1..];
      StrLessTotal(a[1..], b[1..]);
    }
  }

  lemma {:induction false} StrLessAsymmetric(a: string, b: string)
    requires StrLess(a, b)
    ensures !StrLess(b, a)
    decreases |a|
  {
    if a != [] && b != [] && a[0] == b[0] {
      StrLessAsymmetric(a[1..], b[1..]);
    }
  }

  lemma {:induction false} StrLessTransitive(a: string, b: string, c: string)
    requires StrLess(a, b) && StrLess(b, c)
    ensures StrLess(a, c)
    decreases |a|
  {
    if a != [] && b != [] && c != [] && a[0] == b[0] && b[0] == c[0] {
      StrLessTransitive(a[1..], b[1..], c[1..]);
    }
  }

  predicate SortedStrings(s: seq<string>) {
    forall i, j :: 0 <= i < j < |s| ==> StrLess(s[i], s[j])
  }

  function InsertString(x: string, s: seq<string>): (r: seq<string>)
    requires SortedStrings(s) && x !in s
    ensures SortedStrings(r)
    ensures |r| == |s| + 1
    ensures forall y :: y in r <==> y == x || y in s
    decreases |s|
  {
    if s == [] then [x]
    else if StrLess(x, s[0]) then
      forall j | 0 < j < |s| ensures StrLess(x, s[j]) {
        StrLessTransitive(x, s[0], s[j]);
      }
      [x] + s
    else
      StrLessTotal(x, s[0]);
      var rest := InsertString(x, s[1..]);
      assert s == [s[0]] + s[1..];
      forall j | 0 <= j < |rest| ensures StrLess(s[0], rest[j]) {
        if rest[j] != x {
          assert rest[j] in s[1..];
        }
      }
      [s[0]] + rest
  }

  /** Python's `sorted(set(items))`: each item once, in ascending order. */
  function SortedUnique(items: seq<string>): (r: seq<string>)
    ensures SortedStrings(r)
    ensures forall x :: x in r <==> x in items
    decreases |items|
  {
    if items == [] then []
    else
      var rest := SortedUnique(items[1..]);
      if items[0] in rest then rest
      else
        InsertString(items[0], rest)
  }

  lemma HeadIn<T>(s: seq<T>)
    requires s != []
    ensures s[0] in s
  {
  }

  /** A strictly ascending sequence is determined by its elements. */
  lemma {:induction false} SortedStringsUnique(a: seq<string>, b: seq<string>)
    requires SortedStrings(a) && SortedStrings(b)
    requires forall x :: x in a <==> x in b
    ensures a == b
    decreases |a|
  {
    if a != [] && b != [] {
      if a[0] != b[0] {
        StrLessTotal(a[0], b[0]);
        StrLessIrreflexive(a[0]);
        StrLessIrreflexive(b[0]);
        HeadIn(a);
        HeadIn(b);
        if StrLess(a[0], b[0]) {
          StrLessAsymmetric(a[0], b[0]);
        }
        assert false;
      }
      forall x ensures x in a[1..] <==> x in b[1..] {
        if x in a[1..] {
          var i :| 1 <= i < |a| && a[i] == x;
          assert x != a[0] by { StrLessIrreflexive(a[0]); }
          assert x in b;
          var k :| 0 <= k < |b| && b[k] == x;
          assert b[1..][k - 1] == x;
        }
        if x in b[1..] {
          var i :| 1 <= i < |b| && b[i] == x;
          assert x != b[0] by { StrLessIrreflexive(b[0]); }
          assert x in a;
          var k :| 0 <= k < |a| && a[k] == x;
          assert a[1..][k - 1] == x;
        }
      }
      SortedStringsUnique(a[1..], b[1..]);
      assert a == [a[0]] + a[1..] && b == [b[0]] + b[1..];
    } else if a != [] {
      HeadIn(a);
      assert false;
    } else if b != [] {
      HeadIn(b);
      assert false;
    }
  }
}
