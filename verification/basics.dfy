/** Shared vocabulary of the lineage extractors: optional values,
    duplicate-free sequences and the "append unless already present" idiom
    with which every extractor builds its ordered lists. */
module Basics {

  /** A value that may be absent (a `None` in the extractors). */
  datatype Option<+T> = None | Some(value: T) {
    function GetOr(default: T): T {
      if Some? then value else default
    }
  }

  /** No element occurs twice. */
  predicate Distinct<T(==)>(s: seq<T>) {
    forall i, j :: 0 <= i < j < |s| ==> s[i] != s[j]
  }

  lemma TwoMembers<T>(s: seq<T>, x: T, y: T)
    requires x in s && y in s && x != y
    ensures |s| >= 2
  {
  }

  /** Position of the first occurrence of `x` in `s`. */
  function IndexOf<T(==)>(s: seq<T>, x: T): (i: nat)
    requires x in s
    ensures i < |s| && s[i] == x && x !in s[..i]
  {
    if s[0] == x then 0 else 1 + IndexOf(s[1..], x)
  }

  /** `r` lists its elements in the order of their first occurrence in `s`. */
  ghost predicate FirstSeenOrder<T>(r: seq<T>, s: seq<T>) {
    (forall x :: x in r ==> x in s) &&
    forall i, j :: 0 <= i < j < |r| ==> IndexOf(s, r[i]) < IndexOf(s, r[j])
  }

  /** Extends `acc` with every element of `s` that is not yet in it, one at a
      time, so that a repeated element of `s` is added once. */
  function AddAll<T(==)>(acc: seq<T>, s: seq<T>): (r: seq<T>)
    decreases |s|
  {
    if s == [] then acc
    else
      var before := AddAll(acc, s[..|s| - 1]);
      if s[|s| - 1] in before then before else before + [s[|s| - 1]]
  }

  /** The elements of `s` in first-seen order, each once. */
  function Dedup<T(==)>(s: seq<T>): (r: seq<T>)
  {
    AddAll([], s)
  }

  lemma {:induction false} AddAllFacts<T>(acc: seq<T>, s: seq<T>)
    ensures acc <= AddAll(acc, s)
    ensures forall x :: x in AddAll(acc, s) <==> x in acc || x in s
    ensures Distinct(acc) ==> Distinct(AddAll(acc, s))
    ensures |AddAll(acc, s)| <= |acc| + |s|
    decreases |s|
  {
    if s != [] {
      AddAllFacts(acc, s[..|s| - 1]);
      assert forall x :: x in s <==> x in s[..|s| - 1] || x == s[|s| - 1] by {
        assert s == s[..|s| - 1] + [s[|s| - 1]];
      }
    }
  }

  /** Adding two runs one after the other is adding their concatenation. */
  lemma {:induction false} AddAllAppend<T>(acc: seq<T>, a: seq<T>, b: seq<T>)
    ensures AddAll(acc, a + b) == AddAll(AddAll(acc, a), b)
    decreases |b|
  {
    if b == [] {
      assert a + b == a;
    } else {
      var n := |b| - 1;
      assert (a + b)[..|a + b| - 1] == a + b[..n];
      AddAllAppend(acc, a, b[..n]);
    }
  }

  /** The lists of `ss` one after the other. */
  function Flatten<T>(ss: seq<seq<T>>): seq<T>
    decreases |ss|
  {
    if ss == [] then [] else Flatten(ss[..|ss| - 1]) + ss[|ss| - 1]
  }

  lemma IndexOfAppend<T>(a: seq<T>, b: seq<T>, x: T)
    requires x in a
    ensures IndexOf(a + b, x) == IndexOf(a, x)
  {
    if a[0] != x {
      assert (a + b)[1..] == a[1..] + b;
      IndexOfAppend(a[1..], b, x);
    }
  }

  lemma IndexOfAppendNew<T>(a: seq<T>, x: T)
    requires x !in a
    ensures IndexOf(a + [x], x) == |a|
  {
    if a != [] {
      assert (a + [x])[1..] == a[1..] + [x];
      IndexOfAppendNew(a[1..], x);
    }
  }

  /** A distinct accumulator followed by the new elements of `s` keeps
      the order in which elements are first met in `acc + s`. */
  lemma {:induction false} AddAllOrder<T>(acc: seq<T>, s: seq<T>)
    requires Distinct(acc)
    ensures FirstSeenOrder(AddAll(acc, s), acc + s)
    decreases |s|
  {
    if s == [] {
      assert acc + s == acc;
      FirstSeenDistinct(acc);
    } else {
      var p := s[..|s| - 1];
      var x := s[|s| - 1];
      AddAllOrder(acc, p);
      AddAllFacts(acc, p);
      assert acc + s == (acc + p) + [x];
      if x in AddAll(acc, p) {
        FirstSeenKeep(AddAll(acc, p), acc + p, x);
      } else {
        FirstSeenNew(AddAll(acc, p), acc + p, x);
      }
    }
  }

  /** A repeat-free sequence lists its elements in first-seen order. */
  lemma FirstSeenDistinct<T>(s: seq<T>)
    requires Distinct(s)
    ensures FirstSeenOrder(s, s)
  {
    forall i, j | 0 <= i < j < |s|
      ensures IndexOf(s, s[i]) < IndexOf(s, s[j])
    {
      IndexOfDistinct(s, i);
      IndexOfDistinct(s, j);
    }
  }

  /** Meeting one more element does not move the first occurrences. */
  lemma FirstSeenKeep<T>(r: seq<T>, t: seq<T>, x: T)
    requires FirstSeenOrder(r, t)
    ensures FirstSeenOrder(r, t + [x])
  {
    forall y | y in r
      ensures IndexOf(t + [x], y) == IndexOf(t, y)
    {
      IndexOfAppend(t, [x], y);
    }
  }

  /** Meeting a new element puts it last in first-seen order. */
  lemma FirstSeenNew<T>(r: seq<T>, t: seq<T>, x: T)
    requires FirstSeenOrder(r, t) && x !in t
    ensures FirstSeenOrder(r + [x], t + [x])
  {
    FirstSeenKeep(r, t, x);
    IndexOfAppendNew(t, x);
    var r' := r + [x];
    forall i, j | 0 <= i < j < |r'|
      ensures IndexOf(t + [x], r'[i]) < IndexOf(t + [x], r'[j])
    {
      assert r'[i] == r[i];
      if j < |r| {
        assert r'[j] == r[j];
      } else {
        assert r'[j] == x;
        assert IndexOf(t, r[i]) < |t|;
      }
    }
  }

  lemma IndexOfDistinct<T>(s: seq<T>, i: nat)
    requires Distinct(s) && i < |s|
    ensures IndexOf(s, s[i]) == i
  {
    var k := IndexOf(s, s[i]);
  }

  /** Deduplication keeps each element once, in first-seen order. */
  lemma DedupSpec<T>(s: seq<T>)
    ensures Distinct(Dedup(s))
    ensures forall x :: x in Dedup(s) <==> x in s
    ensures FirstSeenOrder(Dedup(s), s)
  {
    AddAllFacts([], s);
    AddAllOrder([], s);
    assert [] + s == s;
  }

  /** Deduplicating copies of one element leaves that element once. */
  lemma {:induction false} DedupConstant<T>(s: seq<T>, x: T)
    requires s != [] && forall i :: 0 <= i < |s| ==> s[i] == x
    ensures Dedup(s) == [x]
    decreases |s|
  {
    var p := s[..|s| - 1];
    if |s| > 1 {
      assert forall i :: 0 <= i < |p| ==> p[i] == x;
      DedupConstant(p, x);
    } else {
      assert p == [];
    }
    assert AddAll([], p) == if |s| > 1 then [x] else [];
    assert s[|s| - 1] == x;
    assert AddAll([], s) == if x in AddAll([], p) then AddAll([], p) else AddAll([], p) + [x];
  }

  /** The prefix `s[:k]` of Python's slice notation: a negative `k` counts
      from the end. */
  function SliceTo<T>(s: seq<T>, k: int): (r: seq<T>)
    ensures r <= s
    ensures 0 <= k ==> |r| == if k < |s| then k else |s|
    ensures k < 0 ==> |r| == if |s| + k < 0 then 0 else |s| + k
  {
    if 0 <= k then (if k < |s| then s[..k] else s)
    else if |s| + k < 0 then [] else s[..|s| + k]
  }

  /** The elements of `s` that satisfy `p`, in order. */
  function Filter<T>(s: seq<T>, p: T -> bool): (r: seq<T>)
    ensures |r| <= |s|
    ensures forall i :: 0 <= i < |r| ==> r[i] in s && p(r[i])
    ensures forall i :: 0 <= i < |s| && p(s[i]) ==> s[i] in r
  {
    if s == [] then []
    else if p(s[0]) then [s[0]] + Filter(s[1..], p)
    else Filter(s[1..], p)
  }

  lemma FilterAppend<T>(a: seq<T>, b: seq<T>, p: T -> bool)
    ensures Filter(a + b, p) == Filter(a, p) + Filter(b, p)
  {
    if a != [] {
      assert (a + b)[0] == a[0] && (a + b)[1..] == a[1..] + b;
      FilterAppend(a[1..], b, p);
    } else {
      assert a + b == b;
    }
  }

  /** `s` is a merge of `a` and `b`: each element of `s` is taken, in order,
      from the front of one of them, and both are used up. */
  predicate Interleaves<T(==)>(s: seq<T>, a: seq<T>, b: seq<T>)
    decreases |s|
  {
    if s == [] then a == [] && b == []
    else
      (a != [] && a[0] == s[0] && Interleaves(s[1..], a[1..], b)) ||
      (b != [] && b[0] == s[0] && Interleaves(s[1..], a, b[1..]))
  }

  /** A filter and its complement split a sequence without reordering it. */
  lemma {:induction false} FilterInterleaves<T>(s: seq<T>, p: T -> bool, q: T -> bool)
    requires forall x :: q(x) == !p(x)
    ensures Interleaves(s, Filter(s, p), Filter(s, q))
    decreases |s|
  {
    if s != [] {
      FilterInterleaves(s[1..], p, q);
    }
  }

  /** Filters by pointwise-equal predicates agree. */
  lemma {:induction false} FilterExt<T>(s: seq<T>, p: T -> bool, q: T -> bool)
    requires forall x :: p(x) == q(x)
    ensures Filter(s, p) == Filter(s, q)
    decreases |s|
  {
    if s != [] {
      FilterExt(s[1..], p, q);
    }
  }

  /** Sum of a sequence of naturals. */
  function Sum(s: seq<nat>): nat {
    if s == [] then 0 else s[0] + Sum(s[1..])
  }

  function Min(a: int, b: int): int {
    if a < b then a else b
  }

  function Max(a: int, b: int): int {
    if a < b then b else a
  }

  /** The set of elements of a sequence. */
  function Elems<T>(s: seq<T>): set<T> {
    set i | 0 <= i < |s| :: s[i]
  }

  lemma ElemsIn<T>(s: seq<T>)
    ensures forall x :: x in Elems(s) <==> x in s
  {
    forall x | x in s ensures x in Elems(s) {
      var i :| 0 <= i < |s| && s[i] == x;
    }
  }

  lemma ElemsAppend<T>(a: seq<T>, b: seq<T>)
    ensures Elems(a + b) == Elems(a) + Elems(b)
  {
    ElemsIn(a);
    ElemsIn(b);
    ElemsIn(a + b);
  }

  /** The first `k` in `p..n` at which `f` gives a value: a leftmost search. */
  function FirstFrom<T>(f: nat -> Option<T>, p: nat, n: nat): (r: Option<T>)
    ensures r.None? <==> forall k :: p <= k <= n ==> f(k).None?
    ensures r.Some? ==> exists k :: p <= k <= n && f(k) == r && forall j :: p <= j < k ==> f(j).None?
    decreases n - p
  {
    if p > n then None
    else if f(p).Some? then f(p)
    else
      var r := FirstFrom(f, p + 1, n);
      assert r.Some? ==> exists k :: p <= k <= n && f(k) == r && forall j :: p <= j < k ==> f(j).None? by {
        if r.Some? {
          var k :| p + 1 <= k <= n && f(k) == r && forall j :: p + 1 <= j < k ==> f(j).None?;
        }
      }
      r
  }

  /** A subset is no larger than its superset. */
  lemma {:induction false} SubsetCardinality<T>(a: set<T>, b: set<T>)
    requires a <= b
    ensures |a| <= |b|
    decreases |a|
  {
    if a != {} {
      var x :| x in a;
      SubsetCardinality(a - {x}, b - {x});
    }
  }

  /** Growing the removed set never grows what is left. */
  lemma RemainderShrinks<T>(u: set<T>, v: set<T>, w: set<T>)
    requires v <= w
    ensures |u - w| <= |u - v|
  {
    SubsetCardinality(u - w, u - v);
  }

  lemma {:induction false} FilterDistinct<T>(s: seq<T>, p: T -> bool)
    requires Distinct(s)
    ensures Distinct(Filter(s, p))
  {
    if s != [] {
      FilterDistinct(s[1..], p);
      assert s[0] !in s[1..];
    }
  }

  /** A sequence has at most as many distinct elements as entries, and
      exactly as many when it has no repeats. */
  lemma {:induction false} ElemsCard<T>(s: seq<T>)
    ensures |Elems(s)| <= |s|
    ensures Distinct(s) ==> |Elems(s)| == |s|
  {
    if s != [] {
      var tail := s[1..];
      ElemsCard(tail);
      assert Elems(s) == {s[0]} + Elems(tail) by {
        forall x | x in Elems(s) ensures x in {s[0]} + Elems(tail) {
          var i :| 0 <= i < |s| && s[i] == x;
          if i > 0 { assert tail[i - 1] == x; }
        }
        forall x | x in Elems(tail) ensures x in Elems(s) {
          var i :| 0 <= i < |tail| && tail[i] == x;
          assert s[i + 1] == x;
        }
      }
      if Distinct(s) {
        assert Distinct(tail) by {
          forall i, j | 0 <= i < j < |tail| ensures tail[i] != tail[j] {
            assert tail[i] == s[i + 1] && tail[j] == s[j + 1];
          }
        }
        assert s[0] !in Elems(tail) by {
          forall i | 0 <= i < |tail| ensures tail[i] != s[0] {
            assert tail[i] == s[i + 1];
          }
        }
      }
    }
  }

  /** A repeat-free sequence drawn from `s` is no longer than `s`. */
  lemma DistinctBound<T>(r: seq<T>, s: seq<T>)
    requires Distinct(r) && Elems(r) <= Elems(s)
    ensures |r| <= |s|
  {
    ElemsCard(r);
    ElemsCard(s);
    SubsetCardinality(Elems(r), Elems(s));
  }

  /** A repeat-free concatenation has repeat-free parts with nothing in common. */
  lemma DistinctAppend<T>(a: seq<T>, b: seq<T>)
    requires Distinct(a + b)
    ensures Distinct(a) && Distinct(b)
    ensures forall x :: x in a ==> x !in b
  {
    forall i, j | 0 <= i < j < |a| ensures a[i] != a[j] {
      assert a[i] == (a + b)[i] && a[j] == (a + b)[j];
    }
    forall i, j | 0 <= i < j < |b| ensures b[i] != b[j] {
      assert b[i] == (a + b)[|a| + i] && b[j] == (a + b)[|a| + j];
    }
    forall i, j | 0 <= i < |a| && 0 <= j < |b| ensures a[i] != b[j] {
      assert (a + b)[i] == a[i] && (a + b)[|a| + j] == b[j];
    }
  }

  /** The present values, in order. */
  function Somes<T>(s: seq<Option<T>>): seq<T> {
    if s == [] then []
    else
      var last := s[|s| - 1];
      Somes(s[..|s| - 1]) + (if last.Some? then [last.value] else [])
  }

  lemma SomesAppend<T>(s: seq<Option<T>>, o: Option<T>)
    ensures Somes(s + [o]) == Somes(s) + (if o.Some? then [o.value] else [])
  {
    assert (s + [o])[..|s|] == s;
  }

  /** There are at most as many values kept as entries. */
  lemma {:induction false} SomesLength<T>(s: seq<Option<T>>)
    ensures |Somes(s)| <= |s|
  {
    if s != [] {
      SomesLength(s[..|s| - 1]);
    }
  }

  /** Every value kept comes from a present entry. */
  lemma {:induction false} SomesMembers<T>(s: seq<Option<T>>)
    ensures forall x :: x in Somes(s) ==> Some(x) in s
  {
    if s != [] {
      var front := s[..|s| - 1];
      SomesMembers(front);
      assert s == front + [s[|s| - 1]];
    }
  }

  /** No value is kept exactly when every entry is absent. */
  lemma {:induction false} SomesEmpty<T>(s: seq<Option<T>>)
    ensures Somes(s) == [] <==> forall i :: 0 <= i < |s| ==> s[i].None?
  {
    if s != [] {
      var front := s[..|s| - 1];
      SomesEmpty(front);
      assert forall i :: 0 <= i < |front| ==> front[i] == s[i];
    }
  }

  /** The three facts above together. */
  lemma SomesFacts<T>(s: seq<Option<T>>)
    ensures |Somes(s)| <= |s|
    ensures forall x :: x in Somes(s) ==> Some(x) in s
    ensures Somes(s) == [] <==> forall i :: 0 <= i < |s| ==> s[i].None?
  {
    SomesLength(s);
    SomesMembers(s);
    SomesEmpty(s);
  }

  /** `f` applied to each element, keeping the present results in order:
      the body of a loop that appends one entry per element it recognises. */
  function FilterMap<A, B>(s: seq<A>, f: A -> Option<B>): seq<B>
    decreases |s|
  {
    if s == [] then []
    else
      var last := f(s[|s| - 1]);
      FilterMap(s[..|s| - 1], f) + (if last.Some? then [last.value] else [])
  }

  /** The entries of a concatenation are those of each part, in order. */
  lemma {:induction false} FilterMapAppend<A, B>(a: seq<A>, b: seq<A>, f: A -> Option<B>)
    ensures FilterMap(a + b, f) == FilterMap(a, f) + FilterMap(b, f)
    decreases |b|
  {
    if b == [] {
      assert a + b == a;
    } else {
      assert (a + b)[..|a + b| - 1] == a + b[..|b| - 1];
      FilterMapAppend(a, b[..|b| - 1], f);
    }
  }

  /** An entry is exactly a recognised element. */
  lemma {:induction false} FilterMapMembers<A, B>(s: seq<A>, f: A -> Option<B>, y: B)
    ensures y in FilterMap(s, f) <==> exists i :: 0 <= i < |s| && f(s[i]) == Some(y)
    decreases |s|
  {
    if s != [] {
      var front := s[..|s| - 1];
      FilterMapMembers(front, f, y);
      assert forall i :: 0 <= i < |front| ==> front[i] == s[i];
      if y in FilterMap(s, f) && y !in FilterMap(front, f) {
        assert f(s[|s| - 1]) == Some(y);
      }
    }
  }

  /** The elements of a set in some order, each once: how the extractors
      iterate over a Python set, whose order the model leaves open. */
  method SetToSeq<T>(s: set<T>) returns (r: seq<T>)
    ensures Elems(r) == s && Distinct(r)
  {
    r := [];
    var rem := s;
    while rem != {}
      invariant Elems(r) + rem == s && Elems(r) !! rem && Distinct(r)
      decreases |rem|
    {
      var x :| x in rem;
      DistinctSnoc(r, x);
      r := r + [x];
      rem := rem - {x};
    }
  }

  /** A new element keeps a sequence repeat-free and joins its elements. */
  lemma DistinctSnoc<T>(r: seq<T>, x: T)
    requires Distinct(r) && x !in Elems(r)
    ensures Distinct(r + [x]) && Elems(r + [x]) == Elems(r) + {x}
  {
    ElemsAppend(r, [x]);
    ElemsIn([x]);
    assert Elems([x]) == {x};
    ElemsIn(r);
  }
}
