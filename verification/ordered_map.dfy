/** The insertion-ordered dictionary of the extractors: a sequence of
    key/value entries with distinct keys, where storing under a present key
    replaces the value in place and a new key is appended at the end. */
module OrderedMap {
  import opened Basics

  type OMap<K, V> = seq<(K, V)>

  function Keys<K, V>(m: OMap<K, V>): (r: seq<K>)
    ensures |r| == |m| && forall i :: 0 <= i < |m| ==> r[i] == m[i].0
  {
    if m == [] then [] else [m[0].0] + Keys(m[1..])
  }

  lemma {:induction false} KeysAppend<K, V>(a: OMap<K, V>, b: OMap<K, V>)
    ensures Keys(a + b) == Keys(a) + Keys(b)
    decreases |a|
  {
    if a == [] {
      assert a + b == b;
    } else {
      assert (a + b)[1..] == a[1..] + b;
      KeysAppend(a[1..], b);
    }
  }

  function Values<K, V>(m: OMap<K, V>): (r: seq<V>)
    ensures |r| == |m| && forall i :: 0 <= i < |m| ==> r[i] == m[i].1
  {
    if m == [] then [] else [m[0].1] + Values(m[1..])
  }

  /** Keys are distinct, as in any dictionary. */
  predicate Valid<K(==), V>(m: OMap<K, V>) {
    Distinct(Keys(m))
  }

  /** The value stored under `k`, if any. */
  function Get<K(==), V>(m: OMap<K, V>, k: K): (r: Option<V>)
    ensures r.None? <==> k !in Keys(m)
  {
    if m == [] then None
    else if m[0].0 == k then Some(m[0].1)
    else Get(m[1..], k)
  }

  function GetOr<K(==), V>(m: OMap<K, V>, k: K, default: V): V {
    Get(m, k).GetOr(default)
  }

  /** `m[k] = v`. */
  function Put<K(==), V>(m: OMap<K, V>, k: K, v: V): (r: OMap<K, V>)
  {
    if m == [] then [(k, v)]
    else if m[0].0 == k then [(k, v)] + m[1..]
    else [m[0]] + Put(m[1..], k, v)
  }

  /** A store keeps the key order and appends a new key at the end. */
  lemma {:induction false} PutKeys<K, V>(m: OMap<K, V>, k: K, v: V)
    ensures Keys(Put(m, k, v)) == if k in Keys(m) then Keys(m) else Keys(m) + [k]
  {
    if m != [] && m[0].0 != k {
      PutKeys(m[1..], k, v);
      KeysAppend([m[0]], Put(m[1..], k, v));
    } else if m != [] {
      KeysAppend([(k, v)], m[1..]);
    }
  }

  /** Reading back after a store sees the stored value and nothing else moves. */
  lemma {:induction false} PutGet<K, V>(m: OMap<K, V>, k: K, v: V, k': K)
    ensures Get(Put(m, k, v), k') == if k' == k then Some(v) else Get(m, k')
  {
    if m != [] && m[0].0 != k {
      PutGet(m[1..], k, v, k');
    }
  }

  /** Looking up in a dictionary with one more entry at the end. */
  lemma {:induction false} GetSnoc<K, V>(m: OMap<K, V>, k: K, v: V, k': K)
    ensures Get(m + [(k, v)], k') == if k' in Keys(m) then Get(m, k') else if k' == k then Some(v) else None
    decreases |m|
  {
    if m != [] {
      assert (m + [(k, v)])[1..] == m[1..] + [(k, v)];
      GetSnoc(m[1..], k, v, k');
      assert k' in Keys(m) <==> k' == m[0].0 || k' in Keys(m[1..]) by {
        assert Keys(m) == [m[0].0] + Keys(m[1..]);
      }
    }
  }

  lemma PutValid<K, V>(m: OMap<K, V>, k: K, v: V)
    requires Valid(m)
    ensures Valid(Put(m, k, v))
  {
    PutKeys(m, k, v);
  }

  /** `m.setdefault(k, []).append(x)`. */
  function Append<K(==), V>(m: OMap<K, seq<V>>, k: K, x: V): (r: OMap<K, seq<V>>)
  {
    Put(m, k, GetOr(m, k, []) + [x])
  }

  /** Every pair `(k, v)` of `pairs` appended to the list under `k`, in order. */
  function Group<K(==), V>(pairs: seq<(K, V)>): (r: OMap<K, seq<V>>)
    decreases |pairs|
  {
    if pairs == [] then []
    else Append(Group(pairs[..|pairs| - 1]), pairs[|pairs| - 1].0, pairs[|pairs| - 1].1)
  }

  /** The values paired with `k`, in order. */
  function ValuesFor<K(==), V>(pairs: seq<(K, V)>, k: K): (r: seq<V>)
    decreases |pairs|
  {
    if pairs == [] then []
    else ValuesFor(pairs[..|pairs| - 1], k) + (if pairs[|pairs| - 1].0 == k then [pairs[|pairs| - 1].1] else [])
  }

  lemma {:induction false} KeysSnoc<K, V>(pairs: seq<(K, V)>)
    requires pairs != []
    ensures Keys(pairs) == Keys(pairs[..|pairs| - 1]) + [pairs[|pairs| - 1].0]
  {
    assert pairs == pairs[..|pairs| - 1] + [pairs[|pairs| - 1]];
    KeysAppend(pairs[..|pairs| - 1], [pairs[|pairs| - 1]]);
  }

  /** `ValuesFor` holds exactly the values paired with `k`. */
  lemma {:induction false} ValuesForIn<K, V>(pairs: seq<(K, V)>, k: K, x: V)
    ensures x in ValuesFor(pairs, k) <==> (k, x) in pairs
    decreases |pairs|
  {
    if pairs != [] {
      var n := |pairs| - 1;
      ValuesForIn(pairs[..n], k, x);
      assert pairs == pairs[..n] + [pairs[n]];
    }
  }

  lemma {:induction false} ValuesForAbsent<K, V>(pairs: seq<(K, V)>, k: K)
    requires k !in Keys(pairs)
    ensures ValuesFor(pairs, k) == []
    decreases |pairs|
  {
    if pairs != [] {
      KeysSnoc(pairs);
      ValuesForAbsent(pairs[..|pairs| - 1], k);
    }
  }

  /** Grouping lists the distinct keys in first-seen order. */
  lemma {:induction false} GroupKeys<K, V>(pairs: seq<(K, V)>)
    ensures Valid(Group(pairs))
    ensures Keys(Group(pairs)) == Dedup(Keys(pairs))
    decreases |pairs|
  {
    if pairs != [] {
      var n := |pairs| - 1;
      var g := Group(pairs[..n]);
      var x := pairs[n].0;
      var stored := GetOr(g, x, []) + [pairs[n].1];
      GroupKeys(pairs[..n]);
      PutValid(g, x, stored);
      PutKeys(g, x, stored);
      KeysSnoc(pairs);
      var ks := Keys(pairs);
      assert ks[..|ks| - 1] == Keys(pairs[..n]);
      assert ks[|ks| - 1] == x;
      assert Dedup(ks) == (if x in Dedup(Keys(pairs[..n])) then Dedup(Keys(pairs[..n])) else Dedup(Keys(pairs[..n])) + [x]);
      assert Group(pairs) == Put(g, x, stored);
    }
  }

  /** Grouping files every value under its key, in order of appearance. */
  lemma {:induction false} GroupGet<K, V>(pairs: seq<(K, V)>, k: K)
    ensures Get(Group(pairs), k) == if k in Keys(pairs) then Some(ValuesFor(pairs, k)) else None
    decreases |pairs|
  {
    if pairs != [] {
      var n := |pairs| - 1;
      var g := Group(pairs[..n]);
      var x := pairs[n].0;
      var stored := GetOr(g, x, []) + [pairs[n].1];
      GroupGet(pairs[..n], k);
      GroupGet(pairs[..n], x);
      PutGet(g, x, stored, k);
      KeysSnoc(pairs);
      if x !in Keys(pairs[..n]) {
        ValuesForAbsent(pairs[..n], x);
      }
      assert Group(pairs) == Put(g, x, stored);
      assert ValuesFor(pairs, k) == ValuesFor(pairs[..n], k) + (if x == k then [pairs[n].1] else []);
      if k == x {
        assert stored == ValuesFor(pairs[..n], x) + [pairs[n].1];
      } else {
        assert k in Keys(pairs) <==> k in Keys(pairs[..n]);
        assert ValuesFor(pairs, k) == ValuesFor(pairs[..n], k) + [];
        assert ValuesFor(pairs[..n], k) + [] == ValuesFor(pairs[..n], k);
      }
    }
  }

  /** `dict(pairs)`: every pair stored in turn, so a later pair overrides
      an earlier one with the same key. */
  function FromPairs<K(==), V>(pairs: seq<(K, V)>): (r: OMap<K, V>)
    decreases |pairs|
  {
    if pairs == [] then []
    else Put(FromPairs(pairs[..|pairs| - 1]), pairs[|pairs| - 1].0, pairs[|pairs| - 1].1)
  }

  /** Pair `i` is the last one with key `k`. */
  predicate LastWithKey<K(==), V>(pairs: seq<(K, V)>, k: K, i: int) {
    0 <= i < |pairs| && pairs[i].0 == k && forall j :: i < j < |pairs| ==> pairs[j].0 != k
  }

  /** The dictionary knows exactly the keys of the pairs, without repeats. */
  lemma {:induction false} FromPairsKeys<K, V>(pairs: seq<(K, V)>)
    ensures Valid(FromPairs(pairs))
    ensures Keys(FromPairs(pairs)) == Dedup(Keys(pairs))
    decreases |pairs|
  {
    if pairs != [] {
      var n := |pairs| - 1;
      var m := FromPairs(pairs[..n]);
      FromPairsKeys(pairs[..n]);
      PutValid(m, pairs[n].0, pairs[n].1);
      PutKeys(m, pairs[n].0, pairs[n].1);
      KeysSnoc(pairs);
      var ks := Keys(pairs);
      assert ks[..|ks| - 1] == Keys(pairs[..n]);
    }
  }

  /** A key is mapped to the value of the last pair that has it. */
  lemma {:induction false} FromPairsGet<K, V>(pairs: seq<(K, V)>, k: K, i: int)
    requires LastWithKey(pairs, k, i)
    ensures Get(FromPairs(pairs), k) == Some(pairs[i].1)
    decreases |pairs|
  {
    var n := |pairs| - 1;
    PutGet(FromPairs(pairs[..n]), pairs[n].0, pairs[n].1, k);
    if i < n {
      assert LastWithKey(pairs[..n], k, i);
      FromPairsGet(pairs[..n], k, i);
    }
  }

  /** The dictionary's keys are the keys of the pairs, each once. */
  lemma FromPairsMembers<K, V>(pairs: seq<(K, V)>)
    ensures Valid(FromPairs(pairs))
    ensures forall x :: x in Keys(FromPairs(pairs)) <==> x in Keys(pairs)
  {
    FromPairsKeys(pairs);
    AddAllFacts([], Keys(pairs));
  }

  /** The dictionary lacks a key exactly when no pair carries it. */
  lemma FromPairsAbsent<K, V>(pairs: seq<(K, V)>, k: K)
    ensures Get(FromPairs(pairs), k).None? <==> forall i :: 0 <= i < |pairs| ==> pairs[i].0 != k
  {
    FromPairsMembers(pairs);
    if i :| 0 <= i < |pairs| && pairs[i].0 == k {
      assert Keys(pairs)[i] == k;
    }
  }

  /** A dictionary built from pairs that all share one key has one entry. */
  lemma FromPairsOne<K, V>(pairs: seq<(K, V)>)
    requires pairs != [] && forall i :: 0 <= i < |pairs| ==> pairs[i].0 == pairs[0].0
    ensures |FromPairs(pairs)| == 1
  {
    var ks := Keys(FromPairs(pairs));
    var kp := Keys(pairs);
    FromPairsMembers(pairs);
    FromPairsKeys(pairs);
    DedupConstant(kp, pairs[0].0);
  }

  /** A dictionary built from pairs with two different keys has at least
      two entries. */
  lemma FromPairsTwo<K, V>(pairs: seq<(K, V)>, i: nat, j: nat)
    requires i < |pairs| && j < |pairs| && pairs[i].0 != pairs[j].0
    ensures |FromPairs(pairs)| >= 2
  {
    var ks := Keys(FromPairs(pairs));
    var kp := Keys(pairs);
    FromPairsMembers(pairs);
    TwoMembers(ks, kp[i], kp[j]);
  }

  /** Every key of the pairs has a last pair carrying it. */
  lemma {:induction false} LastWithKeyExists<K, V>(pairs: seq<(K, V)>, k: K) returns (i: int)
    requires k in Keys(pairs)
    ensures LastWithKey(pairs, k, i)
    decreases |pairs|
  {
    var n := |pairs| - 1;
    if pairs[n].0 == k {
      i := n;
    } else {
      KeysSnoc(pairs);
      i := LastWithKeyExists(pairs[..n], k);
    }
  }

  /** A value stored in the dictionary is the value of some pair with that key. */
  lemma FromPairsValue<K, V>(pairs: seq<(K, V)>, k: K)
    requires k in Keys(FromPairs(pairs))
    ensures (k, Get(FromPairs(pairs), k).value) in pairs
  {
    FromPairsMembers(pairs);
    var i := LastWithKeyExists(pairs, k);
    FromPairsGet(pairs, k, i);
  }

  /** In a dictionary each entry is what its key looks up. */
  lemma {:induction false} GetAt<K, V>(m: OMap<K, V>, i: nat)
    requires Valid(m) && i < |m|
    ensures Get(m, m[i].0) == Some(m[i].1)
    decreases |m|
  {
    if i > 0 {
      assert Keys(m)[0] != Keys(m)[i];
      assert Valid(m[1..]) by {
        forall a, b | 0 <= a < b < |m[1..]| ensures Keys(m[1..])[a] != Keys(m[1..])[b] {
          assert Keys(m)[a + 1] != Keys(m)[b + 1];
        }
      }
      GetAt(m[1..], i - 1);
    }
  }

  /** A property holds of some entry exactly when it holds of some key and
      what that key looks up. */
  lemma EntryKeyIff<K, V>(m: OMap<K, V>, P: (K, V) -> bool)
    requires Valid(m)
    ensures (exists x :: x in m && P(x.0, x.1)) <==> (exists k :: k in Keys(m) && P(k, Get(m, k).value))
  {
    if x :| x in m && P(x.0, x.1) {
      var i :| 0 <= i < |m| && m[i] == x;
      GetAt(m, i);
      assert Keys(m)[i] == x.0;
    }
    if k :| k in Keys(m) && P(k, Get(m, k).value) {
      var i :| 0 <= i < |m| && Keys(m)[i] == k;
      GetAt(m, i);
      assert m[i] in m;
    }
  }

  /** Each entry `(k, xs)` in turn: `m.setdefault(k, []).extend(x for x in
      xs if x not in m[k])`, the list checked as it grows. */
  function MergeFrom<K(==), V(==)>(acc: OMap<K, seq<V>>, entries: seq<(K, seq<V>)>): OMap<K, seq<V>>
    decreases |entries|
  {
    if entries == [] then acc
    else
      var m := MergeFrom(acc, entries[..|entries| - 1]);
      var e := entries[|entries| - 1];
      Put(m, e.0, AddAll(GetOr(m, e.0, []), e.1))
  }

  /** Merging keeps the known keys in place and appends new ones in
      first-seen order. */
  lemma {:induction false} MergeFromKeys<K, V>(acc: OMap<K, seq<V>>, entries: seq<(K, seq<V>)>)
    ensures Keys(MergeFrom(acc, entries)) == AddAll(Keys(acc), Keys(entries))
    ensures Valid(acc) ==> Valid(MergeFrom(acc, entries))
    decreases |entries|
  {
    if entries != [] {
      var n := |entries| - 1;
      var m := MergeFrom(acc, entries[..n]);
      var e := entries[n];
      MergeFromKeys(acc, entries[..n]);
      PutKeys(m, e.0, AddAll(GetOr(m, e.0, []), e.1));
      KeysSnoc(entries);
      var ks := Keys(entries);
      assert ks[..|ks| - 1] == Keys(entries[..n]);
      AddAllFacts(Keys(acc), Keys(entries));
    }
  }

  /** The list under a key is the old list extended, without repeats, by
      every list merged under that key. */
  lemma {:induction false} MergeFromGet<K, V>(acc: OMap<K, seq<V>>, entries: seq<(K, seq<V>)>, k: K)
    ensures Get(MergeFrom(acc, entries), k) ==
      if k in Keys(acc) || k in Keys(entries) then Some(AddAll(GetOr(acc, k, []), Flatten(ValuesFor(entries, k))))
      else None
    decreases |entries|
  {
    if entries != [] {
      var n := |entries| - 1;
      var m := MergeFrom(acc, entries[..n]);
      var e := entries[n];
      MergeFromGet(acc, entries[..n], k);
      MergeFromGet(acc, entries[..n], e.0);
      PutGet(m, e.0, AddAll(GetOr(m, e.0, []), e.1), k);
      KeysSnoc(entries);
      var vs := ValuesFor(entries[..n], k);
      if e.0 == k {
        assert ValuesFor(entries, k) == vs + [e.1];
        assert Flatten(vs + [e.1]) == Flatten(vs) + e.1 by {
          assert (vs + [e.1])[..|vs + [e.1]| - 1] == vs;
        }
        if k !in Keys(acc) && k !in Keys(entries[..n]) {
          ValuesForAbsent(entries[..n], k);
          assert AddAll([], e.1) == AddAll(AddAll([], Flatten(vs)), e.1);
        }
        AddAllAppend(GetOr(acc, k, []), Flatten(vs), e.1);
      } else {
        assert ValuesFor(entries, k) == vs + [];
        assert vs + [] == vs;
      }
    } else {
      assert Flatten(ValuesFor(entries, k)) == [];
    }
  }
}
