/** What the emitter makes of the column edges: a job's inputs, outputs and
    fine-grained lineage, and each target dataset's upstream lineage. */
module InfaEmit {
  import opened Basics
  import opened Text
  import opened OrderedMap
  import opened InfaModel

  /** The URN builders, left abstract: a dataset URN from a dataset name and
      whether it is read (`true`) or written, and a field URN from a dataset
      URN and a column. */
  datatype Urns = Urns(dataset: (string, bool) -> string, field: (string, string) -> string)

  /** One `FineGrainedLineage`: upstream field URNs, the downstream field
      URN, the transform operation, and the confidence in hundredths. */
  datatype FineGrained = FineGrained(upstreams: seq<string>, downstream: string, operation: Option<string>,
                                     confidence: nat)

  // ---------------------------------------------------------------------
  // What every column group shares
  // ---------------------------------------------------------------------

  /** `min(e.confidence_score for e in edges)`, and 1.0 for no edges. */
  function MinConfidence(es: seq<Edge>): (r: nat)
    ensures es == [] ==> r == 100
    ensures es != [] ==> (forall i :: 0 <= i < |es| ==> r <= es[i].confidence)
                         && exists i :: 0 <= i < |es| && es[i].confidence == r
  {
    if es == [] then 100
    else if |es| == 1 then es[0].confidence
    else
      var rest := MinConfidence(es[1..]);
      assert forall i :: 1 <= i < |es| ==> es[i] == es[1..][i - 1];
      var r := Min(es[0].confidence, rest);
      assert r == rest ==> exists i :: 1 <= i < |es| && es[i].confidence == r by {
        if r == rest {
          var i :| 0 <= i < |es[1..]| && es[1..][i].confidence == rest;
          assert es[i + 1].confidence == r;
        }
      }
      r
  }

  /** The source dataset URN of an edge. */
  function SourceUrn(urns: Urns, e: Edge): string {
    urns.dataset(e.sourceDataset, true)
  }

  /** The field URN an edge names, when its source column is not `"*"`. */
  function FieldUrns(urns: Urns, es: seq<Edge>): seq<string>
    decreases |es|
  {
    if es == [] then []
    else
      var e := es[|es| - 1];
      FieldUrns(urns, es[..|es| - 1]) + (if e.sourceColumn != "*" then [urns.field(SourceUrn(urns, e), e.sourceColumn)] else [])
  }

  /** An edge that names a source column yields field `x`. */
  predicate NamesField(urns: Urns, e: Edge, x: string) {
    e.sourceColumn != "*" && x == urns.field(SourceUrn(urns, e), e.sourceColumn)
  }

  lemma {:induction false} FieldUrnsIn(urns: Urns, es: seq<Edge>, x: string)
    ensures x in FieldUrns(urns, es) <==> exists e :: e in es && NamesField(urns, e, x)
    decreases |es|
  {
    if es != [] {
      var n := |es| - 1;
      FieldUrnsIn(urns, es[..n], x);
      assert es == es[..n] + [es[n]];
      if x in FieldUrns(urns, es) && x !in FieldUrns(urns, es[..n]) {
        assert NamesField(urns, es[n], x);
      }
    }
  }

  /** The upstream field URNs of a group: each named field once, in order
      of first appearance; a `"*"` edge adds none. */
  function UpstreamFields(urns: Urns, es: seq<Edge>): seq<string> {
    Dedup(FieldUrns(urns, es))
  }

  lemma UpstreamFieldsMembers(urns: Urns, es: seq<Edge>)
    ensures forall x :: x in UpstreamFields(urns, es) <==> exists e :: e in es && NamesField(urns, e, x)
  {
    DedupSpec(FieldUrns(urns, es));
    forall x ensures x in UpstreamFields(urns, es) <==> exists e :: e in es && NamesField(urns, e, x) {
      FieldUrnsIn(urns, es, x);
    }
  }

  lemma UpstreamFieldsSpec(urns: Urns, es: seq<Edge>)
    ensures Distinct(UpstreamFields(urns, es))
    ensures forall x :: x in UpstreamFields(urns, es) <==> exists e :: e in es && NamesField(urns, e, x)
    ensures FirstSeenOrder(UpstreamFields(urns, es), FieldUrns(urns, es))
    ensures (forall e :: e in es ==> e.sourceColumn == "*") <==> UpstreamFields(urns, es) == []
  {
    DedupSpec(FieldUrns(urns, es));
    UpstreamFieldsMembers(urns, es);
    var ups := UpstreamFields(urns, es);
    if exists e :: e in es && e.sourceColumn != "*" {
      var e :| e in es && e.sourceColumn != "*";
      var x := urns.field(SourceUrn(urns, e), e.sourceColumn);
      assert NamesField(urns, e, x);
      assert x in ups;
    }
    if ups != [] {
      assert ups[0] in ups;
      var e :| e in es && NamesField(urns, e, ups[0]);
      assert e.sourceColumn != "*";
    }
  }

  /** The source dataset URNs a group adds to the inputs, `"*"` edges
      included. */
  function SourceUrns(urns: Urns, es: seq<Edge>): set<string> {
    set e | e in es :: SourceUrn(urns, e)
  }

  /** The expressions of the edges that have a non-empty one, in order. */
  function Expressions(es: seq<Edge>): (r: seq<string>)
    ensures forall x :: x in r <==> exists e :: e in es && Truthy(e.expression) && e.expression.value == x
  {
    if es == [] then []
    else
      var rest := Expressions(es[1..]);
      assert forall e :: e in es <==> e == es[0] || e in es[1..];
      (if Truthy(es[0].expression) then [es[0].expression.value] else []) + rest
  }

  /** `sep.join(parts)` when there are parts, else nothing. */
  function JoinOrNone(parts: seq<string>, sep: string): (r: Option<string>)
    ensures r.None? <==> parts == []
  {
    if parts == [] then None else Some(Join(parts, sep))
  }

  // ---------------------------------------------------------------------
  // `_build_job_io`
  // ---------------------------------------------------------------------

  /** `f"{edge.target_dataset}.{edge.target_column}"`. */
  function TargetKey(e: Edge): string {
    e.targetDataset + "." + e.targetColumn
  }

  /** `target_key.rsplit(".", 1)` read back as dataset and column; a key
      without a dot is both. */
  function SplitTarget(key: string): (string, string) {
    match SplitLast(key, '.')
    case Some(parts) => parts
    case None => (key, key)
  }

  /** Each edge under its key. */
  function Keyed(edges: seq<Edge>, key: Edge -> string): (r: seq<(string, Edge)>)
    ensures |r| == |edges| && forall i :: 0 <= i < |edges| ==> r[i] == (key(edges[i]), edges[i])
  {
    seq(|edges|, i requires 0 <= i < |edges| => (key(edges[i]), edges[i]))
  }

  /** What one target-key group contributes: input URNs, the output URN,
      and the fine-grained entry when some edge names a source field. */
  datatype GroupIo = GroupIo(inputs: set<string>, output: string, fine: Option<FineGrained>)

  function KeyGroupIo(urns: Urns, key: string, es: seq<Edge>): GroupIo {
    var (dataset, column) := SplitTarget(key);
    var targetUrn := urns.dataset(dataset, false);
    var ups := UpstreamFields(urns, es);
    GroupIo(
      SourceUrns(urns, es),
      targetUrn,
      if ups != [] then
        Some(FineGrained(ups, urns.field(targetUrn, column), JoinOrNone(Expressions(es), " -> "), MinConfidence(es)))
      else None)
  }

  function Builder(urns: Urns): (string, seq<Edge>) -> GroupIo {
    (key, es) => KeyGroupIo(urns, key, es)
  }

  /** The job's inputs, outputs and fine-grained lineage. */
  datatype JobIo = JobIo(inputs: set<string>, outputs: set<string>, fine: seq<FineGrained>)

  /** The groups' contributions gathered in group order. */
  function GroupsIo(build: (string, seq<Edge>) -> GroupIo, groups: OMap<string, seq<Edge>>): JobIo
    decreases |groups|
  {
    if groups == [] then JobIo({}, {}, [])
    else
      var g := build(groups[0].0, groups[0].1);
      var rest := GroupsIo(build, groups[1..]);
      JobIo(g.inputs + rest.inputs, {g.output} + rest.outputs,
            (if g.fine.Some? then [g.fine.value] else []) + rest.fine)
  }

  /** `_build_job_io`: the edges grouped by target key in first-seen order. */
  function BuildJobIo(urns: Urns, edges: seq<Edge>): JobIo {
    GroupsIo(Builder(urns), Group(Keyed(edges, TargetKey)))
  }

  /** The edges filed under key `k`, in order. */
  function EdgesBy(edges: seq<Edge>, key: Edge -> string, k: string): seq<Edge> {
    ValuesFor(Keyed(edges, key), k)
  }

  lemma EdgesByIn(edges: seq<Edge>, key: Edge -> string, k: string, e: Edge)
    ensures e in EdgesBy(edges, key, k) <==> e in edges && key(e) == k
  {
    var pairs := Keyed(edges, key);
    ValuesForIn(pairs, k, e);
    if e in edges && key(e) == k {
      var i :| 0 <= i < |edges| && edges[i] == e;
      assert pairs[i] == (k, e);
    }
  }

  /** A group contributes its source URNs, its target URN, and a
      fine-grained entry exactly when one of its edges names a source
      column; the entry's upstreams are those named fields, each once, and
      its confidence is the weakest edge's. */
  lemma KeyGroupIoSpec(urns: Urns, key: string, es: seq<Edge>)
    requires es != []
    ensures var g := KeyGroupIo(urns, key, es);
            && (forall x :: x in g.inputs <==> exists e :: e in es && x == SourceUrn(urns, e))
            && g.output == urns.dataset(SplitTarget(key).0, false)
            && (g.fine.Some? <==> exists e :: e in es && e.sourceColumn != "*")
            && (g.fine.Some? ==>
                  && Distinct(g.fine.value.upstreams)
                  && (forall x :: x in g.fine.value.upstreams <==> exists e :: e in es && NamesField(urns, e, x))
                  && g.fine.value.downstream == urns.field(g.output, SplitTarget(key).1)
                  && (g.fine.value.operation.None? <==> forall e :: e in es ==> !Truthy(e.expression))
                  && (forall e :: e in es ==> g.fine.value.confidence <= e.confidence)
                  && exists e :: e in es && e.confidence == g.fine.value.confidence)
  {
    UpstreamFieldsSpec(urns, es);
    var ex := Expressions(es);
    assert ex == [] <==> forall e :: e in es ==> !Truthy(e.expression) by {
      if ex != [] {
        assert ex[0] in ex;
        var e :| e in es && Truthy(e.expression) && e.expression.value == ex[0];
        assert !forall e :: e in es ==> !Truthy(e.expression);
      } else {
        assert forall e :: e in es && Truthy(e.expression) ==> e.expression.value in ex;
      }
    }
    var m := MinConfidence(es);
    var i :| 0 <= i < |es| && es[i].confidence == m;
    assert es[i] in es;
  }

  /** A target key splits back into the edge's dataset and column exactly
      when the column has no dot: `rsplit` cuts at the last dot, so a dotted
      column loses its head to the dataset. */
  lemma TargetKeySplits(e: Edge)
    ensures SplitTarget(TargetKey(e)) == (e.targetDataset, e.targetColumn) <==> '.' !in e.targetColumn
  {
    var k := TargetKey(e);
    assert k == e.targetDataset + ['.'] + e.targetColumn;
    assert '.' in k by {
      assert k[|e.targetDataset|] == '.';
    }
    var r := SplitLast(k, '.');
    if '.' !in e.targetColumn {
      SplitLastUnique(k, r.value.0, r.value.1, e.targetDataset, e.targetColumn);
    }
  }

  /** Two different targets, `a.b`/`c` and `a`/`b.c`, share the key `a.b.c`,
      so their edges form one group, read back as column `c` of `a.b`. */
  lemma DottedTargetsShareGroup(e1: Edge, e2: Edge)
    requires e1.targetDataset == "a.b" && e1.targetColumn == "c"
    requires e2.targetDataset == "a" && e2.targetColumn == "b.c"
    ensures TargetKey(e1) == TargetKey(e2)
    ensures SplitTarget(TargetKey(e2)) == ("a.b", "c")
  {
    assert TargetKey(e1) == "a.b" + ['.'] + "c";
    assert TargetKey(e2) == "a.b.c" == TargetKey(e1);
    SplitLastOf("a.b", "c", '.');
  }

  lemma {:induction false} GroupsIoInputs(build: (string, seq<Edge>) -> GroupIo, groups: OMap<string, seq<Edge>>, x: string)
    ensures x in GroupsIo(build, groups).inputs <==> exists i :: 0 <= i < |groups| && x in build(groups[i].0, groups[i].1).inputs
    decreases |groups|
  {
    if groups != [] {
      var tail := groups[1..];
      GroupsIoInputs(build, tail, x);
      if x in GroupsIo(build, tail).inputs {
        var i :| 0 <= i < |tail| && x in build(tail[i].0, tail[i].1).inputs;
        assert build(tail[i].0, tail[i].1) == build(groups[i + 1].0, groups[i + 1].1);
      }
      if exists i :: 0 <= i < |groups| && x in build(groups[i].0, groups[i].1).inputs {
        var i :| 0 <= i < |groups| && x in build(groups[i].0, groups[i].1).inputs;
        if i > 0 {
          assert build(tail[i - 1].0, tail[i - 1].1) == build(groups[i].0, groups[i].1);
        }
      }
    }
  }

  lemma {:induction false} GroupsIoOutputs(build: (string, seq<Edge>) -> GroupIo, groups: OMap<string, seq<Edge>>, x: string)
    ensures x in GroupsIo(build, groups).outputs <==> exists i :: 0 <= i < |groups| && x == build(groups[i].0, groups[i].1).output
    decreases |groups|
  {
    if groups != [] {
      var tail := groups[1..];
      GroupsIoOutputs(build, tail, x);
      if x in GroupsIo(build, tail).outputs {
        var i :| 0 <= i < |tail| && x == build(tail[i].0, tail[i].1).output;
        assert build(tail[i].0, tail[i].1) == build(groups[i + 1].0, groups[i + 1].1);
      }
      if exists i :: 0 <= i < |groups| && x == build(groups[i].0, groups[i].1).output {
        var i :| 0 <= i < |groups| && x == build(groups[i].0, groups[i].1).output;
        if i > 0 {
          assert build(tail[i - 1].0, tail[i - 1].1) == build(groups[i].0, groups[i].1);
        }
      }
    }
  }

  lemma {:induction false} GroupsIoFine(build: (string, seq<Edge>) -> GroupIo, groups: OMap<string, seq<Edge>>, f: FineGrained)
    ensures f in GroupsIo(build, groups).fine <==> exists i :: 0 <= i < |groups| && build(groups[i].0, groups[i].1).fine == Some(f)
    decreases |groups|
  {
    if groups != [] {
      var tail := groups[1..];
      GroupsIoFine(build, tail, f);
      if f in GroupsIo(build, tail).fine {
        var i :| 0 <= i < |tail| && build(tail[i].0, tail[i].1).fine == Some(f);
        assert build(tail[i].0, tail[i].1) == build(groups[i + 1].0, groups[i + 1].1);
      }
      if exists i :: 0 <= i < |groups| && build(groups[i].0, groups[i].1).fine == Some(f) {
        var i :| 0 <= i < |groups| && build(groups[i].0, groups[i].1).fine == Some(f);
        if i > 0 {
          assert build(tail[i - 1].0, tail[i - 1].1) == build(groups[i].0, groups[i].1);
        }
      }
    }
  }

  /** `_build_job_io`: the inputs are the source datasets of all edges,
      `"*"` edges included; the outputs are the datasets read back from the
      target keys; and there is one fine-grained entry for each target key
      that some edge names a source column under, built from all the edges
      under that key. */
  lemma BuildJobIoSpec(urns: Urns, edges: seq<Edge>)
    ensures var io := BuildJobIo(urns, edges);
            && (forall x :: x in io.inputs <==> exists e :: e in edges && x == SourceUrn(urns, e))
            && (forall x :: x in io.outputs <==> exists e :: e in edges && x == urns.dataset(SplitTarget(TargetKey(e)).0, false))
            && (forall f :: f in io.fine <==> exists e :: FineFrom(urns, edges, e, f))
  {
    var groups := Group(Keyed(edges, TargetKey));
    GroupsCover(edges, TargetKey);
    BuildJobIoInputs(urns, edges, groups);
    BuildJobIoOutputs(urns, edges, groups);
    BuildJobIoFine(urns, edges, groups);
  }

  /** `f` is the entry built for the key of `e`, an edge that names a
      source column. */
  predicate FineFrom(urns: Urns, edges: seq<Edge>, e: Edge, f: FineGrained) {
    && e in edges
    && e.sourceColumn != "*"
    && KeyGroupIo(urns, TargetKey(e), EdgesBy(edges, TargetKey, TargetKey(e))).fine == Some(f)
  }

  /** The groups hold exactly the edges: each group is its key's edges, and
      each edge's key has a group. */
  ghost predicate Covers(edges: seq<Edge>, key: Edge -> string, groups: OMap<string, seq<Edge>>) {
    && (forall i :: 0 <= i < |groups| ==> groups[i].1 == EdgesBy(edges, key, groups[i].0) && groups[i].1 != [])
    && (forall e :: e in edges ==> exists i :: 0 <= i < |groups| && groups[i].0 == key(e))
  }

  lemma GroupsCover(edges: seq<Edge>, key: Edge -> string)
    ensures Covers(edges, key, Group(Keyed(edges, key)))
  {
    var pairs := Keyed(edges, key);
    var groups := Group(pairs);
    GroupKeys(pairs);
    DedupSpec(Keys(pairs));
    forall i | 0 <= i < |groups|
      ensures groups[i].1 == EdgesBy(edges, key, groups[i].0) && groups[i].1 != []
    {
      GetAt(groups, i);
      GroupGet(pairs, groups[i].0);
      assert groups[i].0 in Keys(groups);
      var j :| 0 <= j < |pairs| && pairs[j].0 == groups[i].0;
      EdgesByIn(edges, key, groups[i].0, edges[j]);
    }
    forall e | e in edges
      ensures exists i :: 0 <= i < |groups| && groups[i].0 == key(e)
    {
      var j :| 0 <= j < |edges| && edges[j] == e;
      assert pairs[j].0 == key(e);
      assert key(e) in Keys(groups);
    }
  }

  lemma BuildJobIoInputs(urns: Urns, edges: seq<Edge>, groups: OMap<string, seq<Edge>>)
    requires Covers(edges, TargetKey, groups)
    ensures forall x :: x in GroupsIo(Builder(urns), groups).inputs <==> exists e :: e in edges && x == SourceUrn(urns, e)
  {
    forall x | x in GroupsIo(Builder(urns), groups).inputs ensures exists e :: e in edges && x == SourceUrn(urns, e) {
      GroupsIoInputs(Builder(urns), groups, x);
      var i :| 0 <= i < |groups| && x in KeyGroupIo(urns, groups[i].0, groups[i].1).inputs;
      var e :| e in groups[i].1 && x == SourceUrn(urns, e);
      EdgesByIn(edges, TargetKey, groups[i].0, e);
    }
    forall e | e in edges ensures SourceUrn(urns, e) in GroupsIo(Builder(urns), groups).inputs {
      var i :| 0 <= i < |groups| && groups[i].0 == TargetKey(e);
      EdgesByIn(edges, TargetKey, groups[i].0, e);
      assert SourceUrn(urns, e) in KeyGroupIo(urns, groups[i].0, groups[i].1).inputs;
      GroupsIoInputs(Builder(urns), groups, SourceUrn(urns, e));
    }
  }

  lemma BuildJobIoOutputs(urns: Urns, edges: seq<Edge>, groups: OMap<string, seq<Edge>>)
    requires Covers(edges, TargetKey, groups)
    ensures forall x :: x in GroupsIo(Builder(urns), groups).outputs
              <==> exists e :: e in edges && x == urns.dataset(SplitTarget(TargetKey(e)).0, false)
  {
    forall x | x in GroupsIo(Builder(urns), groups).outputs
      ensures exists e :: e in edges && x == urns.dataset(SplitTarget(TargetKey(e)).0, false)
    {
      GroupsIoOutputs(Builder(urns), groups, x);
      var i :| 0 <= i < |groups| && x == KeyGroupIo(urns, groups[i].0, groups[i].1).output;
      var e := groups[i].1[0];
      EdgesByIn(edges, TargetKey, groups[i].0, e);
    }
    forall e | e in edges ensures urns.dataset(SplitTarget(TargetKey(e)).0, false) in GroupsIo(Builder(urns), groups).outputs {
      var i :| 0 <= i < |groups| && groups[i].0 == TargetKey(e);
      assert urns.dataset(SplitTarget(TargetKey(e)).0, false) == KeyGroupIo(urns, groups[i].0, groups[i].1).output;
      GroupsIoOutputs(Builder(urns), groups, urns.dataset(SplitTarget(TargetKey(e)).0, false));
    }
  }

  lemma BuildJobIoFine(urns: Urns, edges: seq<Edge>, groups: OMap<string, seq<Edge>>)
    requires Covers(edges, TargetKey, groups)
    ensures forall f :: f in GroupsIo(Builder(urns), groups).fine <==> exists e :: FineFrom(urns, edges, e, f)
  {
    forall f | f in GroupsIo(Builder(urns), groups).fine
      ensures exists e :: FineFrom(urns, edges, e, f)
    {
      GroupsIoFine(Builder(urns), groups, f);
      var i :| 0 <= i < |groups| && KeyGroupIo(urns, groups[i].0, groups[i].1).fine == Some(f);
      KeyGroupIoSpec(urns, groups[i].0, groups[i].1);
      var e :| e in groups[i].1 && e.sourceColumn != "*";
      EdgesByIn(edges, TargetKey, groups[i].0, e);
      assert FineFrom(urns, edges, e, f);
    }
    forall e | e in edges && e.sourceColumn != "*"
      ensures KeyGroupIo(urns, TargetKey(e), EdgesBy(edges, TargetKey, TargetKey(e))).fine.Some?
      ensures KeyGroupIo(urns, TargetKey(e), EdgesBy(edges, TargetKey, TargetKey(e))).fine.value in GroupsIo(Builder(urns), groups).fine
    {
      var i :| 0 <= i < |groups| && groups[i].0 == TargetKey(e);
      EdgesByIn(edges, TargetKey, groups[i].0, e);
      KeyGroupIoSpec(urns, groups[i].0, groups[i].1);
      GroupsIoFine(Builder(urns), groups, KeyGroupIo(urns, groups[i].0, groups[i].1).fine.value);
    }
  }

  // ---------------------------------------------------------------------
  // `emit_dataset_lineage`
  // ---------------------------------------------------------------------

  /** The edges of `s` at step order `k`, in order. */
  function WithOrder(s: seq<Edge>, k: int): seq<Edge>
    decreases |s|
  {
    if s == [] then []
    else WithOrder(s[..|s| - 1], k) + (if s[|s| - 1].stepOrder == k then [s[|s| - 1]] else [])
  }

  predicate SortedDesc(r: seq<Edge>) {
    forall i, j :: 0 <= i < j < |r| ==> r[i].stepOrder >= r[j].stepOrder
  }

  /** `x` placed after every edge whose step order is not below its own. */
  function InsertDesc(r: seq<Edge>, x: Edge): seq<Edge>
    decreases |r|
  {
    if r == [] then [x]
    else if r[|r| - 1].stepOrder >= x.stepOrder then r + [x]
    else InsertDesc(r[..|r| - 1], x) + [r[|r| - 1]]
  }

  /** `sorted(edges, key=lambda e: e.step_order, reverse=True)`. */
  function SortByStepDesc(s: seq<Edge>): seq<Edge>
    decreases |s|
  {
    if s == [] then [] else InsertDesc(SortByStepDesc(s[..|s| - 1]), s[|s| - 1])
  }

  lemma WithOrderSnoc(s: seq<Edge>, y: Edge, k: int)
    ensures WithOrder(s + [y], k) == WithOrder(s, k) + (if y.stepOrder == k then [y] else [])
  {
    assert (s + [y])[..|s|] == s;
  }

  lemma {:induction false} InsertDescPerm(r: seq<Edge>, x: Edge)
    ensures multiset(InsertDesc(r, x)) == multiset(r) + multiset{x}
    decreases |r|
  {
    if r != [] && r[|r| - 1].stepOrder < x.stepOrder {
      var n := |r| - 1;
      InsertDescPerm(r[..n], x);
      assert r == r[..n] + [r[n]];
    }
  }

  lemma {:induction false} InsertDescStable(r: seq<Edge>, x: Edge, k: int)
    ensures WithOrder(InsertDesc(r, x), k) == WithOrder(r, k) + (if x.stepOrder == k then [x] else [])
    decreases |r|
  {
    if r == [] {
      WithOrderSnoc([], x, k);
      assert [] + [x] == [x];
    } else if r[|r| - 1].stepOrder >= x.stepOrder {
      WithOrderSnoc(r, x, k);
    } else {
      var n := |r| - 1;
      var front := r[..n];
      assert r == front + [r[n]];
      InsertDescStable(front, x, k);
      WithOrderSnoc(InsertDesc(front, x), r[n], k);
      WithOrderSnoc(front, r[n], k);
    }
  }

  lemma {:induction false} InsertDescSorted(r: seq<Edge>, x: Edge)
    requires SortedDesc(r)
    ensures SortedDesc(InsertDesc(r, x))
    decreases |r|
  {
    if r != [] && r[|r| - 1].stepOrder < x.stepOrder {
      var n := |r| - 1;
      var y := r[n];
      var front := r[..n];
      InsertDescSorted(front, x);
      InsertDescPerm(front, x);
      var ins := InsertDesc(front, x);
      forall i | 0 <= i < |ins| ensures ins[i].stepOrder >= y.stepOrder {
        assert ins[i] in multiset(ins);
        if ins[i] != x {
          assert ins[i] in multiset(front);
          var j :| 0 <= j < n && front[j] == ins[i];
          assert r[j] == front[j];
        }
      }
      assert InsertDesc(r, x) == ins + [y];
    }
  }

  /** The sort puts later steps first, keeps every edge, and leaves edges of
      equal step order in their original order. */
  lemma {:induction false} SortByStepDescSpec(s: seq<Edge>)
    ensures SortedDesc(SortByStepDesc(s))
    ensures multiset(SortByStepDesc(s)) == multiset(s)
    ensures forall k :: WithOrder(SortByStepDesc(s), k) == WithOrder(s, k)
    decreases |s|
  {
    if s != [] {
      var n := |s| - 1;
      var sorted := SortByStepDesc(s[..n]);
      SortByStepDescSpec(s[..n]);
      InsertDescSorted(sorted, s[n]);
      InsertDescPerm(sorted, s[n]);
      assert s == s[..n] + [s[n]];
      forall k ensures WithOrder(SortByStepDesc(s), k) == WithOrder(s, k) {
        InsertDescStable(sorted, s[n], k);
      }
    }
  }

  /** `f"[{e.transformation_type.value}] {e.transformation_expression}"` for
      each edge with a non-empty expression, in order. */
  function ExprParts(es: seq<Edge>): (r: seq<string>)
    ensures forall x :: x in r <==> exists e :: e in es && Truthy(e.expression) && x == Labelled(e)
  {
    if es == [] then []
    else
      var rest := ExprParts(es[1..]);
      assert forall e :: e in es <==> e == es[0] || e in es[1..];
      (if Truthy(es[0].expression) then [Labelled(es[0])] else []) + rest
  }

  function Labelled(e: Edge): string
    requires Truthy(e.expression)
  {
    "[" + e.kind.Value() + "] " + e.expression.value
  }

  /** One target column's entry: only when some edge names a source field. */
  function ColumnFine(urns: Urns, targetUrn: string, column: string, es: seq<Edge>): Option<FineGrained> {
    var ups := UpstreamFields(urns, es);
    if ups != [] then
      Some(FineGrained(ups, urns.field(targetUrn, column),
                       JoinOrNone(ExprParts(SortByStepDesc(es)), " \U{2192} "), MinConfidence(es)))
    else None
  }

  /** The values inside the `Some`s, in order. */
  function Somes(s: seq<Option<FineGrained>>): (r: seq<FineGrained>)
    ensures forall x :: x in r <==> Some(x) in s
  {
    if s == [] then []
    else
      assert forall o :: o in s <==> o == s[0] || o in s[1..];
      (if s[0].Some? then [s[0].value] else []) + Somes(s[1..])
  }

  function TargetDatasetOf(e: Edge): string { e.targetDataset }

  function TargetColumnOf(e: Edge): string { e.targetColumn }

  /** The `UpstreamLineage` of one target dataset: its URN, the upstream
      dataset URNs, and the column entries in first-seen column order. */
  datatype DatasetLineage = DatasetLineage(urn: string, upstreams: set<string>, fine: seq<FineGrained>)

  function DatasetEntry(urns: Urns, dataset: string, es: seq<Edge>): DatasetLineage {
    var urn := urns.dataset(dataset, false);
    var columns := Group(Keyed(es, TargetColumnOf));
    DatasetLineage(urn, SourceUrns(urns, es),
                   Somes(seq(|columns|, i requires 0 <= i < |columns| => ColumnFine(urns, urn, columns[i].0, columns[i].1))))
  }

  /** `emit_dataset_lineage`: the lineage aspect of every target dataset. */
  function EmitDatasetLineage(urns: Urns, edges: seq<Edge>): seq<DatasetLineage> {
    var datasets := Group(Keyed(edges, TargetDatasetOf));
    seq(|datasets|, i requires 0 <= i < |datasets| => DatasetEntry(urns, datasets[i].0, datasets[i].1))
  }

  /** A column's entry exists exactly when one of its edges names a source
      field; it lists those fields once each, points at the column, carries
      the weakest edge's confidence, and has an operation exactly when some
      edge has an expression, each labelled with its transformation type. */
  lemma ColumnFineSpec(urns: Urns, targetUrn: string, column: string, es: seq<Edge>)
    requires es != []
    ensures var c := ColumnFine(urns, targetUrn, column, es);
            && (c.Some? <==> exists e :: e in es && e.sourceColumn != "*")
            && (c.Some? ==>
                  && Distinct(c.value.upstreams)
                  && (forall x :: x in c.value.upstreams <==> exists e :: e in es && NamesField(urns, e, x))
                  && c.value.downstream == urns.field(targetUrn, column)
                  && (c.value.operation.None? <==> forall e :: e in es ==> !Truthy(e.expression))
                  && (forall e :: e in es ==> c.value.confidence <= e.confidence)
                  && exists e :: e in es && e.confidence == c.value.confidence)
    ensures forall x :: x in ExprParts(SortByStepDesc(es)) <==> exists e :: e in es && Truthy(e.expression) && x == Labelled(e)
  {
    UpstreamFieldsSpec(urns, es);
    SortByStepDescSpec(es);
    var sorted := SortByStepDesc(es);
    assert forall e :: e in sorted <==> e in es by {
      forall e ensures e in sorted <==> e in es {
        assert e in sorted <==> e in multiset(sorted);
        assert e in es <==> e in multiset(es);
      }
    }
    var parts := ExprParts(sorted);
    assert parts == [] <==> forall e :: e in es ==> !Truthy(e.expression) by {
      if parts != [] {
        assert parts[0] in parts;
        var e :| e in sorted && Truthy(e.expression) && parts[0] == Labelled(e);
        assert !forall e :: e in es ==> !Truthy(e.expression);
      } else {
        assert forall e :: e in sorted && Truthy(e.expression) ==> Labelled(e) in parts;
      }
    }
    var m := MinConfidence(es);
    var i :| 0 <= i < |es| && es[i].confidence == m;
    assert es[i] in es;
  }

  lemma EdgesByNonEmpty(edges: seq<Edge>, key: Edge -> string, groups: OMap<string, seq<Edge>>, i: nat)
    requires Covers(edges, key, groups) && i < |groups|
    ensures groups[i].1 == EdgesBy(edges, key, groups[i].0) && groups[i].1 != []
  {
  }

  /** One dataset's entry: its URN, the source datasets of all its edges,
      and one column entry for each of its columns that some edge names a
      source field under. */
  lemma DatasetEntrySpec(urns: Urns, dataset: string, es: seq<Edge>)
    ensures var d := DatasetEntry(urns, dataset, es);
            && d.urn == urns.dataset(dataset, false)
            && (forall x :: x in d.upstreams <==> exists e :: e in es && x == SourceUrn(urns, e))
            && (forall f :: f in d.fine <==> exists e :: ColumnFineFrom(urns, d.urn, es, e, f))
  {
    var d := DatasetEntry(urns, dataset, es);
    var columns := Group(Keyed(es, TargetColumnOf));
    var opts := seq(|columns|, i requires 0 <= i < |columns| => ColumnFine(urns, d.urn, columns[i].0, columns[i].1));
    assert d.fine == Somes(opts);
    GroupsCover(es, TargetColumnOf);
    forall f | f in d.fine ensures exists e :: ColumnFineFrom(urns, d.urn, es, e, f) {
      var i :| 0 <= i < |opts| && opts[i] == Some(f);
      EdgesByNonEmpty(es, TargetColumnOf, columns, i);
      ColumnFineSpec(urns, d.urn, columns[i].0, columns[i].1);
      var e :| e in columns[i].1 && e.sourceColumn != "*";
      EdgesByIn(es, TargetColumnOf, columns[i].0, e);
      assert ColumnFineFrom(urns, d.urn, es, e, f);
    }
    forall e | e in es && e.sourceColumn != "*"
      ensures ColumnFine(urns, d.urn, e.targetColumn, EdgesBy(es, TargetColumnOf, e.targetColumn)).Some?
      ensures ColumnFine(urns, d.urn, e.targetColumn, EdgesBy(es, TargetColumnOf, e.targetColumn)).value in d.fine
    {
      var i :| 0 <= i < |columns| && columns[i].0 == TargetColumnOf(e);
      EdgesByNonEmpty(es, TargetColumnOf, columns, i);
      EdgesByIn(es, TargetColumnOf, columns[i].0, e);
      ColumnFineSpec(urns, d.urn, columns[i].0, columns[i].1);
      assert opts[i] == ColumnFine(urns, d.urn, e.targetColumn, EdgesBy(es, TargetColumnOf, e.targetColumn));
    }
  }

  /** `f` is the entry of the column of `e`, an edge that names a source
      column, built from all the edges of that column. */
  predicate ColumnFineFrom(urns: Urns, targetUrn: string, es: seq<Edge>, e: Edge, f: FineGrained) {
    && e in es
    && e.sourceColumn != "*"
    && ColumnFine(urns, targetUrn, e.targetColumn, EdgesBy(es, TargetColumnOf, e.targetColumn)) == Some(f)
  }

  /** The target datasets of the edges, in order, repeats included. */
  function TargetDatasets(edges: seq<Edge>): (r: seq<string>)
    ensures |r| == |edges| && forall i :: 0 <= i < |edges| ==> r[i] == edges[i].targetDataset
  {
    seq(|edges|, i requires 0 <= i < |edges| => edges[i].targetDataset)
  }

  /** The entry of the dataset `d` that has edges at all: upstreams are the
      source datasets of its edges, column entries come from its edges. */
  lemma EmitEntrySpec(urns: Urns, edges: seq<Edge>, d: string, es: seq<Edge>)
    requires es == EdgesBy(edges, TargetDatasetOf, d) && es != []
    ensures var r := DatasetEntry(urns, d, es);
            && r.urn == urns.dataset(d, false)
            && r.upstreams != {}
            && (forall x :: x in r.upstreams <==> exists e :: e in edges && e.targetDataset == d && x == SourceUrn(urns, e))
            && (forall f :: f in r.fine <==> exists e: Edge :: e.targetDataset == d && ColumnFineFrom(urns, r.urn, es, e, f))
  {
    var r := DatasetEntry(urns, d, es);
    DatasetEntrySpec(urns, d, es);
    assert SourceUrn(urns, es[0]) in r.upstreams;
    forall x ensures x in r.upstreams <==> exists e :: e in edges && e.targetDataset == d && x == SourceUrn(urns, e) {
      if x in r.upstreams {
        var e :| e in es && x == SourceUrn(urns, e);
        EdgesByIn(edges, TargetDatasetOf, d, e);
      }
      if exists e :: e in edges && e.targetDataset == d && x == SourceUrn(urns, e) {
        var e :| e in edges && e.targetDataset == d && x == SourceUrn(urns, e);
        EdgesByIn(edges, TargetDatasetOf, d, e);
      }
    }
    forall f ensures f in r.fine <==> exists e: Edge :: e.targetDataset == d && ColumnFineFrom(urns, r.urn, es, e, f) {
      if f in r.fine {
        var e :| ColumnFineFrom(urns, r.urn, es, e, f);
        EdgesByIn(edges, TargetDatasetOf, d, e);
      }
    }
  }

  /** `emit_dataset_lineage`: one entry for each target dataset, in order of
      first appearance, whose upstreams are the source datasets of that
      dataset's edges (never none) and whose column entries are built from
      that dataset's edges only; unlike the job's grouping, a dotted column
      keeps its own entry. */
  lemma EmitDatasetLineageSpec(urns: Urns, edges: seq<Edge>)
    ensures var r := EmitDatasetLineage(urns, edges);
            var ds := Dedup(TargetDatasets(edges));
            && |r| == |ds|
            && forall i :: 0 <= i < |r| ==>
                 && r[i].urn == urns.dataset(ds[i], false)
                 && r[i].upstreams != {}
                 && (forall x :: x in r[i].upstreams <==> exists e :: e in edges && e.targetDataset == ds[i] && x == SourceUrn(urns, e))
                 && (forall f :: f in r[i].fine <==> exists e: Edge :: e.targetDataset == ds[i] && ColumnFineFrom(urns, r[i].urn, EdgesBy(edges, TargetDatasetOf, ds[i]), e, f))
  {
    var pairs := Keyed(edges, TargetDatasetOf);
    var groups := Group(pairs);
    var r := EmitDatasetLineage(urns, edges);
    GroupKeys(pairs);
    assert Keys(pairs) == TargetDatasets(edges);
    GroupsCover(edges, TargetDatasetOf);
    forall i | 0 <= i < |r|
      ensures r[i] == DatasetEntry(urns, groups[i].0, EdgesBy(edges, TargetDatasetOf, groups[i].0))
      ensures EdgesBy(edges, TargetDatasetOf, groups[i].0) != []
    {
      EdgesByNonEmpty(edges, TargetDatasetOf, groups, i);
    }
    forall i | 0 <= i < |r|
      ensures var d := Keys(groups)[i];
              var es := EdgesBy(edges, TargetDatasetOf, d);
              && r[i].urn == urns.dataset(d, false)
              && r[i].upstreams != {}
              && (forall x :: x in r[i].upstreams <==> exists e :: e in edges && e.targetDataset == d && x == SourceUrn(urns, e))
              && (forall f :: f in r[i].fine <==> exists e: Edge :: e.targetDataset == d && ColumnFineFrom(urns, r[i].urn, es, e, f))
    {
      EmitEntrySpec(urns, edges, groups[i].0, EdgesBy(edges, TargetDatasetOf, groups[i].0));
    }
  }
}
